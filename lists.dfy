/**
 * The array operations the pages use on their lists: `filter`, and a
 * stable `sort` by a comparator, modelled as sorting by a key with a
 * total order (`KeyLe`).
 */
module Lists {

  /** `s.filter(p)`: the elements satisfying `p`, in their order. */
  function Filter<T(==,!new)>(s: seq<T>, p: T -> bool): (r: seq<T>)
    ensures |r| <= |s|
    ensures forall x :: x in r <==> x in s && p(x)
  {
    if s == [] then []
    else
      assert s == [s[0]] + s[1..];
      (if p(s[0]) then [s[0]] else []) + Filter(s[1..], p)
  }

  /** Filtering keeps relative order: it distributes over concatenation. */
  lemma {:induction false} FilterAppend<T(!new)>(a: seq<T>, b: seq<T>, p: T -> bool)
    ensures Filter(a + b, p) == Filter(a, p) + Filter(b, p)
    decreases |a|
  {
    if a == [] {
      assert a + b == b;
    } else {
      assert (a + b)[1..] == a[1..] + b;
      FilterAppend(a[1..], b, p);
    }
  }

  /** A filter every element passes returns the list unchanged. */
  lemma {:induction false} FilterKeepsAll<T(!new)>(s: seq<T>, p: T -> bool)
    requires forall x :: x in s ==> p(x)
    ensures Filter(s, p) == s
    decreases |s|
  {
    if s != [] {
      assert forall x :: x in s[1..] ==> x in s;
      FilterKeepsAll(s[1..], p);
    }
  }

  /** A filter no element passes returns nothing. */
  lemma {:induction false} FilterKeepsNone<T(!new)>(s: seq<T>, p: T -> bool)
    requires forall x :: x in s ==> !p(x)
    ensures Filter(s, p) == []
    decreases |s|
  {
    if s != [] {
      assert forall x :: x in s[1..] ==> x in s;
      FilterKeepsNone(s[1..], p);
    }
  }

  /** `a` is `s` with some elements left out, the rest in their order. */
  predicate Subsequence<T(==)>(a: seq<T>, s: seq<T>)
    decreases |s|
  {
    if a == [] then true
    else if s == [] then false
    else if a[0] == s[0] then Subsequence(a[1..], s[1..])
    else Subsequence(a, s[1..])
  }

  /** A filter keeps the relative order of what it keeps. */
  lemma {:induction false} FilterSubsequence<T(!new)>(s: seq<T>, p: T -> bool)
    ensures Subsequence(Filter(s, p), s)
    decreases |s|
  {
    if s != [] {
      FilterSubsequence(s[1..], p);
      var r := Filter(s, p);
      if p(s[0]) {
        assert r[0] == s[0] && r[1..] == Filter(s[1..], p);
      } else {
        assert r == Filter(s[1..], p);
        SubsequenceSkip(r, s);
      }
    }
  }

  /** A subsequence of the tail is a subsequence of the whole list. */
  lemma {:induction false} SubsequenceSkip<T(!new)>(a: seq<T>, s: seq<T>)
    requires s != [] && Subsequence(a, s[1..])
    ensures Subsequence(a, s)
    decreases |a| + |s|
  {
    if a != [] && a[0] == s[0] {
      SubsequenceDrop(a, s[1..]);
    }
  }

  /** Leaving out the first element of a subsequence keeps it a subsequence. */
  lemma {:induction false} SubsequenceDrop<T(!new)>(a: seq<T>, s: seq<T>)
    requires a != [] && Subsequence(a, s)
    ensures Subsequence(a[1..], s)
    decreases |a| + |s|
  {
    if a[0] == s[0] {
      SubsequenceSkip(a[1..], s);
    } else {
      SubsequenceDrop(a, s[1..]);
      SubsequenceSkip(a[1..], s);
    }
  }

  /** A filter and its complement split a list: together they hold every element as often as the list does. */
  lemma {:induction false} FilterPartition<T(!new)>(s: seq<T>, p: T -> bool, q: T -> bool)
    requires forall x :: q(x) == !p(x)
    ensures multiset(Filter(s, p)) + multiset(Filter(s, q)) == multiset(s)
    decreases |s|
  {
    if s != [] {
      FilterPartition(s[1..], p, q);
      var rest := s[1..];
      var a, b := multiset(Filter(rest, p)), multiset(Filter(rest, q));
      assert s == [s[0]] + rest;
      var m := multiset(s);
      assert m == multiset{s[0]} + multiset(rest);
      if p(s[0]) {
        assert multiset(Filter(s, p)) == multiset{s[0]} + a;
        assert multiset(Filter(s, q)) == b;
        assert (multiset{s[0]} + a) + b == multiset{s[0]} + (a + b);
      } else {
        assert multiset(Filter(s, q)) == multiset{s[0]} + b;
        assert multiset(Filter(s, p)) == a;
        assert a + (multiset{s[0]} + b) == multiset{s[0]} + (a + b);
      }
    }
  }

  /** Two filters that never both keep an element keep no more elements between them than the list has. */
  lemma {:induction false} FilterDisjointCount<T(!new)>(s: seq<T>, p: T -> bool, q: T -> bool)
    requires forall x :: !(p(x) && q(x))
    ensures |Filter(s, p)| + |Filter(s, q)| <= |s|
    decreases |s|
  {
    if s != [] {
      FilterDisjointCount(s[1..], p, q);
    }
  }

  predicate Distinct<T(==,!new)>(s: seq<T>) {
    forall i, j :: 0 <= i < j < |s| ==> s[i] != s[j]
  }

  /** Appending a new element keeps a list without repeats. */
  lemma DistinctAppend<T(!new)>(s: seq<T>, x: T)
    requires Distinct(s) && x !in s
    ensures Distinct(s + [x])
  {
    var r := s + [x];
    forall i, j | 0 <= i < j < |r| ensures r[i] != r[j] {
      if j == |s| {
        assert r[i] == s[i];
      } else {
        assert r[i] == s[i] && r[j] == s[j];
      }
    }
  }

  /** A list has no repeated element iff each element occurs at most once in its multiset. */
  lemma {:induction false} DistinctIffSingle<T(!new)>(s: seq<T>)
    ensures Distinct(s) <==> forall x :: multiset(s)[x] <= 1
    decreases |s|
  {
    if s != [] {
      var h, t := s[0], s[1..];
      assert s == [h] + t;
      DistinctIffSingle(t);
      if Distinct(s) {
        assert Distinct(t) by {
          forall i, j | 0 <= i < j < |t| ensures t[i] != t[j] {
            assert t[i] == s[i + 1] && t[j] == s[j + 1];
          }
        }
      } else {
        var i, j :| 0 <= i < j < |s| && s[i] == s[j];
        if i == 0 {
          assert t[j - 1] == h;
          assert multiset(s)[h] == 1 + multiset(t)[h];
        } else {
          assert t[i - 1] == t[j - 1];
          assert !Distinct(t);
          var x :| multiset(t)[x] > 1;
          assert multiset(s) == multiset{h} + multiset(t);
          assert multiset(s)[x] > 1;
        }
      }
    }
  }

  /** Rearranging a list without repeats leaves it without repeats. */
  lemma DistinctPermutation<T(!new)>(s: seq<T>, t: seq<T>)
    requires Distinct(s) && multiset(s) == multiset(t)
    ensures Distinct(t)
  {
    DistinctIffSingle(s);
    DistinctIffSingle(t);
  }

  // ---------------------------------------------------------------------
  // Sorting by a key

  /** A sort key, compared first by `major`, then by `minor`. */
  datatype Key = Key(major: int, minor: int)

  predicate KeyLe(a: Key, b: Key) {
    a.major < b.major || (a.major == b.major && a.minor <= b.minor)
  }

  predicate SortedBy<T>(s: seq<T>, key: T -> Key) {
    forall i, j :: 0 <= i < j < |s| ==> KeyLe(key(s[i]), key(s[j]))
  }

  /** Puts `x` in front of the first element whose key is not below its own. */
  function Insert<T(==,!new)>(x: T, s: seq<T>, key: T -> Key): (r: seq<T>)
    ensures multiset(r) == multiset(s) + multiset{x}
    ensures |r| == |s| + 1
  {
    if s == [] then [x]
    else if KeyLe(key(x), key(s[0])) then [x] + s
    else
      assert s == [s[0]] + s[1..];
      [s[0]] + Insert(x, s[1..], key)
  }

  lemma {:induction false} InsertSorted<T(!new)>(x: T, s: seq<T>, key: T -> Key)
    requires SortedBy(s, key)
    ensures SortedBy(Insert(x, s, key), key)
    decreases |s|
  {
    if s != [] && !KeyLe(key(x), key(s[0])) {
      var rest := Insert(x, s[1..], key);
      assert SortedBy(s[1..], key) by {
        forall i, j | 0 <= i < j < |s[1..]| ensures KeyLe(key(s[1..][i]), key(s[1..][j])) {
          assert s[1..][i] == s[i + 1] && s[1..][j] == s[j + 1];
        }
      }
      InsertSorted(x, s[1..], key);
      forall j | 0 <= j < |rest| ensures KeyLe(key(s[0]), key(rest[j])) {
        assert rest[j] in multiset(rest);
        if rest[j] != x {
          assert rest[j] in multiset(s[1..]);
          var k :| 0 <= k < |s[1..]| && s[1..][k] == rest[j];
          assert s[k + 1] == rest[j];
        }
      }
      var r := [s[0]] + rest;
      forall i, j | 0 <= i < j < |r| ensures KeyLe(key(r[i]), key(r[j])) {
        if i > 0 {
          assert r[i] == rest[i - 1] && r[j] == rest[j - 1];
        } else {
          assert r[j] == rest[j - 1];
        }
      }
    }
  }

  /** Insertion sort: a stable sort of `s` by `key`. */
  function SortByKey<T(==,!new)>(s: seq<T>, key: T -> Key): (r: seq<T>)
    ensures multiset(r) == multiset(s)
    ensures |r| == |s|
  {
    if s == [] then []
    else
      assert s == [s[0]] + s[1..];
      Insert(s[0], SortByKey(s[1..], key), key)
  }

  lemma {:induction false} SortByKeySorted<T(!new)>(s: seq<T>, key: T -> Key)
    ensures SortedBy(SortByKey(s, key), key)
    decreases |s|
  {
    if s != [] {
      SortByKeySorted(s[1..], key);
      InsertSorted(s[0], SortByKey(s[1..], key), key);
    }
  }

  /** Sorting keeps exactly the elements it was given. */
  lemma SortByKeyMembers<T(!new)>(s: seq<T>, key: T -> Key)
    ensures forall x :: x in SortByKey(s, key) <==> x in s
  {
    var r := SortByKey(s, key);
    assert forall x :: x in r <==> x in multiset(r);
  }
}
