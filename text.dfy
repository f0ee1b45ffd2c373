/**
 * The JavaScript string operations the program relies on: `trim`, the regular
 * expression class `\s`, `toLowerCase` (on ASCII letters), `includes`,
 * decimal rendering of integers, and the truncating `%` operator.
 */
module Text {

  /** JavaScript line terminators: LF, CR, LINE SEPARATOR, PARAGRAPH SEPARATOR. */
  predicate IsLineTerminator(c: char) {
    c == '\n' || c == '\r' || c == '\U{2028}' || c == '\U{2029}'
  }

  /** A character matched by `\s` and removed by `trim`: JavaScript's WhiteSpace and LineTerminator. */
  predicate IsSpace(c: char) {
    c == '\t' || c == '\U{000B}' || c == '\U{000C}' || c == ' ' || c == '\U{00A0}' || c == '\U{FEFF}'
    || c == '\U{1680}' || ('\U{2000}' <= c <= '\U{200A}') || c == '\U{202F}' || c == '\U{205F}' || c == '\U{3000}'
    || IsLineTerminator(c)
  }

  predicate IsDigit(c: char) {
    '0' <= c <= '9'
  }

  predicate AllSpace(s: string) {
    forall k :: 0 <= k < |s| ==> IsSpace(s[k])
  }

  /** `s` with its leading white space removed. */
  function TrimStart(s: string): (r: string)
    ensures |r| <= |s| && r == s[|s| - |r|..]
    ensures AllSpace(s[..|s| - |r|])
    ensures r != [] ==> !IsSpace(r[0])
  {
    if s != [] && IsSpace(s[0]) then
      var t := s[1..];
      var r := TrimStart(t);
      var pre := t[..|t| - |r|];
      AllSpaceCons(s[0], pre);
      assert s[..|s| - |r|] == [s[0]] + pre;
      assert s[|s| - |r|..] == t[|t| - |r|..];
      r
    else s
  }

  /** White space in front of white space is white space. */
  lemma AllSpaceCons(c: char, x: string)
    requires IsSpace(c) && AllSpace(x)
    ensures AllSpace([c] + x)
  {
    var y := [c] + x;
    forall i | 0 <= i < |y| ensures IsSpace(y[i]) {
      if i > 0 {
        assert y[i] == x[i - 1];
      }
    }
  }

  /** `s` with its trailing white space removed. */
  function TrimEnd(s: string): (r: string)
    ensures |r| <= |s| && r == s[..|r|]
    ensures AllSpace(s[|r|..])
    ensures r != [] ==> !IsSpace(r[|r| - 1])
  {
    if s != [] && IsSpace(s[|s| - 1]) then
      var r := TrimEnd(s[..|s| - 1]);
      assert s[|r|..] == s[..|s| - 1][|r|..] + [s[|s| - 1]];
      assert s[..|r|] == s[..|s| - 1][..|r|];
      r
    else s
  }

  /** `r` is a slice of `s` with only white space before and after it. */
  predicate SliceInSpace(s: string, r: string) {
    exists i, j :: 0 <= i <= j <= |s| && r == s[i..j] && AllSpace(s[..i]) && AllSpace(s[j..])
  }

  /** JavaScript's `trim`: what is left after removing white space at both ends. */
  function Trim(s: string): (r: string)
    ensures SliceInSpace(s, r)
    ensures r != [] ==> !IsSpace(r[0]) && !IsSpace(r[|r| - 1])
    ensures r == [] <==> AllSpace(s)
    ensures |r| <= |s|
  {
    var t := TrimStart(s);
    var r := TrimEnd(t);
    TrimSlice(s, t, r);
    r
  }

  /** Cutting white space off the front and then off the back leaves a slice with only white space around it. */
  lemma TrimSlice(s: string, t: string, r: string)
    requires |t| <= |s| && t == s[|s| - |t|..] && AllSpace(s[..|s| - |t|])
    requires |r| <= |t| && r == t[..|r|] && AllSpace(t[|r|..])
    requires r != [] ==> !IsSpace(r[0])
    ensures SliceInSpace(s, r)
    ensures r == [] <==> AllSpace(s)
  {
    var i := |s| - |t|;
    var j := i + |r|;
    assert t[..|r|] == s[i..j];
    assert t[|r|..] == s[j..];
    assert r == s[i..j] && AllSpace(s[..i]) && AllSpace(s[j..]);
    if r == [] {
      forall k | 0 <= k < |s| ensures IsSpace(s[k]) {
        if k < i {
          assert s[k] == s[..i][k];
        } else {
          assert s[k] == t[k - i];
        }
      }
    } else {
      assert r[0] == s[i];
    }
  }

  /** Removing white space from a string that has none at its ends changes nothing. */
  lemma TrimUnpadded(s: string)
    requires s == [] || (!IsSpace(s[0]) && !IsSpace(s[|s| - 1]))
    ensures Trim(s) == s
  {
  }

  /** Trimming once is enough. */
  lemma TrimTwice(s: string)
    ensures Trim(Trim(s)) == Trim(s)
  {
    TrimUnpadded(Trim(s));
  }

  /** White space after the text does not change the trimmed text. */
  lemma TrimTrailingSpace(s: string, w: string)
    requires AllSpace(w)
    ensures Trim(s + w) == Trim(s)
  {
    if TrimStart(s) == [] {
      assert AllSpace(s[..|s|]) && s[..|s|] == s;
      assert AllSpace(s + w);
      TrimStartOfSpace(s + w);
    } else {
      TrimStartAppend(s, w);
      TrimEndAppendSpace(TrimStart(s), w);
    }
  }

  /** White space appended to a string is removed again by `TrimEnd`. */
  lemma {:induction false} TrimEndAppendSpace(x: string, w: string)
    requires AllSpace(w)
    ensures TrimEnd(x + w) == TrimEnd(x)
    decreases |w|
  {
    if w == [] {
      assert x + w == x;
    } else {
      var v := w[..|w| - 1];
      assert x + w == (x + v) + [w[|w| - 1]];
      assert (x + w)[..|x + w| - 1] == x + v;
      TrimEndAppendSpace(x, v);
    }
  }

  /** A string of white space trims to nothing at its start. */
  lemma {:induction false} TrimStartOfSpace(s: string)
    requires AllSpace(s)
    ensures TrimStart(s) == []
    decreases |s|
  {
    if s != [] {
      assert AllSpace(s[1..]);
      TrimStartOfSpace(s[1..]);
    }
  }

  /** Text appended after non-space text is kept by `TrimStart`. */
  lemma {:induction false} TrimStartAppend(s: string, w: string)
    requires TrimStart(s) != []
    ensures TrimStart(s + w) == TrimStart(s) + w
    decreases |s|
  {
    assert s != [] && (s + w)[0] == s[0];
    if IsSpace(s[0]) {
      var t := s[1..];
      assert (s + w)[1..] == t + w;
      assert TrimStart(s) == TrimStart(t);
      assert TrimStart(s + w) == TrimStart(t + w);
      TrimStartAppend(t, w);
    } else {
      assert TrimStart(s) == s;
      assert TrimStart(s + w) == s + w;
    }
  }

  /** ASCII lower-casing of one character (JavaScript's `toLowerCase` on the letters A..Z). */
  function LowerChar(c: char): char {
    if 'A' <= c <= 'Z' then (c as int + 32) as char else c
  }

  function ToLower(s: string): (r: string)
    ensures |r| == |s| && forall k :: 0 <= k < |s| ==> r[k] == LowerChar(s[k])
  {
    if s == [] then [] else [LowerChar(s[0])] + ToLower(s[1..])
  }

  /** Two strings equal when case is ignored. */
  predicate EqualsIgnoringCase(a: string, b: string) {
    ToLower(a) == ToLower(b)
  }

  /** `p` occurs in `s` starting at index `i`. */
  predicate OccursAt(p: string, s: string, i: int) {
    0 <= i && i + |p| <= |s| && s[i..i + |p|] == p
  }

  /** JavaScript's `s.includes(p)`, found by scanning the start positions from `from` on. */
  function IncludesFrom(s: string, p: string, from: nat): (b: bool)
    ensures b <==> exists i :: from <= i && OccursAt(p, s, i)
    decreases |s| - from
  {
    if from + |p| > |s| then false
    else if s[from..from + |p|] == p then assert OccursAt(p, s, from); true
    else IncludesFrom(s, p, from + 1)
  }

  function Includes(s: string, p: string): (b: bool)
    ensures b <==> exists i :: OccursAt(p, s, i)
  {
    IncludesFrom(s, p, 0)
  }

  /** The empty string occurs in every string. */
  lemma IncludesEmpty(s: string)
    ensures Includes(s, "")
  {
    assert OccursAt("", s, 0);
  }

  function DigitChar(d: int): char
    requires 0 <= d <= 9
  {
    ('0' as int + d) as char
  }

  /** Decimal digits of a natural number, without leading zeros. */
  function NatToString(n: nat): (s: string)
    ensures |s| >= 1 && forall k :: 0 <= k < |s| ==> IsDigit(s[k])
  {
    if n < 10 then [DigitChar(n)] else NatToString(n / 10) + [DigitChar(n % 10)]
  }

  /** JavaScript's `String(n)` for an integer. */
  function IntToString(n: int): string {
    if n < 0 then "-" + NatToString(-n) else NatToString(n)
  }

  /** JavaScript's `a % b` for integers: the remainder of `|a|` by `b`, carrying the sign of `a`. */
  function JsRem(a: int, b: int): (r: int)
    requires b > 0
    ensures a >= 0 ==> r == a % b && 0 <= r < b
    ensures a < 0 ==> r == -((-a) % b) && -b < r <= 0
  {
    if a >= 0 then a % b else -((-a) % b)
  }
}
