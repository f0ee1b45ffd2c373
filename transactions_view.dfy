/**
 * The transactions list page: the search box, the type filter, the
 * sort orders (the default "upcoming" order puts the dates from today on
 * first), the grouping of the rows by date and the row selection.
 *
 * Dates are compared as `yyyy-MM-dd` strings in the source; with
 * four-digit years that order is the order of the day numbers, and
 * `localeCompare` on those strings is the three-way comparison of days.
 * Today in Sydney is the parameter `today`.
 */
module TransactionsView {
  import opened Wrappers
  import opened Dates
  import opened Text
  import opened FinanceTypes
  import opened Lists

  // ---------------------------------------------------------------------
  // Search

  /** The lower-cased query occurs in the lower-cased description, merchant or category name. */
  predicate MatchesSearch(t: Transaction, query: string) {
    var q := ToLower(query);
    Includes(ToLower(t.description), q)
    || (t.merchant.Some? && Includes(ToLower(t.merchant.value), q))
    || (t.category.Some? && Includes(ToLower(t.category.value.name), q))
  }

  /** The search step: an empty search keeps the list as it is. */
  function Search(txs: seq<Transaction>, search: string): (r: seq<Transaction>)
    ensures search == "" ==> r == txs
    ensures forall t :: t in r <==> t in txs && (search == "" || MatchesSearch(t, search))
  {
    if search == "" then txs else Filter(txs, t => MatchesSearch(t, search))
  }

  /** `q` is a substring of `s`. */
  ghost predicate Substring(q: string, s: string) {
    exists i :: OccursAt(q, s, i)
  }

  /** A row matches when the lower-cased query is a substring of one of its three lower-cased texts. */
  lemma MatchesSearchMeaning(t: Transaction, query: string)
    ensures MatchesSearch(t, query) <==> (
      Substring(ToLower(query), ToLower(t.description))
      || (t.merchant.Some? && Substring(ToLower(query), ToLower(t.merchant.value)))
      || (t.category.Some? && Substring(ToLower(query), ToLower(t.category.value.name))))
  {
  }

  /** The empty search would match every row anyway, so skipping it changes nothing. */
  lemma EmptySearchMatchesAll(t: Transaction)
    ensures MatchesSearch(t, "")
  {
    IncludesEmpty(ToLower(t.description));
  }

  // ---------------------------------------------------------------------
  // Type filter

  datatype FilterType = All | Uncategorized | PlannedOnly | OfKind(kind: CategoryType)

  predicate PassesFilter(t: Transaction, filter: FilterType) {
    match filter
    case All => true
    case Uncategorized => !Truthy(t.categoryId)
    case PlannedOnly => t.isPlanned
    case OfKind(k) => t.category.Some? && t.category.value.kind == k
  }

  function ApplyFilter(txs: seq<Transaction>, filter: FilterType): (r: seq<Transaction>)
    ensures filter == All ==> r == txs
    ensures forall t :: t in r <==> t in txs && match filter
      case All => true
      case Uncategorized => t.categoryId == None || t.categoryId == Some("")
      case PlannedOnly => t.isPlanned
      case OfKind(k) => t.category.Some? && t.category.value.kind == k
  {
    if filter == All then txs else Filter(txs, t => PassesFilter(t, filter))
  }

  // ---------------------------------------------------------------------
  // Sort

  datatype SortType = Upcoming | Newest | Oldest | AmountHigh | AmountLow

  /** `localeCompare` on two `yyyy-MM-dd` strings. */
  function CompareDays(a: Day, b: Day): int {
    if a < b then -1 else if a == b then 0 else 1
  }

  /** The comparator handed to `sort`, case by case as the page writes it. */
  function RowCompare(sortBy: SortType, today: Day, a: Transaction, b: Transaction): int {
    match sortBy
    case Upcoming =>
      var aIsFuture := a.date >= today;
      var bIsFuture := b.date >= today;
      if aIsFuture && bIsFuture then CompareDays(a.date, b.date)
      else if !aIsFuture && !bIsFuture then CompareDays(b.date, a.date)
      else if aIsFuture then -1 else 1
    case Newest => CompareDays(b.date, a.date)
    case Oldest => CompareDays(a.date, b.date)
    case AmountHigh => Abs(b.amount) - Abs(a.amount)
    case AmountLow => Abs(a.amount) - Abs(b.amount)
  }

  /** The upcoming rule as a key: days from today on first and ascending, then earlier days descending. */
  function UpcomingKey(today: Day, d: Day): Key {
    if d >= today then Key(0, d) else Key(1, -d)
  }

  function RowKey(sortBy: SortType, today: Day, t: Transaction): Key {
    match sortBy
    case Upcoming => UpcomingKey(today, t.date)
    case Newest => Key(0, -t.date)
    case Oldest => Key(0, t.date)
    case AmountHigh => Key(0, -Abs(t.amount))
    case AmountLow => Key(0, Abs(t.amount))
  }

  function RowKeyFn(sortBy: SortType, today: Day): Transaction -> Key {
    t => RowKey(sortBy, today, t)
  }

  /** The comparator says "a first or tied" exactly when a's key is not above b's. */
  lemma RowCompareIsKeyOrder(sortBy: SortType, today: Day, a: Transaction, b: Transaction)
    ensures RowCompare(sortBy, today, a, b) <= 0 <==> KeyLe(RowKey(sortBy, today, a), RowKey(sortBy, today, b))
    ensures RowCompare(sortBy, today, a, b) < 0 <==> !KeyLe(RowKey(sortBy, today, b), RowKey(sortBy, today, a))
  {
  }

  function SortRows(txs: seq<Transaction>, sortBy: SortType, today: Day): (r: seq<Transaction>)
    ensures multiset(r) == multiset(txs)
    ensures forall i, j :: 0 <= i < j < |r| ==> RowCompare(sortBy, today, r[i], r[j]) <= 0
  {
    var r := SortByKey(txs, RowKeyFn(sortBy, today));
    SortByKeySorted(txs, RowKeyFn(sortBy, today));
    SortedRowsCompare(r, sortBy, today);
    r
  }

  lemma SortedRowsCompare(r: seq<Transaction>, sortBy: SortType, today: Day)
    requires SortedBy(r, RowKeyFn(sortBy, today))
    ensures forall i, j :: 0 <= i < j < |r| ==> RowCompare(sortBy, today, r[i], r[j]) <= 0
  {
    forall i, j | 0 <= i < j < |r| ensures RowCompare(sortBy, today, r[i], r[j]) <= 0 {
      RowCompareIsKeyOrder(sortBy, today, r[i], r[j]);
    }
  }

  /** `filteredTransactions`: search, then the type filter, then a sort of a copy. */
  function FilteredTransactions(txs: seq<Transaction>, search: string, filter: FilterType, sortBy: SortType, today: Day): (r: seq<Transaction>)
    ensures multiset(r) == multiset(ApplyFilter(Search(txs, search), filter))
    ensures forall t :: t in r <==> t in txs && (search == "" || MatchesSearch(t, search)) && PassesFilter(t, filter)
    ensures forall i, j :: 0 <= i < j < |r| ==> RowCompare(sortBy, today, r[i], r[j]) <= 0
  {
    var found := Search(txs, search);
    var kept := ApplyFilter(found, filter);
    var r := SortRows(kept, sortBy, today);
    assert forall t :: t in r <==> t in multiset(kept);
    assert forall t :: t in kept <==> t in found && PassesFilter(t, filter);
    r
  }

  /** What each order means for two rows placed one before the other. */
  lemma SortOrderMeaning(r: seq<Transaction>, sortBy: SortType, today: Day, i: int, j: int)
    requires forall i, j :: 0 <= i < j < |r| ==> RowCompare(sortBy, today, r[i], r[j]) <= 0
    requires 0 <= i < j < |r|
    ensures sortBy == Upcoming ==> (r[j].date >= today ==> r[i].date >= today)
    ensures sortBy == Upcoming && r[i].date >= today && r[j].date >= today ==> r[i].date <= r[j].date
    ensures sortBy == Upcoming && r[i].date < today && r[j].date < today ==> r[i].date >= r[j].date
    ensures sortBy == Newest ==> r[i].date >= r[j].date
    ensures sortBy == Oldest ==> r[i].date <= r[j].date
    ensures sortBy == AmountHigh ==> Abs(r[i].amount) >= Abs(r[j].amount)
    ensures sortBy == AmountLow ==> Abs(r[i].amount) <= Abs(r[j].amount)
  {
    assert RowCompare(sortBy, today, r[i], r[j]) <= 0;
  }

  // ---------------------------------------------------------------------
  // Grouping by date

  /** The rows dated `d`, in their order. */
  function DayBucket(rows: seq<Transaction>, d: Day): (r: seq<Transaction>)
    ensures |r| <= |rows|
  {
    if rows == [] then []
    else
      var last := rows[|rows| - 1];
      DayBucket(rows[..|rows| - 1], d) + (if last.date == d then [last] else [])
  }

  /** A bucket holds exactly the rows of that date. */
  lemma {:induction false} DayBucketMembers(rows: seq<Transaction>, d: Day)
    ensures forall t :: t in DayBucket(rows, d) <==> t in rows && t.date == d
    decreases |rows|
  {
    if rows != [] {
      var init := rows[..|rows| - 1];
      assert rows == init + [rows[|rows| - 1]];
      DayBucketMembers(init, d);
    }
  }

  /** A bucket is the concatenation of the buckets of the two halves, so it keeps input order. */
  lemma {:induction false} DayBucketAppend(a: seq<Transaction>, b: seq<Transaction>, d: Day)
    ensures DayBucket(a + b, d) == DayBucket(a, d) + DayBucket(b, d)
    decreases |b|
  {
    if b == [] {
      assert a + b == a;
    } else {
      var init := b[..|b| - 1];
      assert (a + b)[..|a + b| - 1] == a + init;
      DayBucketAppend(a, init, d);
    }
  }

  /** The bucket of `rows[..i + 1]` adds `rows[i]` to the bucket of its date. */
  lemma DayBucketNext(rows: seq<Transaction>, i: int, d: Day)
    requires 0 <= i < |rows|
    ensures DayBucket(rows[..i + 1], d) == DayBucket(rows[..i], d) + (if rows[i].date == d then [rows[i]] else [])
  {
    assert rows[..i + 1][..i] == rows[..i];
  }

  /** The dates the rows carry. */
  function DatesOf(rows: seq<Transaction>): set<Day> {
    set t | t in rows :: t.date
  }

  /** A date no row carries has an empty bucket. */
  lemma DayBucketNone(rows: seq<Transaction>, d: Day)
    requires d !in DatesOf(rows)
    ensures DayBucket(rows, d) == []
  {
    DayBucketMembers(rows, d);
  }

  /** The dictionary after the `forEach` has run over `rows`. */
  function GroupsAfter(rows: seq<Transaction>): map<Day, seq<Transaction>> {
    if rows == [] then map[]
    else
      var g := GroupsAfter(rows[..|rows| - 1]);
      var t := rows[|rows| - 1];
      g[t.date := (if t.date in g then g[t.date] else []) + [t]]
  }

  /** The order in which the dictionary's keys were created. */
  function KeyOrder(rows: seq<Transaction>): seq<Day> {
    if rows == [] then []
    else
      var o := KeyOrder(rows[..|rows| - 1]);
      var t := rows[|rows| - 1];
      if t.date in o then o else o + [t.date]
  }

  /** The dictionary has one key per date, holding exactly that date's rows in order. */
  lemma {:induction false} GroupsAfterBuckets(rows: seq<Transaction>)
    ensures GroupsAfter(rows).Keys == DatesOf(rows)
    ensures forall d :: d in GroupsAfter(rows) ==> GroupsAfter(rows)[d] == DayBucket(rows, d)
    decreases |rows|
  {
    if rows != [] {
      var init := rows[..|rows| - 1];
      var t := rows[|rows| - 1];
      var g := GroupsAfter(init);
      GroupsAfterBuckets(init);
      assert rows == init + [t];
      assert DatesOf(rows) == DatesOf(init) + {t.date} by {
        assert t in rows;
        assert forall x :: x in rows <==> x in init || x == t;
      }
      if t.date !in g {
        DayBucketNone(init, t.date);
      }
    }
  }

  /** The key order lists each date once. */
  lemma {:induction false} KeyOrderDistinct(rows: seq<Transaction>)
    ensures forall d :: d in KeyOrder(rows) <==> d in GroupsAfter(rows)
    ensures Distinct(KeyOrder(rows))
    decreases |rows|
  {
    if rows != [] {
      var init := rows[..|rows| - 1];
      KeyOrderDistinct(init);
      var o := KeyOrder(init);
      var t := rows[|rows| - 1];
      if t.date !in o {
        DistinctAppend(o, t.date);
      }
    }
  }

  /**
   * The `forEach` that fills the `groups` dictionary: a date's list is
   * created when the date is first seen, then the row is pushed onto it.
   * `order` lists the dates in the order their keys were created.
   */
  method GroupByDate(rows: seq<Transaction>) returns (groups: map<Day, seq<Transaction>>, order: seq<Day>)
    ensures groups.Keys == DatesOf(rows)
    ensures forall d :: d in groups ==> groups[d] == DayBucket(rows, d)
    ensures forall d :: d in order <==> d in groups
    ensures Distinct(order)
  {
    groups := map[];
    order := [];
    var i := 0;
    while i < |rows|
      invariant 0 <= i <= |rows|
      invariant groups == GroupsAfter(rows[..i]) && order == KeyOrder(rows[..i])
    {
      var t := rows[i];
      KeyOrderDistinct(rows[..i]);
      assert rows[..i + 1][..i] == rows[..i];
      if t.date !in groups {
        groups := groups[t.date := []];
        order := order + [t.date];
      }
      groups := groups[t.date := groups[t.date] + [t]];
      i := i + 1;
    }
    assert rows[..i] == rows;
    GroupsAfterBuckets(rows);
    KeyOrderDistinct(rows);
  }

  /** The order of the groups: the upcoming rule, ascending for 'oldest', newest first otherwise. */
  function GroupKey(sortBy: SortType, today: Day, d: Day): Key {
    if sortBy == Upcoming then UpcomingKey(today, d)
    else if sortBy == Oldest then Key(0, d)
    else Key(0, -d)
  }

  function GroupKeyFn(sortBy: SortType, today: Day): Day -> Key {
    d => GroupKey(sortBy, today, d)
  }

  /** The group dates, sorted by the group order. */
  function SortGroupDates(order: seq<Day>, sortBy: SortType, today: Day): (keys: seq<Day>)
    ensures forall d :: d in keys <==> d in order
    ensures Distinct(order) ==> Distinct(keys)
    ensures forall a, b :: 0 <= a < b < |keys| ==> KeyLe(GroupKey(sortBy, today, keys[a]), GroupKey(sortBy, today, keys[b]))
  {
    var keys := SortByKey(order, GroupKeyFn(sortBy, today));
    SortByKeySorted(order, GroupKeyFn(sortBy, today));
    SortByKeyMembers(order, GroupKeyFn(sortBy, today));
    if Distinct(order) then DistinctPermutation(order, keys); keys else keys
  }

  /** `Object.entries` of the groups, in the order of `keys`. */
  function Entries(groups: map<Day, seq<Transaction>>, keys: seq<Day>): (r: seq<(Day, seq<Transaction>)>)
    requires forall k :: 0 <= k < |keys| ==> keys[k] in groups
    ensures |r| == |keys|
    ensures forall k :: 0 <= k < |r| ==> r[k].0 == keys[k] && r[k].1 == groups[keys[k]]
  {
    seq(|keys|, k requires 0 <= k < |keys| => (keys[k], groups[keys[k]]))
  }

  /**
   * `groupedTransactions`: the dictionary's entries sorted by date. Every
   * filtered row is in exactly the group of its date, the groups keep the
   * rows' order, and the group dates are distinct and ordered.
   */
  method GroupedTransactions(filtered: seq<Transaction>, sortBy: SortType, today: Day) returns (r: seq<(Day, seq<Transaction>)>)
    ensures forall k :: 0 <= k < |r| ==> r[k].1 == DayBucket(filtered, r[k].0)
    ensures forall k :: 0 <= k < |r| ==> r[k].0 in DatesOf(filtered)
    ensures forall d :: d in DatesOf(filtered) ==> exists k :: 0 <= k < |r| && r[k].0 == d
    ensures forall a, b :: 0 <= a < b < |r| ==> r[a].0 != r[b].0
    ensures forall a, b :: 0 <= a < b < |r| ==> KeyLe(GroupKey(sortBy, today, r[a].0), GroupKey(sortBy, today, r[b].0))
  {
    var groups, order := GroupByDate(filtered);
    var keys := SortGroupDates(order, sortBy, today);
    EntriesOfGroups(filtered, groups, order, keys, sortBy, today);
    r := Entries(groups, keys);
  }

  /** The facts `GroupedTransactions` promises, from those of the dictionary and the sorted dates. */
  lemma EntriesOfGroups(filtered: seq<Transaction>, groups: map<Day, seq<Transaction>>, order: seq<Day>, keys: seq<Day>,
                        sortBy: SortType, today: Day)
    requires groups.Keys == DatesOf(filtered)
    requires forall d :: d in groups ==> groups[d] == DayBucket(filtered, d)
    requires forall d :: d in order <==> d in groups
    requires forall d :: d in keys <==> d in order
    requires Distinct(keys)
    ensures forall k :: 0 <= k < |keys| ==> keys[k] in groups
    ensures forall d :: d in DatesOf(filtered) ==> exists k :: 0 <= k < |keys| && keys[k] == d
  {
    forall k | 0 <= k < |keys| ensures keys[k] in groups {
      assert keys[k] in keys;
    }
  }

  /** Each row is in exactly one group: the one of its own date. */
  lemma RowInOneGroup(filtered: seq<Transaction>, r: seq<(Day, seq<Transaction>)>, t: Transaction, k: int)
    requires forall k :: 0 <= k < |r| ==> r[k].1 == DayBucket(filtered, r[k].0)
    requires t in filtered && 0 <= k < |r|
    ensures t in r[k].1 <==> r[k].0 == t.date
  {
    DayBucketMembers(filtered, r[k].0);
  }

  /** The row shown with the "Past Transactions" divider above it, in 'upcoming' order. */
  predicate IsFirstPastDate(dates: seq<Day>, index: int, today: Day)
    requires 0 <= index < |dates|
  {
    dates[index] < today && (index == 0 || dates[index - 1] >= today)
  }

  /**
   * In 'upcoming' order the divider is shown exactly once when some group
   * is dated before today: above the first such group.
   */
  lemma PastDividerOnce(dates: seq<Day>, today: Day)
    requires forall a, b :: 0 <= a < b < |dates| ==> KeyLe(GroupKey(Upcoming, today, dates[a]), GroupKey(Upcoming, today, dates[b]))
    ensures forall i, j :: 0 <= i < |dates| && 0 <= j < |dates| && IsFirstPastDate(dates, i, today) && IsFirstPastDate(dates, j, today) ==> i == j
    ensures forall i :: 0 <= i < |dates| && IsFirstPastDate(dates, i, today) ==> forall k :: 0 <= k < i ==> dates[k] >= today
    ensures (exists k :: 0 <= k < |dates| && dates[k] < today) ==> exists i :: 0 <= i < |dates| && IsFirstPastDate(dates, i, today)
  {
    // Every group on or after today comes before every earlier group.
    assert FutureFirst(dates, today) by {
      forall a, b | 0 <= a < b < |dates| && dates[b] >= today ensures dates[a] >= today {
        assert KeyLe(GroupKey(Upcoming, today, dates[a]), GroupKey(Upcoming, today, dates[b]));
      }
    }
    if exists k :: 0 <= k < |dates| && dates[k] < today {
      var k :| 0 <= k < |dates| && dates[k] < today;
      var i := FirstPast(dates, today, k);
      assert IsFirstPastDate(dates, i, today);
    }
  }

  /** Every date from today on comes before every earlier date. */
  predicate FutureFirst(dates: seq<Day>, today: Day) {
    forall a, b :: 0 <= a < b < |dates| && dates[b] >= today ==> dates[a] >= today
  }

  /** The first index, at most `k`, of a date before today. */
  function FirstPast(dates: seq<Day>, today: Day, k: int): (i: int)
    requires FutureFirst(dates, today)
    requires 0 <= k < |dates| && dates[k] < today
    ensures 0 <= i <= k && dates[i] < today
    ensures forall j :: 0 <= j < i ==> dates[j] >= today
    decreases k
  {
    if k > 0 && dates[k - 1] < today then FirstPast(dates, today, k - 1) else k
  }

  // ---------------------------------------------------------------------
  // Selection

  /** The selection after clicking a row's checkbox. */
  function Toggled(selected: set<string>, id: string): set<string> {
    if id in selected then selected - {id} else selected + {id}
  }

  /** `toggleSelection`: copy the set, then delete or add the id. */
  method ToggleSelection(selected: set<string>, id: string) returns (r: set<string>)
    ensures r == Toggled(selected, id)
  {
    var next := selected;
    if id in next {
      next := next - {id};
    } else {
      next := next + {id};
    }
    r := next;
  }

  /** Toggling flips the one id and leaves every other id as it was. */
  lemma ToggledFlips(selected: set<string>, id: string)
    ensures id in Toggled(selected, id) <==> id !in selected
    ensures forall x :: x != id ==> (x in Toggled(selected, id) <==> x in selected)
  {
  }

  /** Toggling the same id twice restores the selection. */
  lemma ToggleTwice(selected: set<string>, id: string)
    ensures Toggled(Toggled(selected, id), id) == selected
  {
  }
}
