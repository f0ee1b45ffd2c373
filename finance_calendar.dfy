/**
 * The finance calendar page: the transactions bucketed by date, the
 * per-day totals, the Sunday-to-Saturday grid around the displayed month,
 * the week and month totals, the list for the selected day and the month
 * navigation.
 *
 * Transaction dates are read with `parseISO` as local midnights and
 * compared with a week's or month's first midnight and last millisecond,
 * which is the comparison of day numbers made here.
 */
module FinanceCalendar {
  import opened Wrappers
  import opened Dates
  import opened FinanceTypes
  import opened Lists
  import opened CycleMetrics
  import opened TransactionsView

  // ---------------------------------------------------------------------
  // transactionsByDate and dailyTotals

  /** `transactionsByDate`: the same dictionary-filling `forEach` as the transactions page. */
  method TransactionsByDate(txs: seq<Transaction>) returns (byDate: map<Day, seq<Transaction>>)
    ensures byDate.Keys == DatesOf(txs)
    ensures forall d :: d in byDate ==> byDate[d] == DayBucket(txs, d)
  {
    var order;
    byDate, order := GroupByDate(txs);
  }

  /**
   * `dailyTotals`: a walk over the dictionary's entries (`keys`, in any
   * order) storing the sum of each date's amounts.
   */
  method DailyTotals(byDate: map<Day, seq<Transaction>>, keys: seq<Day>) returns (totals: map<Day, int>)
    requires forall d :: d in keys <==> d in byDate
    ensures totals.Keys == byDate.Keys
    ensures forall d :: d in totals ==> totals[d] == SumAmounts(byDate[d])
  {
    totals := map[];
    var i := 0;
    while i < |keys|
      invariant 0 <= i <= |keys|
      invariant forall d :: d in totals <==> d in keys[..i]
      invariant forall d :: d in totals ==> d in byDate && totals[d] == SumAmounts(byDate[d])
    {
      var d := keys[i];
      assert keys[..i + 1] == keys[..i] + [d];
      totals := totals[d := SumAmounts(byDate[d])];
      i := i + 1;
    }
    assert keys[..i] == keys;
    assert totals.Keys == byDate.Keys by {
      forall d ensures d in totals <==> d in byDate {
        assert d in keys <==> d in byDate;
      }
    }
  }

  /** The sum of the daily totals of the days `ds`. */
  function SumDays(txs: seq<Transaction>, ds: seq<Day>): int {
    if ds == [] then 0
    else SumDays(txs, ds[..|ds| - 1]) + SumAmounts(DayBucket(txs, ds[|ds| - 1]))
  }

  lemma {:induction false} SumAmountsAppend(a: seq<Transaction>, b: seq<Transaction>)
    ensures SumAmounts(a + b) == SumAmounts(a) + SumAmounts(b)
    decreases |a|
  {
    if a == [] {
      assert a + b == b;
    } else {
      assert (a + b)[1..] == a[1..] + b;
      SumAmountsAppend(a[1..], b);
    }
  }

  /** The buckets of `[t] + rest`: `t` heads the bucket of its own date. */
  lemma DayBucketCons(t: Transaction, rest: seq<Transaction>, d: Day)
    ensures DayBucket([t] + rest, d) == (if t.date == d then [t] else []) + DayBucket(rest, d)
  {
    DayBucketAppend([t], rest, d);
    assert [t][..0] == [];
  }

  /** One more row adds its amount to the daily totals of `ds`, once, when its date is among them. */
  lemma {:induction false} SumDaysCons(t: Transaction, rest: seq<Transaction>, ds: seq<Day>)
    requires Distinct(ds)
    ensures SumDays([t] + rest, ds) == SumDays(rest, ds) + (if t.date in ds then t.amount else 0)
    decreases |ds|
  {
    if ds != [] {
      var init := ds[..|ds| - 1];
      var x := ds[|ds| - 1];
      assert ds == init + [x];
      assert Distinct(init) by {
        forall i, j | 0 <= i < j < |init| ensures init[i] != init[j] {
          assert init[i] == ds[i] && init[j] == ds[j];
        }
      }
      SumDaysCons(t, rest, init);
      DayBucketCons(t, rest, x);
      SumAmountsAppend(if t.date == x then [t] else [], DayBucket(rest, x));
    }
  }

  /**
   * The daily totals add up to the sum of all amounts: summed over a list
   * of distinct days covering every row's date, the buckets' sums give
   * the total.
   */
  lemma {:induction false} DailyTotalsAddUp(txs: seq<Transaction>, ds: seq<Day>)
    requires Distinct(ds)
    requires forall t :: t in txs ==> t.date in ds
    ensures SumDays(txs, ds) == SumAmounts(txs)
    decreases |txs|
  {
    if txs == [] {
      SumDaysEmpty(ds);
    } else {
      assert txs == [txs[0]] + txs[1..];
      assert forall t :: t in txs[1..] ==> t in txs;
      DailyTotalsAddUp(txs[1..], ds);
      SumDaysCons(txs[0], txs[1..], ds);
    }
  }

  lemma {:induction false} SumDaysEmpty(ds: seq<Day>)
    ensures SumDays([], ds) == 0
    decreases |ds|
  {
    if ds != [] {
      SumDaysEmpty(ds[..|ds| - 1]);
    }
  }

  // ---------------------------------------------------------------------
  // The calendar grid

  /** date-fns `eachDayOfInterval`: every day from `start` to `end`, both included. */
  function EachDay(start: Day, end: Day): (r: seq<Day>)
    requires start <= end
    ensures |r| == end - start + 1
    ensures forall k :: 0 <= k < |r| ==> r[k] == start + k
  {
    seq(end - start + 1, k => start + k)
  }

  /** The run of days lists every day of its interval, each once. */
  lemma EachDayMembers(start: Day, end: Day)
    requires start <= end
    ensures Distinct(EachDay(start, end))
    ensures forall n :: n in EachDay(start, end) <==> start <= n <= end
  {
    var r := EachDay(start, end);
    forall n | start <= n <= end ensures n in r {
      assert r[n - start] == n;
    }
  }

  /** `calendarDays`: from the Sunday on or before the 1st to the Saturday on or after the month's last day. */
  function CalendarDays(currentMonth: Day): seq<Day> {
    var calendarStart := StartOfWeek(StartOfMonth(currentMonth));
    var calendarEnd := EndOfWeek(EndOfMonth(currentMonth));
    EachDay(calendarStart, calendarEnd)
  }

  /** The days of `n`'s month are exactly those from its start to its end of month. */
  lemma SameMonthIffBetween(n: Day, m: Day)
    ensures MonthIndexOf(m) == MonthIndexOf(n) <==> StartOfMonth(n) <= m <= EndOfMonth(n)
  {
    var i := MonthIndexOf(n);
    if StartOfMonth(n) <= m <= EndOfMonth(n) {
      MonthIndexOfUnique(m, i);
    }
  }

  /** A run from a Sunday to a later Saturday is a whole number of weeks. */
  lemma WholeWeeks(s: Day, e: Day)
    requires Weekday(s) == 0 && Weekday(e) == 6 && s <= e
    ensures (e - s + 1) % 7 == 0
  {
    var a := (s + 1) / 7;
    var b := (e + 1) / 7;
    assert s + 1 == 7 * a;
    assert e + 1 == 7 * b + 6;
    assert e - s + 1 == 7 * (b - a + 1);
  }

  /**
   * A run of whole weeks from at most six days before a month of 28 to 31
   * days to at most six days after it: four to six weeks of consecutive
   * days, holding every day of the month.
   */
  lemma WeekGrid(s: Day, e: Day, som: Day, eom: Day)
    requires s <= som < s + 7 && eom <= e < eom + 7 && 28 <= eom - som + 1 <= 31
    requires (e - s + 1) % 7 == 0
    ensures var r := EachDay(s, e);
      && |r| % 7 == 0 && 28 <= |r| <= 42
      && r[0] == s && r[|r| - 1] == e
      && (forall k :: 0 < k < |r| ==> r[k] == r[k - 1] + 1)
      && (forall n :: som <= n <= eom ==> n in r)
  {
    var r := EachDay(s, e);
    EachDayMembers(s, e);
  }

  /** A month runs from its start to its end, over its length in days. */
  lemma MonthSpan(n: Day)
    ensures EndOfMonth(n) - StartOfMonth(n) + 1 == MonthLength(MonthIndexOf(n))
  {
    var a := StartOfMonth(n);
    var b := EndOfMonth(n);
    assert a == FirstOfMonthIndex(MonthIndexOf(a)) + Date(a) - 1;
    assert b == FirstOfMonthIndex(MonthIndexOf(b)) + Date(b) - 1;
  }

  /**
   * The grid is whole weeks, Sunday first and Saturday last, of
   * consecutive days, and it holds every day of the displayed month.
   */
  lemma CalendarDaysFacts(currentMonth: Day)
    ensures var r := CalendarDays(currentMonth);
      && |r| % 7 == 0 && 28 <= |r| <= 42
      && Weekday(r[0]) == 0 && Weekday(r[|r| - 1]) == 6
      && (forall k :: 0 < k < |r| ==> r[k] == r[k - 1] + 1)
      && r[0] <= StartOfMonth(currentMonth) && EndOfMonth(currentMonth) <= r[|r| - 1]
      && (forall m :: MonthIndexOf(m) == MonthIndexOf(currentMonth) ==> m in r)
  {
    var som := StartOfMonth(currentMonth);
    var eom := EndOfMonth(currentMonth);
    var s := StartOfWeek(som);
    var e := EndOfWeek(eom);
    var r := CalendarDays(currentMonth);
    assert r == EachDay(s, e);
    WholeWeeks(s, e);
    MonthSpan(currentMonth);
    WeekGrid(s, e, som, eom);
    forall m | MonthIndexOf(m) == MonthIndexOf(currentMonth) ensures m in r {
      SameMonthIffBetween(currentMonth, m);
    }
  }

  // ---------------------------------------------------------------------
  // Week and month totals

  function InRangeFn(lo: Day, hi: Day): Transaction -> bool {
    (t: Transaction) => lo <= t.date <= hi
  }

  /** The sum of the amounts dated from `lo` to `hi`: a `filter` then a `reduce`. */
  function RangeTotal(txs: seq<Transaction>, lo: Day, hi: Day): int {
    SumAmounts(Filter(txs, InRangeFn(lo, hi)))
  }

  /** A range total is the sum of the daily totals of the range's days. */
  lemma {:induction false} RangeTotalIsDaily(txs: seq<Transaction>, lo: Day, hi: Day)
    requires lo <= hi
    ensures RangeTotal(txs, lo, hi) == SumDays(txs, EachDay(lo, hi))
    decreases |txs|
  {
    EachDayMembers(lo, hi);
    if txs == [] {
      SumDaysEmpty(EachDay(lo, hi));
    } else {
      assert txs == [txs[0]] + txs[1..];
      SumAmountsAppend(if InRangeFn(lo, hi)(txs[0]) then [txs[0]] else [], Filter(txs[1..], InRangeFn(lo, hi)));
      RangeTotalIsDaily(txs[1..], lo, hi);
      SumDaysCons(txs[0], txs[1..], EachDay(lo, hi));
    }
  }

  /** `weeklyTotal`: 0 with no date selected, else the total of the selected day's Sunday-to-Saturday week. */
  function WeeklyTotal(selected: Option<Day>, txs: seq<Transaction>): (r: int)
    ensures selected.None? ==> r == 0
  {
    match selected
    case None => 0
    case Some(s) => RangeTotal(txs, StartOfWeek(s), EndOfWeek(s))
  }

  /** The week total is the sum of the seven daily totals from the Sunday on. */
  lemma WeeklyTotalIsDaily(s: Day, txs: seq<Transaction>)
    ensures var days := EachDay(StartOfWeek(s), EndOfWeek(s));
      && |days| == 7 && Weekday(days[0]) == 0 && days[0] <= s <= days[6]
      && WeeklyTotal(Some(s), txs) == SumDays(txs, days)
  {
    RangeTotalIsDaily(txs, StartOfWeek(s), EndOfWeek(s));
  }

  /** `monthlyTotal`: the total of the displayed month, its first and last days included. */
  function MonthlyTotal(currentMonth: Day, txs: seq<Transaction>): int {
    RangeTotal(txs, StartOfMonth(currentMonth), EndOfMonth(currentMonth))
  }

  /** The month total is the sum of the daily totals of the month's days. */
  lemma MonthlyTotalIsDaily(currentMonth: Day, txs: seq<Transaction>)
    ensures var days := EachDay(StartOfMonth(currentMonth), EndOfMonth(currentMonth));
      && |days| == MonthLength(MonthIndexOf(currentMonth))
      && (forall m :: m in days <==> MonthIndexOf(m) == MonthIndexOf(currentMonth))
      && MonthlyTotal(currentMonth, txs) == SumDays(txs, days)
  {
    var lo := StartOfMonth(currentMonth);
    var hi := EndOfMonth(currentMonth);
    RangeTotalIsDaily(txs, lo, hi);
    EachDayMembers(lo, hi);
    forall m ensures m in EachDay(lo, hi) <==> MonthIndexOf(m) == MonthIndexOf(currentMonth) {
      SameMonthIffBetween(currentMonth, m);
    }
  }

  // ---------------------------------------------------------------------
  // The selected day

  /** `selectedTransactions`: the selected date's bucket, or empty when nothing is selected or it has none. */
  function SelectedTransactions(selected: Option<Day>, byDate: map<Day, seq<Transaction>>): seq<Transaction> {
    match selected
    case None => []
    case Some(d) => if d in byDate then byDate[d] else []
  }

  /** With the dictionary built from `txs`, the selected list is exactly the selected day's rows. */
  lemma SelectedIsBucket(selected: Option<Day>, txs: seq<Transaction>, byDate: map<Day, seq<Transaction>>)
    requires byDate.Keys == DatesOf(txs)
    requires forall d :: d in byDate ==> byDate[d] == DayBucket(txs, d)
    ensures selected.None? ==> SelectedTransactions(selected, byDate) == []
    ensures selected.Some? ==> SelectedTransactions(selected, byDate) == DayBucket(txs, selected.value)
  {
    if selected.Some? && selected.value !in byDate {
      DayBucketNone(txs, selected.value);
    }
  }

  // ---------------------------------------------------------------------
  // Month navigation

  /** Going back a month (`subMonths`) and then forward one (`addMonths`) shows the same month again. */
  lemma BackThenForward(currentMonth: Day)
    ensures MonthIndexOf(AddMonths(AddMonths(currentMonth, -1), 1)) == MonthIndexOf(currentMonth)
    ensures MonthIndexOf(AddMonths(currentMonth, -1)) == MonthIndexOf(currentMonth) - 1
  {
    var back := AddMonths(currentMonth, -1);
    AddMonthsCivil(currentMonth, -1);
    AddMonthsCivil(back, 1);
  }
}
