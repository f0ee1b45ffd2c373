/**
 * The tasks calendar: the month grid of blank slots and day numbers, the
 * today and selected marks on it, picking a day, and moving a month back
 * or forward. Dates are local calendar days; the time of day and the
 * time zone are not modelled.
 */
module TaskCalendar {
  import opened Wrappers
  import opened Dates

  /** `12 * getFullYear() + getMonth()` is the month index the day lies in. */
  lemma YearAndMonthIndex(n: Day)
    ensures 12 * Year(n) + (Month(n) - 1) == MonthIndexOf(n)
  {
  }

  /** `new Date(year, month, day)` for the displayed month: day `day` counted from its 1st. */
  function DayOfShownMonth(current: Day, day: int): (r: Day)
    ensures r == FirstOfMonthIndex(MonthIndexOf(current)) + day - 1
  {
    YearAndMonthIndex(current);
    JsMakeDay(Year(current), Month(current) - 1, day)
  }

  /** `new Date(year, month, 1).getDay()`: the weekday of the 1st, 0 for Sunday. */
  function FirstWeekday(current: Day): (w: int)
    ensures 0 <= w < 7
    ensures w == Weekday(StartOfMonth(current))
  {
    var first := DayOfShownMonth(current, 1);
    DayInMonth(MonthIndexOf(current), 1, StartOfMonth(current));
    Weekday(first)
  }

  /** `new Date(year, month + 1, 0).getDate()`: the day before next month's 1st, so the month's length. */
  function LastDate(current: Day): (n: int)
    ensures 28 <= n <= 31
    ensures n == MonthLength(MonthIndexOf(current))
  {
    var i := MonthIndexOf(current);
    YearAndMonthIndex(current);
    var last := JsMakeDay(Year(current), Month(current), 0);
    assert last == FirstOfMonthIndex(i + 1) - 1;
    FirstOfNextMonth(i);
    var len := MonthLength(i);
    DayInMonth(i, len, last);
    Date(last)
  }

  /** The grid: `firstDay` blank slots, then the days 1 to `lastDate`. */
  function MonthGrid(firstDay: nat, lastDate: nat): seq<Option<int>> {
    seq(firstDay, _ => None) + seq(lastDate, k => Some(k + 1))
  }

  /** The grid has a slot per blank and per day; the blanks come first and day `k` sits at `firstDay + k - 1`. */
  lemma MonthGridFacts(firstDay: nat, lastDate: nat)
    ensures var g := MonthGrid(firstDay, lastDate);
      |g| == firstDay + lastDate
      && (forall k :: 0 <= k < firstDay ==> g[k].None?)
      && (forall k :: 1 <= k <= lastDate ==> g[firstDay + k - 1] == Some(k))
  {
    var blanks: seq<Option<int>> := seq(firstDay, _ => None);
    var days := seq(lastDate, k => Some(k + 1));
    var g := MonthGrid(firstDay, lastDate);
    assert g == blanks + days;
    forall k | 1 <= k <= lastDate ensures g[firstDay + k - 1] == Some(k) {
      assert g[firstDay + k - 1] == days[k - 1];
    }
  }

  /** `daysInMonth`: the grid of the month shown. */
  method DaysInMonth(current: Day) returns (days: seq<Option<int>>)
    ensures days == MonthGrid(FirstWeekday(current), LastDate(current))
  {
    var firstDay := FirstWeekday(current);
    var lastDate := LastDate(current);
    days := FillGrid(firstDay, lastDate);
  }

  /** The two loops of `daysInMonth`: push the blanks, then the day numbers. */
  method FillGrid(firstDay: nat, lastDate: nat) returns (days: seq<Option<int>>)
    ensures days == MonthGrid(firstDay, lastDate)
  {
    days := [];
    var i := 0;
    while i < firstDay
      invariant 0 <= i <= firstDay && |days| == i
      invariant forall k :: 0 <= k < i ==> days[k] == None
    {
      days := days + [None];
      i := i + 1;
    }
    i := 1;
    while i <= lastDate
      invariant 1 <= i <= lastDate + 1 && |days| == firstDay + i - 1
      invariant forall k :: 0 <= k < firstDay ==> days[k] == None
      invariant forall k :: firstDay <= k < |days| ==> days[k] == Some(k - firstDay + 1)
    {
      days := days + [Some(i)];
      i := i + 1;
    }
    var g := MonthGrid(firstDay, lastDate);
    assert |g| == |days|;
    assert forall k :: 0 <= k < |g| ==> g[k] == days[k];
  }

  /** The grid has seven columns starting on Sunday: every day sits in the column of its weekday. */
  lemma GridColumnIsWeekday(current: Day, k: int)
    requires 1 <= k <= LastDate(current)
    ensures (FirstWeekday(current) + k - 1) % 7 == Weekday(StartOfMonth(current) + k - 1)
  {
    var s := StartOfMonth(current);
    var w := FirstWeekday(current);
    ColumnOfDay(s, w, k);
  }

  /** Counting `k - 1` days on from a day of weekday `w` leads to column `(w + k - 1) % 7`. */
  lemma ColumnOfDay(s: Day, w: int, k: int)
    requires w == Weekday(s)
    ensures (w + k - 1) % 7 == Weekday(s + k - 1)
  {
    var a := s + 1;
    var q := a / 7;
    assert a == 7 * q + w;
    assert s + k - 1 + 1 == 7 * q + (w + k - 1);
  }

  /** `isToday` and `isSelected`: day, month and year all match. */
  predicate SameCell(day: int, current: Day, d: Day) {
    day == Date(d) && Month(current) == Month(d) && Year(current) == Year(d)
  }

  /** Two days share year and month exactly when they fall in the same month. */
  lemma SameYearAndMonth(n: Day, m: Day)
    ensures (Month(n) == Month(m) && Year(n) == Year(m)) <==> MonthIndexOf(n) == MonthIndexOf(m)
  {
    YearAndMonthIndex(n);
    YearAndMonthIndex(m);
  }

  /** A day of the grid is marked for `d` exactly when it is the date `d`. */
  lemma SameCellIsDate(day: int, current: Day, d: Day)
    requires 1 <= day <= LastDate(current)
    ensures SameCell(day, current, d) <==> d == DayOfShownMonth(current, day)
  {
    var i := MonthIndexOf(current);
    var n := DayOfShownMonth(current, day);
    DayInMonth(i, day, n);
    SameYearAndMonth(current, d);
    SameYearAndMonth(current, n);
  }

  /** `handleDayClick` selects the day tapped, and no other day of the grid shows as selected. */
  lemma DayClickSelects(current: Day, day: int, other: int)
    requires 1 <= day <= LastDate(current) && 1 <= other <= LastDate(current)
    ensures SameCell(other, current, DayOfShownMonth(current, day)) <==> other == day
  {
    SameCellIsDate(other, current, DayOfShownMonth(current, day));
  }

  /** `handlePrevMonth`: the 1st of the month before. */
  function PrevMonth(current: Day): (r: Day)
    ensures MonthIndexOf(r) == MonthIndexOf(current) - 1 && Date(r) == 1
  {
    YearAndMonthIndex(current);
    var r := JsMakeDay(Year(current), Month(current) - 2, 1);
    DayInMonth(MonthIndexOf(current) - 1, 1, r);
    r
  }

  /** `handleNextMonth`: the 1st of the month after. */
  function NextMonth(current: Day): (r: Day)
    ensures MonthIndexOf(r) == MonthIndexOf(current) + 1 && Date(r) == 1
  {
    YearAndMonthIndex(current);
    var r := JsMakeDay(Year(current), Month(current), 1);
    DayInMonth(MonthIndexOf(current) + 1, 1, r);
    r
  }

  /** In calendar terms: December rolls into January of the next year. */
  lemma NextMonthInCivilTerms(current: Day)
    ensures var c := ToCivil(current); var n := ToCivil(NextMonth(current));
      n == (if c.month == 12 then Civil(c.year + 1, 1, 1) else Civil(c.year, c.month + 1, 1))
  {
    var i := MonthIndexOf(current);
    var c, n := ToCivil(current), ToCivil(NextMonth(current));
    assert c.year == i / 12 && c.month == i % 12 + 1;
    assert n.year == (i + 1) / 12 && n.month == (i + 1) % 12 + 1 && n.day == 1;
    StepForward(i, c.year, c.month, n.year, n.month);
  }

  /** And January back into December of the year before. */
  lemma PrevMonthInCivilTerms(current: Day)
    ensures var c := ToCivil(current); var p := ToCivil(PrevMonth(current));
      p == (if c.month == 1 then Civil(c.year - 1, 12, 1) else Civil(c.year, c.month - 1, 1))
  {
    var i := MonthIndexOf(current);
    var c, p := ToCivil(current), ToCivil(PrevMonth(current));
    assert c.year == i / 12 && c.month == i % 12 + 1;
    assert p.year == (i - 1) / 12 && p.month == (i - 1) % 12 + 1 && p.day == 1;
    StepForward(i - 1, p.year, p.month, c.year, c.month);
  }

  /** Year and month of month index `i` and of the one after it. */
  lemma StepForward(i: int, y: int, m: int, ny: int, nm: int)
    requires y == i / 12 && m == i % 12 + 1 && ny == (i + 1) / 12 && nm == (i + 1) % 12 + 1
    ensures (ny, nm) == (if m == 12 then (y + 1, 1) else (y, m + 1))
  {
    assert i == 12 * y + (m - 1);
    if m == 12 {
      assert i + 1 == 12 * (y + 1);
    } else {
      assert i + 1 == 12 * y + m;
    }
  }

  /** Back then forward, or forward then back, lands on the 1st of the month shown. */
  lemma NavigationRoundTrip(current: Day)
    ensures NextMonth(PrevMonth(current)) == StartOfMonth(current)
    ensures PrevMonth(NextMonth(current)) == StartOfMonth(current)
  {
  }
}
