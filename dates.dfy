/**
 * Calendar arithmetic in the proleptic Gregorian calendar.
 *
 * A date is a day number (`Day`): day 0 is 0001-01-01, a Monday. Months are
 * counted by a month index (`12 * year + month - 1`, so January of year 1
 * is index 12), and the first day of every month is found by adding up the
 * lengths of the months before it. The (year, month, day) view is `Civil`,
 * with months numbered 1..12. The JavaScript `Date` constructor and the
 * date-fns helpers the program uses (`setDate`, `addMonths`, `setDay`,
 * `startOfWeek`, ...) are stated on day numbers, always at local midnight,
 * so that comparing two dates compares their calendar days.
 */
module Dates {

  /** Days since 0001-01-01. */
  type Day = int

  datatype Civil = Civil(year: int, month: int, day: int)

  predicate IsLeapYear(y: int) {
    y % 4 == 0 && (y % 100 != 0 || y % 400 == 0)
  }

  function DaysInMonth(y: int, m: int): (n: int)
    requires 1 <= m <= 12
    ensures 28 <= n <= 31
    ensures n == 29 <==> m == 2 && IsLeapYear(y)
  {
    if m == 2 then (if IsLeapYear(y) then 29 else 28)
    else if m == 4 || m == 6 || m == 9 || m == 11 then 30
    else 31
  }

  /** A real calendar date: the day lies within its month. */
  predicate ValidCivil(c: Civil) {
    1 <= c.month <= 12 && 1 <= c.day <= DaysInMonth(c.year, c.month)
  }

  /** Months counted from January of year 0. */
  function MonthIndex(c: Civil): int {
    12 * c.year + c.month - 1
  }

  /** The number of days in the month with index `i`. */
  function MonthLength(i: int): (n: int)
    ensures 28 <= n <= 31
  {
    DaysInMonth(i / 12, i % 12 + 1)
  }

  /** The day number of the first day of the month with index `i`. */
  function FirstOfMonthIndex(i: int): Day
    decreases if i >= 12 then i - 12 else 12 - i
  {
    if i == 12 then 0
    else if i > 12 then FirstOfMonthIndex(i - 1) + MonthLength(i - 1)
    else FirstOfMonthIndex(i + 1) - MonthLength(i)
  }

  /** The month after month `i` starts once month `i` has run its full length. */
  lemma FirstOfNextMonth(i: int)
    ensures FirstOfMonthIndex(i + 1) == FirstOfMonthIndex(i) + MonthLength(i)
  {
  }

  /** Later months start later: month `a` ends no later than month `b` begins. */
  lemma {:induction false} FirstOfMonthIndexMonotone(a: int, b: int)
    requires a < b
    ensures FirstOfMonthIndex(a) + MonthLength(a) <= FirstOfMonthIndex(b)
    decreases b - a
  {
    FirstOfNextMonth(a);
    if a + 1 < b {
      FirstOfMonthIndexMonotone(a + 1, b);
    }
  }

  /**
   * The day number of day `d` of month `m` of year `y`. `d` is not limited
   * to the month: day 0 is the last day of the previous month and day 32
   * lies in the next one, as with JavaScript's `Date` constructor.
   */
  function FromCivil(y: int, m: int, d: int): Day
    requires 1 <= m <= 12
  {
    FirstOfMonthIndex(12 * y + m - 1) + d - 1
  }

  function DayOf(c: Civil): Day
    requires 1 <= c.month <= 12
  {
    FromCivil(c.year, c.month, c.day)
  }

  function Min(a: int, b: int): int { if a <= b then a else b }
  function Max(a: int, b: int): int { if a >= b then a else b }

  /** Day `n` lies in the month with index `i`. */
  predicate InMonth(i: int, n: Day) {
    FirstOfMonthIndex(i) <= n < FirstOfMonthIndex(i) + MonthLength(i)
  }

  /** Months of 28 to 31 days: month `i` starts between 28 and 31 days per month away from day 0. */
  lemma {:induction false} FirstOfMonthBounds(i: int)
    ensures i >= 12 ==> 28 * (i - 12) <= FirstOfMonthIndex(i) <= 31 * (i - 12)
    ensures i < 12 ==> 31 * (i - 12) <= FirstOfMonthIndex(i) <= 28 * (i - 12)
    decreases if i >= 12 then i - 12 else 12 - i
  {
    if i > 12 {
      FirstOfMonthBounds(i - 1);
    } else if i < 12 {
      FirstOfMonthBounds(i + 1);
    }
  }

  /** The search for the month holding `n`, upwards from month `i`. */
  ghost function MonthUp(i: int, n: Day): (r: int)
    requires FirstOfMonthIndex(i) <= n
    ensures InMonth(r, n)
    decreases n - FirstOfMonthIndex(i)
  {
    FirstOfNextMonth(i);
    if n < FirstOfMonthIndex(i) + MonthLength(i) then i else MonthUp(i + 1, n)
  }

  /** The search for the month holding `n`, downwards from month `i`. */
  ghost function MonthDown(i: int, n: Day): (r: int)
    requires n < FirstOfMonthIndex(i) + MonthLength(i)
    ensures InMonth(r, n)
    decreases FirstOfMonthIndex(i) - n
  {
    FirstOfNextMonth(i - 1);
    if FirstOfMonthIndex(i) <= n then i else MonthDown(i - 1, n)
  }

  function MonthSearchLow(n: Day): int { 11 + Min(n / 28, n / 31) }
  function MonthSearchHigh(n: Day): int { 13 + Max(n / 28, n / 31) }

  /** Some month between the search bounds holds `n`. */
  lemma MonthIndexExists(n: Day)
    ensures exists i :: MonthSearchLow(n) <= i <= MonthSearchHigh(n) && InMonth(i, n)
  {
    var r := if n >= 0 then MonthUp(12, n) else MonthDown(12, n);
    FirstOfMonthBounds(r);
    FirstOfMonthBounds(r + 1);
    FirstOfNextMonth(r);
    assert MonthSearchLow(n) <= r <= MonthSearchHigh(n);
  }

  /** No two months hold the same day. */
  lemma MonthsDisjoint(n: Day)
    ensures forall i, j :: InMonth(i, n) && InMonth(j, n) ==> i == j
  {
    forall i, j | InMonth(i, n) && InMonth(j, n) ensures i == j {
      if i < j {
        FirstOfMonthIndexMonotone(i, j);
      } else if j < i {
        FirstOfMonthIndexMonotone(j, i);
      }
    }
  }

  /** The month index of the month holding day `n`. */
  function MonthIndexOf(n: Day): (i: int)
    ensures InMonth(i, n)
  {
    MonthIndexExists(n);
    MonthsDisjoint(n);
    var i :| MonthSearchLow(n) <= i <= MonthSearchHigh(n) && InMonth(i, n);
    i
  }

  /** Only one month holds a given day. */
  lemma MonthIndexOfUnique(n: Day, j: int)
    requires FirstOfMonthIndex(j) <= n < FirstOfMonthIndex(j) + MonthLength(j)
    ensures MonthIndexOf(n) == j
  {
    var i := MonthIndexOf(n);
    if i < j {
      FirstOfMonthIndexMonotone(i, j);
    } else if j < i {
      FirstOfMonthIndexMonotone(j, i);
    }
  }

  function Year(n: Day): int { MonthIndexOf(n) / 12 }
  function Month(n: Day): int { MonthIndexOf(n) % 12 + 1 }

  /** The day of the month, 1-based (JavaScript's `getDate`). */
  function Date(n: Day): (d: int)
    ensures 1 <= d <= MonthLength(MonthIndexOf(n))
    ensures n == FirstOfMonthIndex(MonthIndexOf(n)) + d - 1
  {
    n - FirstOfMonthIndex(MonthIndexOf(n)) + 1
  }

  /** The (year, month, day) view of a day number. */
  function ToCivil(n: Day): (c: Civil)
    ensures ValidCivil(c) && DayOf(c) == n
    ensures MonthIndex(c) == MonthIndexOf(n)
  {
    Civil(Year(n), Month(n), Date(n))
  }

  /** Day `n`, day `d` of month `i` for a day that exists in that month, has month index `i` and date `d`. */
  lemma DayInMonth(i: int, d: int, n: Day)
    requires 1 <= d <= MonthLength(i) && n == FirstOfMonthIndex(i) + d - 1
    ensures MonthIndexOf(n) == i && Date(n) == d
  {
    MonthIndexOfUnique(n, i);
  }

  /** Reading a valid date back from its day number gives the same date. */
  lemma ToCivilDayOf(c: Civil)
    requires ValidCivil(c)
    ensures ToCivil(DayOf(c)) == c
  {
    var i := MonthIndex(c);
    var n := DayOf(c);
    assert i / 12 == c.year && i % 12 + 1 == c.month;
    DayInMonth(i, c.day, n);
  }

  /** ECMAScript's MakeDay: `new Date(y, m0, d)` with a 0-based month, either of which may overflow. */
  function JsMakeDay(y: int, m0: int, d: int): Day {
    FirstOfMonthIndex(12 * y + m0) + d - 1
  }

  /**
   * JavaScript's `setDate(d)`: day `d` counted from the first of `n`'s month.
   * A day past the end of the month rolls into the next one, and day 0 is
   * the previous month's last.
   */
  function SetDate(n: Day, d: int): Day {
    FirstOfMonthIndex(MonthIndexOf(n)) + d - 1
  }

  /** `setDate(d)` is MakeDay on `n`'s own year and 0-based month with day `d`. */
  lemma SetDateIsMakeDay(n: Day, d: int)
    ensures SetDate(n, d) == JsMakeDay(Year(n), Month(n) - 1, d)
  {
    assert 12 * Year(n) + (Month(n) - 1) == MonthIndexOf(n);
  }

  /** Where `setDate(d)` lands: in the month for a day it has, rolled into the next for up to 28 more, the previous month's last for 0. */
  lemma SetDateCivil(n: Day, d: int)
    ensures var r := SetDate(n, d);
      var len := MonthLength(MonthIndexOf(n));
      (1 <= d <= len ==> MonthIndexOf(r) == MonthIndexOf(n) && Date(r) == d)
      && (len < d <= len + 28 ==> MonthIndexOf(r) == MonthIndexOf(n) + 1 && Date(r) == d - len)
      && (d == 0 ==> MonthIndexOf(r) == MonthIndexOf(n) - 1 && Date(r) == MonthLength(MonthIndexOf(n) - 1))
  {
    OverflowingDay(MonthIndexOf(n), d);
  }

  /** Where day `d` counted from the first of month `i` falls, for `d` from 0 to one month past the end. */
  lemma OverflowingDay(i: int, d: int)
    ensures var r := FirstOfMonthIndex(i) + d - 1;
      (1 <= d <= MonthLength(i) ==> MonthIndexOf(r) == i && Date(r) == d)
      && (MonthLength(i) < d <= MonthLength(i) + 28 ==> MonthIndexOf(r) == i + 1 && Date(r) == d - MonthLength(i))
      && (d == 0 ==> MonthIndexOf(r) == i - 1 && Date(r) == MonthLength(i - 1))
  {
    var r := FirstOfMonthIndex(i) + d - 1;
    var len := MonthLength(i);
    FirstOfNextMonth(i);
    FirstOfNextMonth(i - 1);
    if 1 <= d <= len {
      DayInMonth(i, d, r);
    } else if len < d <= len + 28 {
      var e := d - len;
      DayInMonth(i + 1, e, r);
    } else if d == 0 {
      var last := MonthLength(i - 1);
      DayInMonth(i - 1, last, r);
    }
  }

  /** date-fns `addMonths`: the same day `k` months later, clamped to the end of a shorter month. */
  function AddMonths(n: Day, k: int): Day {
    var i := MonthIndexOf(n) + k;
    FirstOfMonthIndex(i) + Min(Date(n), MonthLength(i)) - 1
  }

  /**
   * The steps date-fns takes for `addMonths`: build day 0 of the month after
   * the target (the target's last day), keep it when `n`'s day is not
   * earlier, and otherwise set `n`'s day in the target month.
   */
  function DateFnsAddMonths(n: Day, k: int): Day {
    var dayOfMonth := Date(n);
    var endOfDesired := JsMakeDay(Year(n), Month(n) - 1 + k + 1, 0);
    if dayOfMonth >= Date(endOfDesired) then endOfDesired
    else JsMakeDay(Year(endOfDesired), Month(endOfDesired) - 1, dayOfMonth)
  }

  /** The two descriptions of `addMonths` agree on every day and every month count. */
  lemma AddMonthsIsDateFns(n: Day, k: int)
    ensures AddMonths(n, k) == DateFnsAddMonths(n, k)
  {
    var i := MonthIndexOf(n) + k;
    var len := MonthLength(i);
    var e := JsMakeDay(Year(n), Month(n) - 1 + k + 1, 0);
    assert 12 * Year(n) + (Month(n) - 1 + k + 1) == i + 1;
    FirstOfNextMonth(i);
    DayInMonth(i, len, e);
    if Date(n) < MonthLength(i) {
      assert 12 * Year(e) + (Month(e) - 1) == i;
    }
  }

  /** `addMonths` moves exactly `k` months and keeps the day unless the target month is shorter. */
  lemma AddMonthsCivil(n: Day, k: int)
    ensures MonthIndexOf(AddMonths(n, k)) == MonthIndexOf(n) + k
    ensures Date(AddMonths(n, k)) == Min(Date(n), MonthLength(MonthIndexOf(n) + k))
  {
    var i := MonthIndexOf(n) + k;
    var d := Min(Date(n), MonthLength(i));
    var r := AddMonths(n, k);
    DayInMonth(i, d, r);
  }

  /** `addMonths(n, 1)` is always a later day. */
  lemma AddMonthsLater(n: Day)
    ensures AddMonths(n, 1) > n
  {
    AddMonthsCivil(n, 1);
    FirstOfNextMonth(MonthIndexOf(n));
  }

  /** Day `n`, day `d` of month `i` where every month has it, moves to day `d` of month `i + 1`. */
  lemma AddMonthsKeepsDay(i: int, d: int, n: Day)
    requires 1 <= d <= 28 && n == FirstOfMonthIndex(i) + d - 1
    ensures AddMonths(n, 1) == FirstOfMonthIndex(i + 1) + d - 1
  {
    DayInMonth(i, d, n);
  }

  /** The day-`dom` candidate of the month after `n`'s lies one month length later. */
  lemma SetDateNextMonth(n: Day, dom: int)
    ensures SetDate(AddMonths(n, 1), dom) == SetDate(n, dom) + MonthLength(MonthIndexOf(n))
  {
    AddMonthsCivil(n, 1);
    FirstOfNextMonth(MonthIndexOf(n));
  }

  /** Day of the week, 0 = Sunday .. 6 = Saturday (JavaScript's `getDay`); day 0 is a Monday. */
  function Weekday(n: Day): (w: int)
    ensures 0 <= w < 7
  {
    (n + 1) % 7
  }

  /** date-fns `setDay(n, dow, {weekStartsOn: 0})`: weekday `dow` of `n`'s Sunday-start week. */
  function SetDay(n: Day, dow: int): (r: Day)
    ensures 0 <= dow <= 6 ==> Weekday(r) == dow && StartOfWeek(r) == StartOfWeek(n)
  {
    n + dow - Weekday(n)
  }

  /** date-fns `startOfWeek(n, {weekStartsOn: 0})`: the Sunday on or before `n`. */
  function StartOfWeek(n: Day): (r: Day)
    ensures Weekday(r) == 0 && r <= n < r + 7
  {
    n - Weekday(n)
  }

  /** date-fns `endOfWeek(n, {weekStartsOn: 0})`: the Saturday on or after `n`. */
  function EndOfWeek(n: Day): (r: Day)
    ensures Weekday(r) == 6 && n <= r < n + 7 && r == StartOfWeek(n) + 6
  {
    n + 6 - Weekday(n)
  }

  /** date-fns `startOfMonth`: the first day of `n`'s month. */
  function StartOfMonth(n: Day): (r: Day)
    ensures MonthIndexOf(r) == MonthIndexOf(n) && Date(r) == 1 && r <= n
  {
    SetDateCivil(n, 1);
    SetDate(n, 1)
  }

  /** date-fns `endOfMonth`: the last day of `n`'s month. */
  function EndOfMonth(n: Day): (r: Day)
    ensures MonthIndexOf(r) == MonthIndexOf(n) && Date(r) == MonthLength(MonthIndexOf(n)) && n <= r
  {
    SetDateCivil(n, MonthLength(MonthIndexOf(n)));
    SetDate(n, MonthLength(MonthIndexOf(n)))
  }
}
