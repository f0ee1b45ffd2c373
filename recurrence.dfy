/**
 * Occurrences of a recurring template inside a date range, and the planned
 * transactions generated from them for the current cycle
 * (`getOccurrencesInRange` and `generatePlannedTransactions`).
 *
 * Monthly templates step a cursor one month at a time and set its day of
 * the month; weekly and fortnightly ones start from the template's weekday
 * in the first week of the range and step 7 or 14 days. Every loop keeps
 * only dates inside the range, both ends included, and stops once it has
 * collected more than 10 dates.
 */
module Recurrence {
  import opened Wrappers
  import opened Dates
  import opened FinanceTypes

  /** The loops stop as soon as they hold more than this many dates. */
  const SafetyLimit := 10

  predicate StrictlyIncreasing(s: seq<Day>) {
    forall j, k :: 0 <= j < k < |s| ==> s[j] < s[k]
  }

  predicate WithinRange(s: seq<Day>, rangeStart: Day, rangeEnd: Day) {
    forall k :: 0 <= k < |s| ==> rangeStart <= s[k] <= rangeEnd
  }

  // ---------------------------------------------------------------------
  // The loops, as functions of their state

  /** The monthly loop from cursor `current`, having collected `acc` so far. */
  function MonthlyLoop(current: Day, dom: int, rangeStart: Day, rangeEnd: Day, acc: seq<Day>): seq<Day>
    decreases rangeEnd + 1 - current
  {
    if current > rangeEnd then acc
    else
      var target := SetDate(current, dom);
      var acc' := if rangeStart <= target <= rangeEnd then acc + [target] else acc;
      if |acc'| > SafetyLimit then acc'
      else
        AddMonthsLater(current);
        MonthlyLoop(AddMonths(current, 1), dom, rangeStart, rangeEnd, acc')
  }

  /** The weekly or fortnightly loop from cursor `current`, stepping `step` days. */
  function StepLoop(current: Day, step: int, rangeStart: Day, rangeEnd: Day, acc: seq<Day>): seq<Day>
    requires step > 0
    decreases rangeEnd + 1 - current
  {
    if current > rangeEnd then acc
    else
      var acc' := if current >= rangeStart then acc + [current] else acc;
      if |acc'| > SafetyLimit then acc'
      else StepLoop(current + step, step, rangeStart, rangeEnd, acc')
  }

  /** The first cursor of the weekly and fortnightly loops: the weekday in rangeStart's week, moved on one step if it is earlier. */
  function FirstCursor(rangeStart: Day, dow: int, step: int): Day {
    var c := SetDay(rangeStart, dow);
    if c < rangeStart then c + step else c
  }

  /** `getOccurrencesInRange` as written: the monthly cursor starts at rangeStart itself. */
  function Occurrences(t: RecurringTemplate, rangeStart: Day, rangeEnd: Day): seq<Day> {
    if t.frequency == Monthly && t.dayOfMonth.Some? then
      MonthlyLoop(rangeStart, t.dayOfMonth.value, rangeStart, rangeEnd, [])
    else if t.frequency == Weekly && t.dayOfWeek.Some? then
      StepLoop(FirstCursor(rangeStart, t.dayOfWeek.value, 7), 7, rangeStart, rangeEnd, [])
    else if t.frequency == Fortnightly && t.dayOfWeek.Some? then
      StepLoop(FirstCursor(rangeStart, t.dayOfWeek.value, 14), 14, rangeStart, rangeEnd, [])
    else []
  }

  /** The occurrences with the monthly cursor started on the first of rangeStart's month. */
  function CorrectedOccurrences(t: RecurringTemplate, rangeStart: Day, rangeEnd: Day): seq<Day> {
    if t.frequency == Monthly && t.dayOfMonth.Some? then
      MonthlyLoop(StartOfMonth(rangeStart), t.dayOfMonth.value, rangeStart, rangeEnd, [])
    else Occurrences(t, rangeStart, rangeEnd)
  }

  // ---------------------------------------------------------------------
  // The loops, as the program runs them

  method MonthlyDates(start: Day, dom: int, rangeStart: Day, rangeEnd: Day) returns (dates: seq<Day>)
    ensures dates == MonthlyLoop(start, dom, rangeStart, rangeEnd, [])
  {
    dates := [];
    var current := start;
    while current <= rangeEnd
      invariant |dates| <= SafetyLimit
      invariant MonthlyLoop(current, dom, rangeStart, rangeEnd, dates) == MonthlyLoop(start, dom, rangeStart, rangeEnd, [])
      decreases rangeEnd + 1 - current
    {
      var targetDate := SetDate(current, dom);
      if rangeStart <= targetDate <= rangeEnd {
        dates := dates + [targetDate];
      }
      AddMonthsLater(current);
      current := AddMonths(current, 1);
      if |dates| > SafetyLimit {
        break;
      }
    }
  }

  method StepDates(first: Day, step: int, rangeStart: Day, rangeEnd: Day) returns (dates: seq<Day>)
    requires step > 0
    ensures dates == StepLoop(first, step, rangeStart, rangeEnd, [])
  {
    dates := [];
    var current := first;
    while current <= rangeEnd
      invariant |dates| <= SafetyLimit
      invariant StepLoop(current, step, rangeStart, rangeEnd, dates) == StepLoop(first, step, rangeStart, rangeEnd, [])
      decreases rangeEnd + 1 - current
    {
      if current >= rangeStart {
        dates := dates + [current];
      }
      current := current + step;
      if |dates| > SafetyLimit {
        break;
      }
    }
  }

  /** `getOccurrencesInRange`, as written. */
  method OccurrencesInRange(t: RecurringTemplate, rangeStart: Day, rangeEnd: Day) returns (dates: seq<Day>)
    ensures dates == Occurrences(t, rangeStart, rangeEnd)
  {
    if t.frequency == Monthly && t.dayOfMonth.Some? {
      dates := MonthlyDates(rangeStart, t.dayOfMonth.value, rangeStart, rangeEnd);
    } else if t.frequency == Weekly && t.dayOfWeek.Some? {
      var current := SetDay(rangeStart, t.dayOfWeek.value);
      if current < rangeStart {
        current := current + 7;
      }
      dates := StepDates(current, 7, rangeStart, rangeEnd);
    } else if t.frequency == Fortnightly && t.dayOfWeek.Some? {
      var current := SetDay(rangeStart, t.dayOfWeek.value);
      if current < rangeStart {
        current := current + 14;
      }
      dates := StepDates(current, 14, rangeStart, rangeEnd);
    } else {
      dates := [];
    }
  }

  /** `getOccurrencesInRange` with the monthly cursor started on the first of the month. */
  method CorrectedOccurrencesInRange(t: RecurringTemplate, rangeStart: Day, rangeEnd: Day) returns (dates: seq<Day>)
    ensures dates == CorrectedOccurrences(t, rangeStart, rangeEnd)
  {
    if t.frequency == Monthly && t.dayOfMonth.Some? {
      dates := MonthlyDates(StartOfMonth(rangeStart), t.dayOfMonth.value, rangeStart, rangeEnd);
    } else {
      dates := OccurrencesInRange(t, rangeStart, rangeEnd);
    }
  }

  // ---------------------------------------------------------------------
  // What the monthly loop produces

  /** One turn of the monthly loop, with the cursor's candidate and successor named. */
  lemma MonthlyStep(current: Day, dom: int, rangeStart: Day, rangeEnd: Day, acc: seq<Day>, target: Day, next: Day)
    requires current <= rangeEnd && target == SetDate(current, dom) && next == AddMonths(current, 1)
    ensures var acc' := if rangeStart <= target <= rangeEnd then acc + [target] else acc;
      MonthlyLoop(current, dom, rangeStart, rangeEnd, acc)
        == if |acc'| > SafetyLimit then acc' else MonthlyLoop(next, dom, rangeStart, rangeEnd, acc')
  {
  }

  /** A turn of the monthly loop whose candidate is in range, with room left. */
  lemma MonthlyPush(current: Day, dom: int, rangeStart: Day, rangeEnd: Day, acc: seq<Day>, target: Day, next: Day)
    requires current <= rangeEnd && target == SetDate(current, dom) && next == AddMonths(current, 1)
    requires rangeStart <= target <= rangeEnd && |acc| < SafetyLimit
    ensures MonthlyLoop(current, dom, rangeStart, rangeEnd, acc) == MonthlyLoop(next, dom, rangeStart, rangeEnd, acc + [target])
  {
  }

  /** A turn of the monthly loop whose candidate is out of range. */
  lemma MonthlySkip(current: Day, dom: int, rangeStart: Day, rangeEnd: Day, acc: seq<Day>, target: Day, next: Day)
    requires current <= rangeEnd && target == SetDate(current, dom) && next == AddMonths(current, 1)
    requires !(rangeStart <= target <= rangeEnd) && |acc| <= SafetyLimit
    ensures MonthlyLoop(current, dom, rangeStart, rangeEnd, acc) == MonthlyLoop(next, dom, rangeStart, rangeEnd, acc)
  {
  }

  /** The monthly loop only appends to what it has collected, and stops with at most 11 dates. */
  lemma {:induction false} MonthlyLoopGrows(current: Day, dom: int, rangeStart: Day, rangeEnd: Day, acc: seq<Day>)
    requires |acc| <= SafetyLimit
    ensures var r := MonthlyLoop(current, dom, rangeStart, rangeEnd, acc);
      |acc| <= |r| <= SafetyLimit + 1 && r[..|acc|] == acc
    decreases rangeEnd + 1 - current
  {
    if current <= rangeEnd {
      var target := SetDate(current, dom);
      var next := AddMonths(current, 1);
      AddMonthsLater(current);
      MonthlyStep(current, dom, rangeStart, rangeEnd, acc, target, next);
      var acc' := if rangeStart <= target <= rangeEnd then acc + [target] else acc;
      if |acc'| <= SafetyLimit {
        MonthlyLoopGrows(next, dom, rangeStart, rangeEnd, acc');
        var r := MonthlyLoop(next, dom, rangeStart, rangeEnd, acc');
        assert r[..|acc|] == r[..|acc'|][..|acc|];
      }
    }
  }

  /** Day `dom` counted from the first of some month: what `setDate(dom)` gives on any day of that month. */
  ghost predicate OnMonthDay(x: Day, dom: int) {
    exists i :: x == FirstOfMonthIndex(i) + dom - 1
  }

  /** Every date the monthly loop adds lies in the range and is day `dom` counted from the first of a month. */
  lemma {:induction false} MonthlyLoopMembers(current: Day, dom: int, rangeStart: Day, rangeEnd: Day, acc: seq<Day>)
    ensures forall x :: x in MonthlyLoop(current, dom, rangeStart, rangeEnd, acc) ==>
      x in acc || (rangeStart <= x <= rangeEnd && OnMonthDay(x, dom))
    decreases rangeEnd + 1 - current
  {
    if current <= rangeEnd {
      var target := SetDate(current, dom);
      var next := AddMonths(current, 1);
      AddMonthsLater(current);
      MonthlyStep(current, dom, rangeStart, rangeEnd, acc, target, next);
      var acc' := if rangeStart <= target <= rangeEnd then acc + [target] else acc;
      if |acc'| <= SafetyLimit {
        MonthlyLoopMembers(next, dom, rangeStart, rangeEnd, acc');
      }
    }
  }

  /** The monthly loop keeps its dates strictly increasing. */
  lemma {:induction false} MonthlyLoopIncreasing(current: Day, dom: int, rangeStart: Day, rangeEnd: Day, acc: seq<Day>)
    requires StrictlyIncreasing(acc) && forall k :: 0 <= k < |acc| ==> acc[k] < SetDate(current, dom)
    ensures StrictlyIncreasing(MonthlyLoop(current, dom, rangeStart, rangeEnd, acc))
    decreases rangeEnd + 1 - current
  {
    if current <= rangeEnd {
      var target := SetDate(current, dom);
      var next := AddMonths(current, 1);
      AddMonthsLater(current);
      MonthlyStep(current, dom, rangeStart, rangeEnd, acc, target, next);
      var acc' := if rangeStart <= target <= rangeEnd then acc + [target] else acc;
      if |acc'| <= SafetyLimit {
        SetDateNextMonth(current, dom);
        MonthlyLoopIncreasing(next, dom, rangeStart, rangeEnd, acc');
      }
    }
  }

  /** What the monthly loop collects from an empty start: dates in the range, increasing, at most 11, each day `dom` from a month's first. */
  lemma MonthlyLoopFacts(current: Day, dom: int, rangeStart: Day, rangeEnd: Day)
    ensures var r := MonthlyLoop(current, dom, rangeStart, rangeEnd, []);
      |r| <= SafetyLimit + 1 && StrictlyIncreasing(r) && WithinRange(r, rangeStart, rangeEnd)
      && forall k :: 0 <= k < |r| ==> OnMonthDay(r[k], dom)
  {
    MonthlyLoopGrows(current, dom, rangeStart, rangeEnd, []);
    MonthlyLoopIncreasing(current, dom, rangeStart, rangeEnd, []);
    MonthlyLoopMembers(current, dom, rangeStart, rangeEnd, []);
    var r := MonthlyLoop(current, dom, rangeStart, rangeEnd, []);
    assert forall k :: 0 <= k < |r| ==> r[k] in r;
  }

  /** A monthly occurrence of a day that every month has falls on exactly that day of the month. */
  lemma MonthlyOnTheDay(x: Day, dom: int)
    requires 1 <= dom <= 28 && OnMonthDay(x, dom)
    ensures Date(x) == dom
  {
    var i :| x == FirstOfMonthIndex(i) + dom - 1;
    DayInMonth(i, dom, x);
  }

  // ---------------------------------------------------------------------
  // What the weekly and fortnightly loops produce

  /** The first point at or after `rangeStart` of the progression `c, c + step, ...`. */
  function AlignUp(c: Day, step: int, rangeStart: Day): (a: Day)
    requires step > 0
    ensures a >= rangeStart && a >= c
    ensures c < rangeStart ==> a < rangeStart + step
    decreases rangeStart - c
  {
    if c >= rangeStart then c else AlignUp(c + step, step, rangeStart)
  }

  /** The number of points of `a, a + step, ...` that are not after `rangeEnd`. */
  function Count(a: Day, step: int, rangeEnd: Day): nat
    requires step > 0
    decreases rangeEnd + 1 - a
  {
    if a > rangeEnd then 0 else 1 + Count(a + step, step, rangeEnd)
  }

  /** `n` points of the progression `a, a + step, ...`. */
  function Run(a: Day, step: int, n: nat): (r: seq<Day>)
    ensures |r| == n
    decreases n
  {
    if n == 0 then [] else [a] + Run(a + step, step, n - 1)
  }

  /** The stepping loops collect the aligned progression, up to rangeEnd and at most 11 dates in all. */
  lemma {:induction false} StepLoopClosedForm(current: Day, step: int, rangeStart: Day, rangeEnd: Day, acc: seq<Day>)
    requires step > 0 && |acc| <= SafetyLimit
    ensures var a := AlignUp(current, step, rangeStart);
      StepLoop(current, step, rangeStart, rangeEnd, acc)
        == acc + Run(a, step, Min(Count(a, step, rangeEnd), SafetyLimit + 1 - |acc|))
    decreases rangeEnd + 1 - current
  {
    var next := current + step;
    if rangeEnd < current {
      StepPastClosed(current, step, rangeStart, rangeEnd, acc);
    } else if current < rangeStart {
      StepLoopClosedForm(next, step, rangeStart, rangeEnd, acc);
      StepSkipClosed(current, step, rangeStart, rangeEnd, acc, next);
    } else if |acc| < SafetyLimit {
      var acc' := acc + [current];
      StepLoopClosedForm(next, step, rangeStart, rangeEnd, acc');
      StepPushClosed(current, step, rangeStart, rangeEnd, acc, next, acc');
    } else {
      StepLastClosed(current, step, rangeStart, rangeEnd, acc);
    }
  }

  /** The closed form of the stepping loop at one state. */
  ghost predicate ClosedForm(current: Day, step: int, rangeStart: Day, rangeEnd: Day, acc: seq<Day>)
    requires step > 0 && |acc| <= SafetyLimit
  {
    var a := AlignUp(current, step, rangeStart);
    StepLoop(current, step, rangeStart, rangeEnd, acc)
      == acc + Run(a, step, Min(Count(a, step, rangeEnd), SafetyLimit + 1 - |acc|))
  }

  /** Past rangeEnd the loop returns what it has, and the progression has no point left. */
  lemma StepPastClosed(current: Day, step: int, rangeStart: Day, rangeEnd: Day, acc: seq<Day>)
    requires step > 0 && |acc| <= SafetyLimit && rangeEnd < current
    ensures ClosedForm(current, step, rangeStart, rangeEnd, acc)
  {
    var a := AlignUp(current, step, rangeStart);
    assert Count(a, step, rangeEnd) == 0;
    assert acc + Run(a, step, 0) == acc;
  }

  /** A cursor before rangeStart is skipped, and the progression aligns from the next one alike. */
  lemma StepSkipClosed(current: Day, step: int, rangeStart: Day, rangeEnd: Day, acc: seq<Day>, next: Day)
    requires step > 0 && |acc| <= SafetyLimit && current <= rangeEnd && current < rangeStart && next == current + step
    requires ClosedForm(next, step, rangeStart, rangeEnd, acc)
    ensures ClosedForm(current, step, rangeStart, rangeEnd, acc)
  {
    assert StepLoop(current, step, rangeStart, rangeEnd, acc) == StepLoop(next, step, rangeStart, rangeEnd, acc);
    assert AlignUp(current, step, rangeStart) == AlignUp(next, step, rangeStart);
  }

  /** A cursor in range with room left is collected, and is the first point of the progression. */
  lemma StepPushClosed(current: Day, step: int, rangeStart: Day, rangeEnd: Day, acc: seq<Day>, next: Day, acc': seq<Day>)
    requires step > 0 && rangeStart <= current <= rangeEnd && |acc| < SafetyLimit
    requires next == current + step && acc' == acc + [current]
    requires ClosedForm(next, step, rangeStart, rangeEnd, acc')
    ensures ClosedForm(current, step, rangeStart, rangeEnd, acc)
  {
    StepPush(current, step, rangeStart, rangeEnd, acc, next, acc');
    var m' := Min(Count(next, step, rangeEnd), SafetyLimit + 1 - |acc'|);
    var run := Run(next, step, m');
    assert StepLoop(next, step, rangeStart, rangeEnd, acc') == acc' + run;
    var m := m' + 1;
    assert m == Min(Count(current, step, rangeEnd), SafetyLimit + 1 - |acc|);
    assert Run(current, step, m) == [current] + run;
    assert acc + ([current] + run) == acc' + run;
    assert StepLoop(current, step, rangeStart, rangeEnd, acc) == acc + Run(current, step, m);
  }

  /** A cursor in range that fills the last place ends the loop, and is the only point taken. */
  lemma StepLastClosed(current: Day, step: int, rangeStart: Day, rangeEnd: Day, acc: seq<Day>)
    requires step > 0 && rangeStart <= current <= rangeEnd && |acc| == SafetyLimit
    ensures ClosedForm(current, step, rangeStart, rangeEnd, acc)
  {
    assert StepLoop(current, step, rangeStart, rangeEnd, acc) == acc + [current];
    assert AlignUp(current, step, rangeStart) == current;
    assert Count(current, step, rangeEnd) >= 1;
    assert Run(current, step, 1) == [current];
  }

  /** A turn of a stepping loop that collects its cursor and goes on. */
  lemma StepPush(current: Day, step: int, rangeStart: Day, rangeEnd: Day, acc: seq<Day>, next: Day, acc': seq<Day>)
    requires step > 0 && rangeStart <= current <= rangeEnd && |acc| < SafetyLimit
    requires next == current + step && acc' == acc + [current]
    ensures StepLoop(current, step, rangeStart, rangeEnd, acc) == StepLoop(next, step, rangeStart, rangeEnd, acc')
    ensures AlignUp(current, step, rangeStart) == current && AlignUp(next, step, rangeStart) == next
    ensures Count(current, step, rangeEnd) == 1 + Count(next, step, rangeEnd)
    ensures Min(Count(current, step, rangeEnd), SafetyLimit + 1 - |acc|) - 1 == Min(Count(next, step, rangeEnd), SafetyLimit + 1 - |acc'|)
  {
    var c := Count(next, step, rangeEnd);
    assert Count(current, step, rangeEnd) == 1 + c;
    assert |acc'| == |acc| + 1;
  }

  /** The points of a progression: where each lies, and the gap between neighbours. */
  lemma {:induction false} RunFacts(a: Day, step: int, n: nat)
    requires step > 0
    decreases n
    ensures |Run(a, step, n)| == n
    ensures n > 0 ==> Run(a, step, n)[0] == a
    ensures forall k :: 0 < k < n ==> Run(a, step, n)[k] == Run(a, step, n)[k - 1] + step
    ensures forall k :: 0 <= k < n ==> a <= Run(a, step, n)[k]
    ensures StrictlyIncreasing(Run(a, step, n))
  {
    if n > 0 {
      RunFacts(a + step, step, n - 1);
    }
  }

  /** The last point counted by `Count` is not after rangeEnd; the next one is. */
  lemma {:induction false} CountBounds(a: Day, step: int, rangeEnd: Day, n: nat)
    requires step > 0 && 0 < n <= Count(a, step, rangeEnd)
    ensures Run(a, step, n)[n - 1] <= rangeEnd
    decreases n
  {
    RunFacts(a, step, n);
    if n > 1 {
      CountBounds(a + step, step, rangeEnd, n - 1);
      RunFacts(a + step, step, n - 1);
      assert Run(a, step, n)[n - 1] == Run(a + step, step, n - 1)[n - 2];
    }
  }

  /** A day belongs to a 7- or 14-day progression when it lies in its span on the same phase. */
  lemma {:induction false} RunMember(a: Day, step: int, n: nat, d: Day)
    requires step == 7 || step == 14
    ensures d in Run(a, step, n) <==> a <= d < a + n * step && (d - a) % step == 0
    decreases n
  {
    if n > 0 {
      RunMember(a + step, step, n - 1, d);
      assert Run(a, step, n) == [a] + Run(a + step, step, n - 1);
      assert (a + step) + (n - 1) * step == a + n * step;
      if step == 7 {
        assert (d - a) % 7 == 0 <==> (d - (a + 7)) % 7 == 0;
      } else {
        assert (d - a) % 14 == 0 <==> (d - (a + 14)) % 14 == 0;
      }
    }
  }

  /** The counted points of a progression all lie before `a + Count * step`, and that point is past rangeEnd. */
  lemma {:induction false} CountSpan(a: Day, step: int, rangeEnd: Day)
    requires step > 0
    ensures a + Count(a, step, rangeEnd) * step > rangeEnd
    ensures Count(a, step, rangeEnd) > 0 ==> a + (Count(a, step, rangeEnd) - 1) * step <= rangeEnd
    decreases rangeEnd + 1 - a
  {
    if a <= rangeEnd {
      CountSpan(a + step, step, rangeEnd);
      var c := Count(a + step, step, rangeEnd);
      assert (a + step) + c * step == a + (c + 1) * step;
      assert c > 0 ==> (a + step) + (c - 1) * step == a + c * step;
    }
  }

  // ---------------------------------------------------------------------
  // Properties of getOccurrencesInRange

  /** Occurrences lie within the range, both ends included, strictly increase and number at most 11. */
  lemma OccurrencesBounded(t: RecurringTemplate, rangeStart: Day, rangeEnd: Day)
    ensures var r := Occurrences(t, rangeStart, rangeEnd);
      WithinRange(r, rangeStart, rangeEnd) && StrictlyIncreasing(r) && |r| <= SafetyLimit + 1
  {
    if t.frequency == Monthly && t.dayOfMonth.Some? {
      MonthlyLoopFacts(rangeStart, t.dayOfMonth.value, rangeStart, rangeEnd);
    } else if t.frequency != Monthly && t.dayOfWeek.Some? {
      StepOccurrencesBounded(t, rangeStart, rangeEnd);
    }
  }

  /** The same holds with the monthly cursor started on the first of the month. */
  lemma CorrectedOccurrencesBounded(t: RecurringTemplate, rangeStart: Day, rangeEnd: Day)
    ensures var r := CorrectedOccurrences(t, rangeStart, rangeEnd);
      WithinRange(r, rangeStart, rangeEnd) && StrictlyIncreasing(r) && |r| <= SafetyLimit + 1
  {
    if t.frequency == Monthly && t.dayOfMonth.Some? {
      var start := StartOfMonth(rangeStart);
      MonthlyLoopFacts(start, t.dayOfMonth.value, rangeStart, rangeEnd);
    } else if t.frequency != Monthly && t.dayOfWeek.Some? {
      StepOccurrencesBounded(t, rangeStart, rangeEnd);
    }
  }

  /** The weekly and fortnightly occurrences lie within the range, strictly increase and number at most 11. */
  lemma StepOccurrencesBounded(t: RecurringTemplate, rangeStart: Day, rangeEnd: Day)
    requires t.frequency != Monthly && t.dayOfWeek.Some?
    ensures var r := Occurrences(t, rangeStart, rangeEnd);
      WithinRange(r, rangeStart, rangeEnd) && StrictlyIncreasing(r) && |r| <= SafetyLimit + 1
  {
    var step := if t.frequency == Weekly then 7 else 14;
    var a := AlignUp(FirstCursor(rangeStart, t.dayOfWeek.value, step), step, rangeStart);
    StepOccurrencesAreRun(t, rangeStart, rangeEnd);
    StepRange(a, step, rangeStart, rangeEnd);
  }

  /** An aligned progression cut at Count and at 11 lies within the range. */
  lemma StepRange(a: Day, step: int, rangeStart: Day, rangeEnd: Day)
    requires step > 0 && a >= rangeStart
    ensures var r := Run(a, step, Min(Count(a, step, rangeEnd), SafetyLimit + 1));
      WithinRange(r, rangeStart, rangeEnd) && StrictlyIncreasing(r) && |r| <= SafetyLimit + 1
  {
    var n := Min(Count(a, step, rangeEnd), SafetyLimit + 1);
    var r := Run(a, step, n);
    RunFacts(a, step, n);
    if n > 0 {
      CountBounds(a, step, rangeEnd, n);
      assert forall k :: 0 <= k < n ==> r[k] <= r[n - 1] by {
        assert StrictlyIncreasing(r);
      }
    }
  }

  /** A template without the day its frequency needs has no occurrences. */
  lemma MissingDayNoOccurrences(t: RecurringTemplate, rangeStart: Day, rangeEnd: Day)
    requires (t.frequency == Monthly && t.dayOfMonth.None?) || (t.frequency != Monthly && t.dayOfWeek.None?)
    ensures Occurrences(t, rangeStart, rangeEnd) == [] && CorrectedOccurrences(t, rangeStart, rangeEnd) == []
  {
  }

  /** Weekly and fortnightly occurrences are exactly 7 or 14 days apart. */
  lemma StepSpacing(t: RecurringTemplate, rangeStart: Day, rangeEnd: Day)
    requires t.frequency != Monthly && t.dayOfWeek.Some?
    ensures var r := Occurrences(t, rangeStart, rangeEnd);
      var step := if t.frequency == Weekly then 7 else 14;
      forall k :: 0 < k < |r| ==> r[k] == r[k - 1] + step
  {
    var step := if t.frequency == Weekly then 7 else 14;
    var a := AlignUp(FirstCursor(rangeStart, t.dayOfWeek.value, step), step, rangeStart);
    StepOccurrencesAreRun(t, rangeStart, rangeEnd);
    RunFacts(a, step, Min(Count(a, step, rangeEnd), SafetyLimit + 1));
  }

  /** The weekly and fortnightly occurrences are the aligned progression from the first cursor. */
  lemma StepOccurrencesAreRun(t: RecurringTemplate, rangeStart: Day, rangeEnd: Day)
    requires t.frequency != Monthly && t.dayOfWeek.Some?
    ensures var step := if t.frequency == Weekly then 7 else 14;
      var a := AlignUp(FirstCursor(rangeStart, t.dayOfWeek.value, step), step, rangeStart);
      Occurrences(t, rangeStart, rangeEnd) == Run(a, step, Min(Count(a, step, rangeEnd), SafetyLimit + 1))
  {
    var dow := t.dayOfWeek.value;
    if t.frequency == Weekly {
      assert Occurrences(t, rangeStart, rangeEnd) == StepLoop(FirstCursor(rangeStart, dow, 7), 7, rangeStart, rangeEnd, []);
      StepLoopFromStart(FirstCursor(rangeStart, dow, 7), 7, rangeStart, rangeEnd);
    } else {
      assert Occurrences(t, rangeStart, rangeEnd) == StepLoop(FirstCursor(rangeStart, dow, 14), 14, rangeStart, rangeEnd, []);
      StepLoopFromStart(FirstCursor(rangeStart, dow, 14), 14, rangeStart, rangeEnd);
    }
  }

  /** A stepping loop started with nothing collected gives the aligned progression. */
  lemma StepLoopFromStart(first: Day, step: int, rangeStart: Day, rangeEnd: Day)
    requires step > 0
    ensures var a := AlignUp(first, step, rangeStart);
      StepLoop(first, step, rangeStart, rangeEnd, []) == Run(a, step, Min(Count(a, step, rangeEnd), SafetyLimit + 1))
  {
    StepLoopClosedForm(first, step, rangeStart, rangeEnd, []);
    var a := AlignUp(first, step, rangeStart);
    var run := Run(a, step, Min(Count(a, step, rangeEnd), SafetyLimit + 1));
    assert [] + run == run;
  }

  /** Cutting a progression on the same phase as `d` at Count points, or at `limit`, is cutting it at rangeEnd, or after `limit` steps. */
  lemma ProgressionWindow(a: Day, step: int, rangeEnd: Day, c: nat, limit: nat, d: Day)
    requires step == 7 || step == 14
    requires a + c * step > rangeEnd && (c > 0 ==> a + (c - 1) * step <= rangeEnd)
    requires (d - a) % step == 0
    ensures (a <= d < a + Min(c, limit) * step) <==> (a <= d <= rangeEnd && d < a + limit * step)
  {
    var q := (d - a) / step;
    assert d == a + q * step;
    if step == 7 {
      assert a + Min(c, limit) * 7 == a + 7 * Min(c, limit);
    } else {
      assert a + Min(c, limit) * 14 == a + 14 * Min(c, limit);
    }
  }

  /** A 7- or 14-day stepping loop from inside the range collects exactly the days on its phase, up to rangeEnd and 11 steps. */
  lemma StepLoopMembers(a: Day, step: int, rangeStart: Day, rangeEnd: Day, d: Day)
    requires step == 7 || step == 14
    requires a >= rangeStart
    ensures (d in StepLoop(a, step, rangeStart, rangeEnd, []))
      <==> (a <= d <= rangeEnd && d < a + (SafetyLimit + 1) * step && (d - a) % step == 0)
  {
    StepLoopClosedForm(a, step, rangeStart, rangeEnd, []);
    var c := Count(a, step, rangeEnd);
    var n := Min(c, SafetyLimit + 1);
    assert StepLoop(a, step, rangeStart, rangeEnd, []) == Run(a, step, n);
    RunMember(a, step, n, d);
    CountSpan(a, step, rangeEnd);
    if (d - a) % step == 0 {
      ProgressionWindow(a, step, rangeEnd, c, SafetyLimit + 1, d);
    }
  }

  /**
   * Weekly: the occurrences are exactly the days of the range with the
   * template's weekday, among the first 11 weeks from rangeStart.
   */
  lemma WeeklyOccurrences(t: RecurringTemplate, rangeStart: Day, rangeEnd: Day, d: Day)
    requires t.frequency == Weekly && t.dayOfWeek.Some? && 0 <= t.dayOfWeek.value <= 6
    ensures (d in Occurrences(t, rangeStart, rangeEnd))
      <==> (rangeStart <= d <= rangeEnd && d < rangeStart + 77 && Weekday(d) == t.dayOfWeek.value)
  {
    var dow := t.dayOfWeek.value;
    var a := FirstCursor(rangeStart, dow, 7);
    assert rangeStart <= a < rangeStart + 7 && Weekday(a) == dow;
    StepLoopMembers(a, 7, rangeStart, rangeEnd, d);
    assert (d - a) % 7 == 0 <==> Weekday(d) == Weekday(a);
  }

  /**
   * Fortnightly: the occurrences are the days 0, 14, 28, ... after the
   * first cursor that lie in the range, at most 11 of them.
   */
  lemma FortnightlyOccurrences(t: RecurringTemplate, rangeStart: Day, rangeEnd: Day, d: Day)
    requires t.frequency == Fortnightly && t.dayOfWeek.Some? && 0 <= t.dayOfWeek.value <= 6
    ensures var a := FirstCursor(rangeStart, t.dayOfWeek.value, 14);
      (d in Occurrences(t, rangeStart, rangeEnd)) <==> (a <= d <= rangeEnd && d < a + 154 && (d - a) % 14 == 0)
  {
    var a := FirstCursor(rangeStart, t.dayOfWeek.value, 14);
    StepLoopMembers(a, 14, rangeStart, rangeEnd, d);
  }

  /**
   * The fortnightly quirk: when the weekday has already passed in
   * rangeStart's week, the first occurrence skips the matching day a week
   * later, although that day is in range.
   */
  lemma FortnightlySkipsFirstMatch(t: RecurringTemplate, rangeStart: Day, rangeEnd: Day)
    requires t.frequency == Fortnightly && t.dayOfWeek.Some?
    requires 0 <= t.dayOfWeek.value < Weekday(rangeStart)
    ensures var missed := SetDay(rangeStart, t.dayOfWeek.value) + 7;
      rangeStart < missed < rangeStart + 7 && Weekday(missed) == t.dayOfWeek.value
      && missed !in Occurrences(t, rangeStart, rangeEnd)
  {
    var missed := SetDay(rangeStart, t.dayOfWeek.value) + 7;
    FortnightlyOccurrences(t, rangeStart, rangeEnd, missed);
  }

  // ---------------------------------------------------------------------
  // Pay cycles: the 15th of one month to the 14th of the next

  /** The range of the cycle that starts on the 15th of month `i`. */
  predicate IsCycleRange(i: int, rangeStart: Day, rangeEnd: Day) {
    rangeStart == FirstOfMonthIndex(i) + 14 && rangeEnd == FirstOfMonthIndex(i + 1) + 13
  }

  /** The day a monthly template with day `dom` falls due in the cycle starting on the 15th of month `i`. */
  function CycleDueDay(i: int, dom: int): Day {
    if dom >= 15 then FirstOfMonthIndex(i) + dom - 1 else FirstOfMonthIndex(i + 1) + dom - 1
  }

  /** The due day lies in the cycle and is day `dom` of its month. */
  lemma CycleDueDayInCycle(i: int, dom: int, rangeStart: Day, rangeEnd: Day)
    requires IsCycleRange(i, rangeStart, rangeEnd) && 1 <= dom <= 28
    ensures rangeStart <= CycleDueDay(i, dom) <= rangeEnd && Date(CycleDueDay(i, dom)) == dom
  {
    var due := CycleDueDay(i, dom);
    FirstOfNextMonth(i);
    if dom >= 15 {
      DayInMonth(i, dom, due);
    } else {
      DayInMonth(i + 1, dom, due);
    }
  }

  /** The monthly loop once its cursor is past the range's end. */
  lemma MonthlyStop(current: Day, dom: int, rangeStart: Day, rangeEnd: Day, acc: seq<Day>)
    requires current > rangeEnd
    ensures MonthlyLoop(current, dom, rangeStart, rangeEnd, acc) == acc
  {
  }

  /** The monthly loop from the 15th of month `i`, for days of the month before the 15th. */
  lemma {:induction false} MonthlyFromFifteenth(i: int, dom: int, rangeStart: Day, rangeEnd: Day)
    requires IsCycleRange(i, rangeStart, rangeEnd) && 1 <= dom <= 14
    ensures MonthlyLoop(rangeStart, dom, rangeStart, rangeEnd, []) == []
  {
    var target := SetDate(rangeStart, dom);
    var next := AddMonths(rangeStart, 1);
    DayInMonth(i, 15, rangeStart);
    AddMonthsKeepsDay(i, 15, rangeStart);
    MonthlyStep(rangeStart, dom, rangeStart, rangeEnd, [], target, next);
    MonthlyStop(next, dom, rangeStart, rangeEnd, []);
  }

  /**
   * As written, the monthly cursor starts on the 15th and moves to the 15th
   * of the next month, past the cycle's end on the 14th; so a day of the
   * month before the 15th is never produced, although it falls in the cycle.
   */
  lemma {:induction false} AsWrittenMissesEarlyDays(i: int, t: RecurringTemplate, rangeStart: Day, rangeEnd: Day)
    requires IsCycleRange(i, rangeStart, rangeEnd)
    requires t.frequency == Monthly && t.dayOfMonth.Some? && 1 <= t.dayOfMonth.value <= 14
    ensures Occurrences(t, rangeStart, rangeEnd) == []
    ensures rangeStart <= CycleDueDay(i, t.dayOfMonth.value) <= rangeEnd
    ensures Date(CycleDueDay(i, t.dayOfMonth.value)) == t.dayOfMonth.value
  {
    var dom := t.dayOfMonth.value;
    MonthlyFromFifteenth(i, dom, rangeStart, rangeEnd);
    CycleDueDayInCycle(i, dom, rangeStart, rangeEnd);
  }

  /** The case that shows it: the cycle 2024-03-15 .. 2024-04-14 and a bill due on the 1st. */
  lemma AsWrittenMissesFirstOfApril(t: RecurringTemplate)
    requires t.frequency == Monthly && t.dayOfMonth == Some(1)
    ensures Occurrences(t, FromCivil(2024, 3, 15), FromCivil(2024, 4, 14)) == []
    ensures FromCivil(2024, 3, 15) <= FromCivil(2024, 4, 1) <= FromCivil(2024, 4, 14)
  {
    var i := 12 * 2024 + 2;
    assert FromCivil(2024, 3, 15) == FirstOfMonthIndex(i) + 14;
    assert FromCivil(2024, 4, 14) == FirstOfMonthIndex(i + 1) + 13;
    AsWrittenMissesEarlyDays(i, t, FromCivil(2024, 3, 15), FromCivil(2024, 4, 14));
  }

  /** The last turn over a cycle: the candidate is in range and the next cursor past the end. */
  lemma MonthlyLastPush(current: Day, dom: int, rangeStart: Day, rangeEnd: Day, target: Day, next: Day)
    requires current <= rangeEnd && target == SetDate(current, dom) && next == AddMonths(current, 1)
    requires rangeStart <= target <= rangeEnd && next > rangeEnd
    ensures MonthlyLoop(current, dom, rangeStart, rangeEnd, []) == [] + [target]
  {
    MonthlyPush(current, dom, rangeStart, rangeEnd, [], target, next);
  }

  /** The last turn over a cycle: the candidate is out of range and the next cursor past the end. */
  lemma MonthlyLastSkip(current: Day, dom: int, rangeStart: Day, rangeEnd: Day, acc: seq<Day>, target: Day, next: Day)
    requires current <= rangeEnd && target == SetDate(current, dom) && next == AddMonths(current, 1)
    requires !(rangeStart <= target <= rangeEnd) && next > rangeEnd && |acc| <= SafetyLimit
    ensures MonthlyLoop(current, dom, rangeStart, rangeEnd, acc) == acc
  {
    MonthlySkip(current, dom, rangeStart, rangeEnd, acc, target, next);
  }

  /** Two turns of the monthly loop that keep the first candidate only, and end past the range. */
  lemma MonthlyKeepFirst(first: Day, second: Day, third: Day, dom: int, rangeStart: Day, rangeEnd: Day, early: Day, late: Day)
    requires first <= rangeEnd && second <= rangeEnd && third > rangeEnd
    requires early == SetDate(first, dom) && second == AddMonths(first, 1)
    requires late == SetDate(second, dom) && third == AddMonths(second, 1)
    requires rangeStart <= early <= rangeEnd && !(rangeStart <= late <= rangeEnd)
    ensures MonthlyLoop(first, dom, rangeStart, rangeEnd, []) == [early]
  {
    MonthlyPush(first, dom, rangeStart, rangeEnd, [], early, second);
    MonthlyLastSkip(second, dom, rangeStart, rangeEnd, [] + [early], late, third);
    assert [] + [early] == [early];
  }

  /** Two turns of the monthly loop that keep the second candidate only, and end past the range. */
  lemma MonthlyKeepSecond(first: Day, second: Day, third: Day, dom: int, rangeStart: Day, rangeEnd: Day, early: Day, late: Day)
    requires first <= rangeEnd && second <= rangeEnd && third > rangeEnd
    requires early == SetDate(first, dom) && second == AddMonths(first, 1)
    requires late == SetDate(second, dom) && third == AddMonths(second, 1)
    requires !(rangeStart <= early <= rangeEnd) && rangeStart <= late <= rangeEnd
    ensures MonthlyLoop(first, dom, rangeStart, rangeEnd, []) == [late]
  {
    MonthlySkip(first, dom, rangeStart, rangeEnd, [], early, second);
    MonthlyLastPush(second, dom, rangeStart, rangeEnd, late, third);
    assert [] + [late] == [late];
  }

  /** The monthly loop from the first of month `i` over the cycle starting on its 15th. */
  lemma MonthlyFromFirst(i: int, dom: int, rangeStart: Day, rangeEnd: Day, due: Day)
    requires IsCycleRange(i, rangeStart, rangeEnd) && 1 <= dom <= 28 && due == CycleDueDay(i, dom)
    ensures MonthlyLoop(FirstOfMonthIndex(i), dom, rangeStart, rangeEnd, []) == [due]
  {
    var first := FirstOfMonthIndex(i);
    var second := FirstOfMonthIndex(i + 1);
    var third := FirstOfMonthIndex(i + 2);
    var early := SetDate(first, dom);
    var late := SetDate(second, dom);
    assert early == first + dom - 1 && second == AddMonths(first, 1) by {
      DayInMonth(i, 1, first);
      AddMonthsKeepsDay(i, 1, first);
    }
    assert late == second + dom - 1 && third == AddMonths(second, 1) by {
      DayInMonth(i + 1, 1, second);
      AddMonthsKeepsDay(i + 1, 1, second);
    }
    assert second >= first + 28 && third >= second + 28 by {
      FirstOfNextMonth(i);
      FirstOfNextMonth(i + 1);
    }
    if dom >= 15 {
      assert due == early;
      MonthlyKeepFirst(first, second, third, dom, rangeStart, rangeEnd, early, late);
    } else {
      assert due == late;
      MonthlyKeepSecond(first, second, third, dom, rangeStart, rangeEnd, early, late);
    }
  }

  /** A cycle starting on the 15th lies in the month whose first is FirstOfMonthIndex(i). */
  lemma CycleMonthStart(i: int, rangeStart: Day)
    requires rangeStart == FirstOfMonthIndex(i) + 14
    ensures StartOfMonth(rangeStart) == FirstOfMonthIndex(i)
  {
    DayInMonth(i, 15, rangeStart);
  }

  /** The corrected occurrences of a monthly template are its monthly loop from the first of rangeStart's month. */
  lemma CorrectedMonthlyIs(t: RecurringTemplate, rangeStart: Day, rangeEnd: Day)
    requires t.frequency == Monthly && t.dayOfMonth.Some?
    ensures CorrectedOccurrences(t, rangeStart, rangeEnd) == MonthlyLoop(StartOfMonth(rangeStart), t.dayOfMonth.value, rangeStart, rangeEnd, [])
  {
  }

  /**
   * With the cursor started on the first of the month, a monthly template
   * whose day every month has occurs exactly once per cycle, on that day of
   * the month: this month from the 15th on, next month before the 15th.
   */
  lemma CorrectedOncePerCycle(i: int, dom: int, rangeStart: Day, rangeEnd: Day)
    requires IsCycleRange(i, rangeStart, rangeEnd) && 1 <= dom <= 28
    ensures MonthlyLoop(StartOfMonth(rangeStart), dom, rangeStart, rangeEnd, []) == [CycleDueDay(i, dom)]
    ensures rangeStart <= CycleDueDay(i, dom) <= rangeEnd && Date(CycleDueDay(i, dom)) == dom
  {
    CycleMonthStart(i, rangeStart);
    MonthlyFromFirst(i, dom, rangeStart, rangeEnd, CycleDueDay(i, dom));
    CycleDueDayInCycle(i, dom, rangeStart, rangeEnd);
  }

  // ---------------------------------------------------------------------
  // generatePlannedTransactions

  /**
   * Where the monthly cursor starts: at rangeStart, as the code has it, or
   * on the 1st of rangeStart's month, which gives each monthly template its
   * one date per pay cycle. Generation and the per-cycle total are stated
   * for both; weekly and fortnightly templates are the same under either.
   */
  datatype MonthlyCursor = AsWritten | Corrected

  /** The occurrences under the chosen monthly cursor. */
  function OccurrencesFor(cursor: MonthlyCursor, t: RecurringTemplate, rangeStart: Day, rangeEnd: Day): seq<Day> {
    if cursor == AsWritten then Occurrences(t, rangeStart, rangeEnd) else CorrectedOccurrences(t, rangeStart, rangeEnd)
  }

  /** Under either cursor the occurrences lie in the range, strictly increase and number at most 11. */
  lemma OccurrencesForBounded(cursor: MonthlyCursor, t: RecurringTemplate, rangeStart: Day, rangeEnd: Day)
    ensures var d := OccurrencesFor(cursor, t, rangeStart, rangeEnd);
      WithinRange(d, rangeStart, rangeEnd) && StrictlyIncreasing(d) && |d| <= SafetyLimit + 1
  {
    if cursor == AsWritten {
      OccurrencesBounded(t, rangeStart, rangeEnd);
    } else {
      CorrectedOccurrencesBounded(t, rangeStart, rangeEnd);
    }
  }

  /** The planned transaction for one occurrence of a template. */
  function PlannedPayload(cycle: Cycle, t: RecurringTemplate, date: Day): NewTransaction {
    NewTransaction(
      cycleId := cycle.id,
      date := date,
      description := t.name,
      merchant := Some(t.name),
      amount := -Abs(t.amount),
      categoryId := t.categoryId,
      via := Manual,
      notes := t.notes,
      splitGroupId := None,
      importHash := None,
      isPlanned := true,
      recurringId := Some(t.id))
  }

  function ActiveTemplates(ts: seq<RecurringTemplate>): (r: seq<RecurringTemplate>)
    ensures forall t :: t in r <==> t in ts && t.isActive
  {
    if ts == [] then [] else (if ts[0].isActive then [ts[0]] else []) + ActiveTemplates(ts[1..])
  }

  /** The payloads for the given occurrence dates of one template, in date order. */
  function DatePayloads(cycle: Cycle, t: RecurringTemplate, dates: seq<Day>): seq<NewTransaction> {
    if dates == [] then []
    else DatePayloads(cycle, t, dates[..|dates| - 1]) + [PlannedPayload(cycle, t, dates[|dates| - 1])]
  }

  /** The payloads of each template in turn. */
  function TemplatePayloads(cursor: MonthlyCursor, cycle: Cycle, ts: seq<RecurringTemplate>): seq<NewTransaction> {
    if ts == [] then []
    else
      var t := ts[|ts| - 1];
      TemplatePayloads(cursor, cycle, ts[..|ts| - 1])
        + DatePayloads(cycle, t, OccurrencesFor(cursor, t, cycle.startDate, cycle.endDate))
  }

  /**
   * What `generatePlannedTransactions` returns (the code itself with
   * `AsWritten`): nothing without a cycle or templates, else a payload per
   * occurrence of each active template.
   */
  function PlannedTransactions(cursor: MonthlyCursor, cycle: Option<Cycle>, templates: Option<seq<RecurringTemplate>>): seq<NewTransaction> {
    if cycle.None? || templates.None? then []
    else TemplatePayloads(cursor, cycle.value, ActiveTemplates(templates.value))
  }

  /** Appends one payload per date, in order (the inner loop of `generatePlannedTransactions`). */
  method AppendPayloads(planned: seq<NewTransaction>, cycle: Cycle, t: RecurringTemplate, dates: seq<Day>)
    returns (r: seq<NewTransaction>)
    ensures r == planned + DatePayloads(cycle, t, dates)
  {
    r := planned;
    var j := 0;
    while j < |dates|
      invariant 0 <= j <= |dates|
      invariant r == planned + DatePayloads(cycle, t, dates[..j])
    {
      r := r + [PlannedPayload(cycle, t, dates[j])];
      assert dates[..j + 1][..j] == dates[..j];
      j := j + 1;
    }
    assert dates[..|dates|] == dates;
  }

  /** Taking one more template appends the payloads of its occurrences. */
  lemma TemplatePayloadsNext(cursor: MonthlyCursor, cycle: Cycle, ts: seq<RecurringTemplate>, i: int, dates: seq<Day>)
    requires 0 <= i < |ts| && dates == OccurrencesFor(cursor, ts[i], cycle.startDate, cycle.endDate)
    ensures TemplatePayloads(cursor, cycle, ts[..i + 1]) == TemplatePayloads(cursor, cycle, ts[..i]) + DatePayloads(cycle, ts[i], dates)
  {
    assert ts[..i + 1][..i] == ts[..i];
  }

  /** `generatePlannedTransactions`; with `AsWritten` each template's dates come from `getOccurrencesInRange` as the code calls it. */
  method GeneratePlannedTransactions(cursor: MonthlyCursor, cycle: Option<Cycle>, templates: Option<seq<RecurringTemplate>>)
    returns (planned: seq<NewTransaction>)
    ensures planned == PlannedTransactions(cursor, cycle, templates)
  {
    if cycle.None? || templates.None? {
      return [];
    }
    var c := cycle.value;
    var active := ActiveTemplates(templates.value);
    planned := [];
    var i := 0;
    while i < |active|
      invariant 0 <= i <= |active|
      invariant planned == TemplatePayloads(cursor, c, active[..i])
    {
      var dates;
      if cursor == AsWritten {
        dates := OccurrencesInRange(active[i], c.startDate, c.endDate);
      } else {
        dates := CorrectedOccurrencesInRange(active[i], c.startDate, c.endDate);
      }
      TemplatePayloadsNext(cursor, c, active, i, dates);
      planned := AppendPayloads(planned, c, active[i], dates);
      i := i + 1;
    }
    assert active[..|active|] == active;
  }

  /** Each payload of a list of dates carries its template's fields and one of the dates. */
  lemma {:induction false} DatePayloadsFacts(cycle: Cycle, t: RecurringTemplate, dates: seq<Day>)
    ensures |DatePayloads(cycle, t, dates)| == |dates|
    ensures forall k :: 0 <= k < |dates| ==> DatePayloads(cycle, t, dates)[k] == PlannedPayload(cycle, t, dates[k])
    decreases |dates|
  {
    if dates != [] {
      DatePayloadsFacts(cycle, t, dates[..|dates| - 1]);
    }
  }

  /** A payload is planned, a negated amount, for the cycle, and comes from an active template and one of its occurrences. */
  predicate FromActiveTemplate(cursor: MonthlyCursor, cycle: Cycle, ts: seq<RecurringTemplate>, p: NewTransaction) {
    exists t :: t in ts && t.isActive
      && p == PlannedPayload(cycle, t, p.date)
      && p.date in OccurrencesFor(cursor, t, cycle.startDate, cycle.endDate)
  }

  /** Every payload of a list of active templates comes from one of them and one of its occurrences. */
  lemma {:induction false} TemplatePayloadsFrom(cursor: MonthlyCursor, cycle: Cycle, ts: seq<RecurringTemplate>)
    requires forall t :: t in ts ==> t.isActive
    ensures forall p :: p in TemplatePayloads(cursor, cycle, ts) ==> FromActiveTemplate(cursor, cycle, ts, p)
    decreases |ts|
  {
    if ts != [] {
      var t := ts[|ts| - 1];
      var init := ts[..|ts| - 1];
      TemplatePayloadsFrom(cursor, cycle, init);
      var dates := OccurrencesFor(cursor, t, cycle.startDate, cycle.endDate);
      DatePayloadsFacts(cycle, t, dates);
      forall p | p in TemplatePayloads(cursor, cycle, ts) ensures FromActiveTemplate(cursor, cycle, ts, p) {
        if p in TemplatePayloads(cursor, cycle, init) {
          var u :| u in init && u.isActive && p == PlannedPayload(cycle, u, p.date)
            && p.date in OccurrencesFor(cursor, u, cycle.startDate, cycle.endDate);
          assert u in ts;
        } else {
          var k :| 0 <= k < |dates| && DatePayloads(cycle, t, dates)[k] == p;
          assert t in ts;
        }
      }
    }
  }

  /**
   * Every generated payload is planned, negates its template's amount,
   * belongs to the cycle, names and links its template, and falls on one
   * of that active template's occurrences in the cycle.
   */
  lemma PlannedTransactionsShape(cursor: MonthlyCursor, cycle: Option<Cycle>, templates: Option<seq<RecurringTemplate>>)
    ensures cycle.None? || templates.None? ==> PlannedTransactions(cursor, cycle, templates) == []
    ensures cycle.Some? && templates.Some? ==>
      forall p :: p in PlannedTransactions(cursor, cycle, templates) ==>
        p.isPlanned && p.amount <= 0 && p.cycleId == cycle.value.id && p.importHash.None?
        && cycle.value.startDate <= p.date <= cycle.value.endDate
        && FromActiveTemplate(cursor, cycle.value, templates.value, p)
  {
    if cycle.Some? && templates.Some? {
      var active := ActiveTemplates(templates.value);
      TemplatePayloadsFrom(cursor, cycle.value, active);
      forall p | p in PlannedTransactions(cursor, cycle, templates)
        ensures FromActiveTemplate(cursor, cycle.value, templates.value, p)
      {
        var t :| t in active && t.isActive && p == PlannedPayload(cycle.value, t, p.date)
          && p.date in OccurrencesFor(cursor, t, cycle.value.startDate, cycle.value.endDate);
        assert t in templates.value;
      }
      forall p | p in PlannedTransactions(cursor, cycle, templates)
        ensures cycle.value.startDate <= p.date <= cycle.value.endDate
      {
        var t :| t in templates.value && t.isActive && p == PlannedPayload(cycle.value, t, p.date)
          && p.date in OccurrencesFor(cursor, t, cycle.value.startDate, cycle.value.endDate);
        var d := OccurrencesFor(cursor, t, cycle.value.startDate, cycle.value.endDate);
        OccurrencesForBounded(cursor, t, cycle.value.startDate, cycle.value.endDate);
        var k :| 0 <= k < |d| && d[k] == p.date;
      }
    }
  }

  /** The number of payloads is the sum of the active templates' occurrence counts. */
  function OccurrenceTotal(cursor: MonthlyCursor, cycle: Cycle, ts: seq<RecurringTemplate>): nat {
    if ts == [] then 0
    else
      var t := ts[|ts| - 1];
      OccurrenceTotal(cursor, cycle, ts[..|ts| - 1]) + |OccurrencesFor(cursor, t, cycle.startDate, cycle.endDate)|
  }

  lemma {:induction false} TemplatePayloadsCount(cursor: MonthlyCursor, cycle: Cycle, ts: seq<RecurringTemplate>)
    ensures |TemplatePayloads(cursor, cycle, ts)| == OccurrenceTotal(cursor, cycle, ts)
    decreases |ts|
  {
    if ts != [] {
      var t := ts[|ts| - 1];
      TemplatePayloadsCount(cursor, cycle, ts[..|ts| - 1]);
      DatePayloadsFacts(cycle, t, OccurrencesFor(cursor, t, cycle.startDate, cycle.endDate));
    }
  }

  /**
   * The finding at the level of generation: for an active monthly template
   * due on a day from 1 to 14, the code as written creates nothing in a
   * pay cycle that holds that day, while the corrected cursor creates the
   * one payload, on the due day.
   */
  lemma GenerationMissesEarlyDays(i: int, cycle: Cycle, t: RecurringTemplate)
    requires IsCycleRange(i, cycle.startDate, cycle.endDate)
    requires t.isActive && t.frequency == Monthly && t.dayOfMonth.Some? && 1 <= t.dayOfMonth.value <= 14
    ensures PlannedTransactions(AsWritten, Some(cycle), Some([t])) == []
    ensures PlannedTransactions(Corrected, Some(cycle), Some([t])) == [PlannedPayload(cycle, t, CycleDueDay(i, t.dayOfMonth.value))]
  {
    var dom := t.dayOfMonth.value;
    var due := CycleDueDay(i, dom);
    assert ActiveTemplates([t]) == [t];
    assert TemplatePayloads(AsWritten, cycle, [t]) == [] by {
      AsWrittenMissesEarlyDays(i, t, cycle.startDate, cycle.endDate);
      assert OccurrencesFor(AsWritten, t, cycle.startDate, cycle.endDate) == [];
      SingleTemplatePayloads(AsWritten, cycle, t);
    }
    assert TemplatePayloads(Corrected, cycle, [t]) == [PlannedPayload(cycle, t, due)] by {
      CorrectedOncePerCycle(i, dom, cycle.startDate, cycle.endDate);
      CorrectedMonthlyIs(t, cycle.startDate, cycle.endDate);
      assert OccurrencesFor(Corrected, t, cycle.startDate, cycle.endDate) == [due];
      SingleTemplatePayloads(Corrected, cycle, t);
      assert [due][..0] == [];
    }
  }

  /** The payloads of a single template are those of its occurrences. */
  lemma SingleTemplatePayloads(cursor: MonthlyCursor, cycle: Cycle, t: RecurringTemplate)
    ensures TemplatePayloads(cursor, cycle, [t]) == DatePayloads(cycle, t, OccurrencesFor(cursor, t, cycle.startDate, cycle.endDate))
  {
    assert [t][..0] == [];
  }
}
