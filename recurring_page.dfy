/**
 * The logic of the recurring-transactions page: the duplicate filter that
 * makes "generate planned transactions" safe to repeat, the per-cycle total
 * of the recurring expenses, the validation and shaping of a saved
 * template, and the frequency labels with their ordinal suffixes.
 *
 * The page's `getOccurrencesInCycleRange` is not part of this model; the
 * per-cycle total counts the occurrences that generation produces. Both
 * take the monthly cursor as a parameter: `AsWritten` is the code as it
 * stands, `Corrected` starts monthly templates on the 1st of the month.
 */
module RecurringPage {
  import opened Wrappers
  import opened Dates
  import opened Text
  import opened Lists
  import opened FinanceTypes
  import opened Recurrence

  // ---------------------------------------------------------------------
  // handleGeneratePlanned: the duplicate filter

  /** An existing planned, template-linked row that carries the payload's date and template. */
  predicate Blocks(e: Transaction, p: NewTransaction) {
    e.isPlanned && Truthy(e.recurringId) && e.date == p.date && e.recurringId == p.recurringId
  }

  predicate Blocked(existing: seq<Transaction>, p: NewTransaction) {
    exists e :: e in existing && Blocks(e, p)
  }

  function NotBlockedFn(existing: seq<Transaction>): NewTransaction -> bool {
    (p: NewTransaction) => !Blocked(existing, p)
  }

  /** The payloads not already present, in their order. */
  function NewPlanned(planned: seq<NewTransaction>, existing: seq<Transaction>): (r: seq<NewTransaction>)
    ensures |r| <= |planned|
    ensures forall p :: p in r <==> p in planned && !Blocked(existing, p)
  {
    Filter(planned, NotBlockedFn(existing))
  }

  /** The filter keeps order: filtering a concatenation concatenates the filtered parts. */
  lemma NewPlannedAppend(a: seq<NewTransaction>, b: seq<NewTransaction>, existing: seq<Transaction>)
    ensures NewPlanned(a + b, existing) == NewPlanned(a, existing) + NewPlanned(b, existing)
  {
    FilterAppend(a, b, NotBlockedFn(existing));
  }

  /** A row as the database stores a payload: planned-ness, date and template carried over. */
  predicate StoredAs(e: Transaction, p: NewTransaction) {
    e.isPlanned == p.isPlanned && e.date == p.date && e.recurringId == p.recurringId
  }

  /** Once the kept payloads are stored, filtering the same payloads again keeps none. */
  lemma RegenerationKeepsNothing(planned: seq<NewTransaction>, existing: seq<Transaction>, inserted: seq<Transaction>)
    requires forall p :: p in planned ==> p.isPlanned && Truthy(p.recurringId)
    requires |inserted| == |NewPlanned(planned, existing)|
    requires forall k :: 0 <= k < |inserted| ==> StoredAs(inserted[k], NewPlanned(planned, existing)[k])
    ensures NewPlanned(planned, existing + inserted) == []
  {
    var kept := NewPlanned(planned, existing);
    forall p | p in planned ensures Blocked(existing + inserted, p) {
      if !Blocked(existing, p) {
        var k :| 0 <= k < |kept| && kept[k] == p;
        assert inserted[k] in existing + inserted && Blocks(inserted[k], p);
      } else {
        var e :| e in existing && Blocks(e, p);
        assert e in existing + inserted;
      }
    }
    AllBlockedKeepsNothing(planned, existing + inserted);
  }

  /** Payloads that are all blocked leave nothing to create. */
  lemma {:induction false} AllBlockedKeepsNothing(planned: seq<NewTransaction>, existing: seq<Transaction>)
    requires forall p :: p in planned ==> Blocked(existing, p)
    ensures NewPlanned(planned, existing) == []
    decreases |planned|
  {
    if planned != [] {
      assert planned[0] in planned;
      AllBlockedKeepsNothing(planned[1..], existing);
    }
  }

  /** A row already marked paid never blocks a payload. */
  lemma PaidRowDoesNotBlock(planned: seq<NewTransaction>, existing: seq<Transaction>, paid: Transaction)
    requires !paid.isPlanned
    ensures forall p :: Blocked(existing + [paid], p) <==> Blocked(existing, p)
    ensures forall p :: p in NewPlanned(planned, existing + [paid]) <==> p in NewPlanned(planned, existing)
  {
    forall p ensures Blocked(existing + [paid], p) <==> Blocked(existing, p) {
      if Blocked(existing + [paid], p) {
        var e :| e in existing + [paid] && Blocks(e, p);
        assert e in existing;
      }
      if Blocked(existing, p) {
        var e :| e in existing && Blocks(e, p);
        assert e in existing + [paid];
      }
    }
  }

  datatype GenerateOutcome = NoActiveCycle | AllExist | Create(rows: seq<NewTransaction>)

  /** `handleGeneratePlanned`: refused without a cycle, nothing to do when every payload exists, else create the new ones. */
  function HandleGeneratePlanned(cursor: MonthlyCursor, cycle: Option<Cycle>, templates: Option<seq<RecurringTemplate>>, existing: seq<Transaction>): (r: GenerateOutcome)
    ensures cycle.None? ==> r == NoActiveCycle
    ensures r.Create? ==> r.rows != [] && forall p :: p in r.rows <==> p in PlannedTransactions(cursor, cycle, templates) && !Blocked(existing, p)
    ensures r == AllExist <==> cycle.Some? && forall p :: p in PlannedTransactions(cursor, cycle, templates) ==> Blocked(existing, p)
  {
    if cycle.None? then NoActiveCycle
    else
      var rows := NewPlanned(PlannedTransactions(cursor, cycle, templates), existing);
      if rows == [] then AllExist
      else assert rows[0] in rows; Create(rows)
  }

  /** The generated payloads are planned and carry their template's id. */
  lemma PlannedPayloadsLinked(cursor: MonthlyCursor, cycle: Option<Cycle>, templates: Option<seq<RecurringTemplate>>)
    requires templates.Some? ==> forall t :: t in templates.value ==> t.id != ""
    ensures forall p :: p in PlannedTransactions(cursor, cycle, templates) ==> p.isPlanned && Truthy(p.recurringId)
  {
    PlannedTransactionsShape(cursor, cycle, templates);
    if cycle.Some? && templates.Some? {
      forall p | p in PlannedTransactions(cursor, cycle, templates) ensures Truthy(p.recurringId) {
        var t :| t in templates.value && t.isActive && p == PlannedPayload(cycle.value, t, p.date)
          && p.date in OccurrencesFor(cursor, t, cycle.value.startDate, cycle.value.endDate);
      }
    }
  }

  /** Generating again after the created rows are stored finds that every payload already exists. */
  lemma GenerateTwice(cursor: MonthlyCursor, cycle: Cycle, templates: Option<seq<RecurringTemplate>>, existing: seq<Transaction>, inserted: seq<Transaction>)
    requires templates.Some? ==> forall t :: t in templates.value ==> t.id != ""
    requires HandleGeneratePlanned(cursor, Some(cycle), templates, existing).Create?
    requires var rows := HandleGeneratePlanned(cursor, Some(cycle), templates, existing).rows;
      |inserted| == |rows| && forall k :: 0 <= k < |inserted| ==> StoredAs(inserted[k], rows[k])
    ensures HandleGeneratePlanned(cursor, Some(cycle), templates, existing + inserted) == AllExist
  {
    var planned := PlannedTransactions(cursor, Some(cycle), templates);
    PlannedPayloadsLinked(cursor, Some(cycle), templates);
    RegenerationKeepsNothing(planned, existing, inserted);
  }

  // ---------------------------------------------------------------------
  // totalRecurringPerCycle

  /** What the templates cost over the cycle: occurrences times |amount|, template by template. */
  function CycleTotal(cursor: MonthlyCursor, cycle: Cycle, ts: seq<RecurringTemplate>): int {
    if ts == [] then 0
    else
      var t := ts[|ts| - 1];
      CycleTotal(cursor, cycle, ts[..|ts| - 1]) + |OccurrencesFor(cursor, t, cycle.startDate, cycle.endDate)| * Abs(t.amount)
  }

  /** `totalRecurringPerCycle`: 0 without a current cycle, else the cost of the active templates. */
  function TotalRecurringPerCycle(cursor: MonthlyCursor, cycle: Option<Cycle>, templates: seq<RecurringTemplate>): int {
    if cycle.None? then 0 else CycleTotal(cursor, cycle.value, ActiveTemplates(templates))
  }

  function PayloadSum(ps: seq<NewTransaction>): int {
    if ps == [] then 0 else PayloadSum(ps[..|ps| - 1]) + ps[|ps| - 1].amount
  }

  lemma {:induction false} PayloadSumAppend(a: seq<NewTransaction>, b: seq<NewTransaction>)
    ensures PayloadSum(a + b) == PayloadSum(a) + PayloadSum(b)
    decreases |b|
  {
    if b == [] {
      assert a + b == a;
    } else {
      assert (a + b)[..|a + b| - 1] == a + b[..|b| - 1];
      PayloadSumAppend(a, b[..|b| - 1]);
    }
  }

  /** All payloads of one template's dates together spend |amount| per date. */
  lemma {:induction false} DatePayloadsSum(cycle: Cycle, t: RecurringTemplate, dates: seq<Day>)
    ensures PayloadSum(DatePayloads(cycle, t, dates)) == -(|dates| * Abs(t.amount))
    decreases |dates|
  {
    if dates != [] {
      var init := dates[..|dates| - 1];
      DatePayloadsSum(cycle, t, init);
      PayloadSumAppend(DatePayloads(cycle, t, init), [PlannedPayload(cycle, t, dates[|dates| - 1])]);
    }
  }

  /** The cycle total is exactly what the generated planned transactions would spend. */
  lemma {:induction false} CycleTotalIsPayloadSpend(cursor: MonthlyCursor, cycle: Cycle, ts: seq<RecurringTemplate>)
    ensures CycleTotal(cursor, cycle, ts) == -PayloadSum(TemplatePayloads(cursor, cycle, ts))
    decreases |ts|
  {
    if ts != [] {
      var t := ts[|ts| - 1];
      var init := ts[..|ts| - 1];
      var dates := OccurrencesFor(cursor, t, cycle.startDate, cycle.endDate);
      CycleTotalIsPayloadSpend(cursor, cycle, init);
      DatePayloadsSum(cycle, t, dates);
      PayloadSumAppend(TemplatePayloads(cursor, cycle, init), DatePayloads(cycle, t, dates));
    }
  }

  /** `totalRecurringPerCycle` is 0 without a cycle, and otherwise the spend of the payloads generation builds. */
  lemma TotalRecurringMatchesGeneration(cursor: MonthlyCursor, cycle: Option<Cycle>, templates: seq<RecurringTemplate>)
    ensures cycle.None? ==> TotalRecurringPerCycle(cursor, cycle, templates) == 0
    ensures TotalRecurringPerCycle(cursor, cycle, templates) == -PayloadSum(PlannedTransactions(cursor, cycle, Some(templates)))
  {
    if cycle.Some? {
      CycleTotalIsPayloadSpend(cursor, cycle.value, ActiveTemplates(templates));
    }
  }

  // ---------------------------------------------------------------------
  // handleSave

  /** The dialog's fields as typed. */
  datatype RecurringForm = RecurringForm(
    name: string,
    amount: string,
    categoryId: string,
    frequency: Frequency,
    dayOfWeek: int,
    dayOfMonth: int,
    isActive: bool,
    notes: string)

  /** The record sent to the database; an amount of `None` is JavaScript's NaN. */
  datatype RecurringData = RecurringData(
    name: string,
    amount: Option<int>,
    categoryId: Option<string>,
    frequency: Frequency,
    dayOfWeek: Option<int>,
    dayOfMonth: Option<int>,
    isActive: bool,
    notes: Option<string>)

  datatype SaveError = MissingName | InvalidAmount

  /** A non-empty string, or `null` (JavaScript's `s || null`). */
  function NonEmptyOrNull(s: string): (r: Option<string>)
    ensures r.None? <==> s == ""
    ensures r.Some? ==> r.value == s
  {
    if s == "" then None else Some(s)
  }

  /**
   * `handleSave`: refused without a name or with an empty or non-positive
   * amount; otherwise the record with the trimmed name, the day field of
   * its frequency only, and blank notes and category as null. `parseFloat`
   * gives `None` for NaN.
   */
  function ValidateRecurringSave(form: RecurringForm, parseFloat: string -> Option<int>): (r: Result<RecurringData, SaveError>)
    ensures Trim(form.name) == "" ==> r == Failure(MissingName)
    ensures Trim(form.name) != "" && (form.amount == "" || (parseFloat(form.amount).Some? && parseFloat(form.amount).value <= 0))
      ==> r == Failure(InvalidAmount)
    ensures r.Success? ==> Trim(form.name) != "" && form.amount != ""
    ensures r.Success? ==> var d := r.value;
      d.name == Trim(form.name) && d.name != "" && !IsSpace(d.name[0]) && !IsSpace(d.name[|d.name| - 1])
      && d.amount == parseFloat(form.amount) && (d.amount.Some? ==> d.amount.value > 0)
      && (d.dayOfWeek.Some? <==> form.frequency != Monthly) && (d.dayOfWeek.Some? ==> d.dayOfWeek.value == form.dayOfWeek)
      && (d.dayOfMonth.Some? <==> form.frequency == Monthly) && (d.dayOfMonth.Some? ==> d.dayOfMonth.value == form.dayOfMonth)
      && (d.categoryId.None? <==> form.categoryId == "") && (d.categoryId.Some? ==> d.categoryId.value == form.categoryId)
      && (d.notes.None? <==> AllSpace(form.notes)) && (d.notes.Some? ==> d.notes.value == Trim(form.notes))
      && d.frequency == form.frequency && d.isActive == form.isActive
  {
    if Trim(form.name) == "" then Failure(MissingName)
    else if form.amount == "" || (parseFloat(form.amount).Some? && parseFloat(form.amount).value <= 0) then Failure(InvalidAmount)
    else
      Success(RecurringData(
        name := Trim(form.name),
        amount := parseFloat(form.amount),
        categoryId := NonEmptyOrNull(form.categoryId),
        frequency := form.frequency,
        dayOfWeek := if form.frequency != Monthly then Some(form.dayOfWeek) else None,
        dayOfMonth := if form.frequency == Monthly then Some(form.dayOfMonth) else None,
        isActive := form.isActive,
        notes := NonEmptyOrNull(Trim(form.notes))))
  }

  // ---------------------------------------------------------------------
  // getOrdinalSuffix and getFrequencyLabel

  const Suffixes: seq<string> := ["th", "st", "nd", "rd"]

  /**
   * `getOrdinalSuffix`: index the suffixes by `(v - 20) % 10`, then by `v`,
   * then take "th", where `v = n % 100` and `%` truncates as in JavaScript.
   * An index outside the table gives `undefined`, which is skipped.
   */
  function OrdinalSuffix(n: int): string {
    SuffixByRem(JsRem(n, 100))
  }

  /** The two table lookups on `v = n % 100`. */
  function SuffixByRem(v: int): string {
    var i := JsRem(v - 20, 10);
    if 0 <= i < |Suffixes| then Suffixes[i]
    else if 0 <= v < |Suffixes| then Suffixes[v]
    else Suffixes[0]
  }

  /** The English rule: "th" for 11 to 13 of each hundred, otherwise by the last digit. */
  function EnglishOrdinalSuffix(n: nat): string {
    if 11 <= n % 100 <= 13 then "th"
    else if n % 10 == 1 then "st"
    else if n % 10 == 2 then "nd"
    else if n % 10 == 3 then "rd"
    else "th"
  }

  /** The table lookup agrees with the English rule on every day number and beyond. */
  lemma OrdinalSuffixIsEnglish(n: int)
    requires n >= 0
    ensures OrdinalSuffix(n) == EnglishOrdinalSuffix(n)
  {
    var v := n % 100;
    assert JsRem(n, 100) == v;
    LastDigitOfRem(n, v);
    SuffixByRemIsEnglish(v);
  }

  /** The last digit of a number is that of its remainder by 100. */
  lemma LastDigitOfRem(n: int, v: int)
    requires n >= 0 && v == n % 100
    ensures n % 10 == v % 10
  {
    var q := n / 100;
    var t, d := v / 10, v % 10;
    assert n == 100 * q + v;
    assert v == 10 * t + d && 0 <= d < 10;
    ModTen(n, 10 * q + t, d);
  }

  /** Below 100 the table lookup is the English rule. */
  lemma SuffixByRemIsEnglish(v: int)
    requires 0 <= v < 100
    ensures SuffixByRem(v) == EnglishOrdinalSuffix(v)
  {
    ModHundred(v, 0, v);
    if v >= 20 {
      var t, d := v / 10, v % 10;
      assert v == 10 * t + d && 0 <= d < 10;
      ModTen(v - 20, t - 2, d);
    } else if v < 10 {
      ModTen(v, 0, v);
      if v == 0 {
        ModTen(20, 2, 0);
      } else {
        ModTen(20 - v, 1, 10 - v);
      }
    } else {
      ModTen(v, 1, v - 10);
      if v == 10 {
        ModTen(10, 1, 0);
      } else {
        ModTen(20 - v, 0, 20 - v);
      }
    }
  }

  /** The remainder by 10 of `10 * q + r`, for a digit `r`. */
  lemma ModTen(a: int, q: int, r: int)
    requires a == 10 * q + r && 0 <= r < 10
    ensures a % 10 == r
  {
  }

  /** The remainder by 100 of `100 * q + r`, for `r` below 100. */
  lemma ModHundred(a: int, q: int, r: int)
    requires a == 100 * q + r && 0 <= r < 100
    ensures a % 100 == r
  {
  }

  /** For the days of a month: "st" for 1, 21, 31, "nd" for 2, 22, "rd" for 3, 23, and "th" for the rest. */
  lemma OrdinalSuffixOfDays(n: int)
    requires 0 <= n <= 31
    ensures OrdinalSuffix(n) == (if n == 1 || n == 21 || n == 31 then "st"
      else if n == 2 || n == 22 then "nd"
      else if n == 3 || n == 23 then "rd"
      else "th")
  {
    OrdinalSuffixIsEnglish(n);
  }

  const DayNames: seq<string> := ["Sunday", "Monday", "Tuesday", "Wednesday", "Thursday", "Friday", "Saturday"]

  /** The label of `DAYS_OF_WEEK` for a weekday, or "" when there is none. */
  function DayName(dow: Option<int>): string {
    if dow.Some? && 0 <= dow.value < |DayNames| then DayNames[dow.value] else ""
  }

  /** How a template prints in a template string: the number, or "null". */
  function DayOfMonthText(d: Option<int>): string {
    if d.Some? then IntToString(d.value) else "null"
  }

  /** `getFrequencyLabel`. */
  function FrequencyLabel(t: RecurringTemplate): string {
    if t.frequency == Monthly then "Monthly on the " + DayOfMonthText(t.dayOfMonth) + OrdinalSuffix(t.dayOfMonth.GetOr(1))
    else if t.frequency == Fortnightly then "Every 2 weeks on " + DayName(t.dayOfWeek)
    else "Every " + DayName(t.dayOfWeek)
  }

  /** The label tells the frequency: templates with the same label have the same frequency. */
  lemma FrequencyLabelShowsFrequency(t: RecurringTemplate, u: RecurringTemplate)
    requires FrequencyLabel(t) == FrequencyLabel(u)
    ensures t.frequency == u.frequency
  {
    var a := FrequencyLabel(t);
    var b := FrequencyLabel(u);
    assert a[0] == (if t.frequency == Monthly then 'M' else 'E');
    assert b[0] == (if u.frequency == Monthly then 'M' else 'E');
  }

  /** A weekly label names the weekday, a fortnightly one says every 2 weeks on it, and a monthly one the day with its suffix. */
  lemma FrequencyLabelNames(t: RecurringTemplate)
    ensures t.frequency == Weekly && t.dayOfWeek.Some? && 0 <= t.dayOfWeek.value < 7 ==>
      FrequencyLabel(t) == "Every " + DayNames[t.dayOfWeek.value]
    ensures t.frequency == Fortnightly && t.dayOfWeek.Some? && 0 <= t.dayOfWeek.value < 7 ==>
      FrequencyLabel(t) == "Every 2 weeks on " + DayNames[t.dayOfWeek.value]
    ensures t.frequency == Monthly && t.dayOfMonth.Some? && 1 <= t.dayOfMonth.value <= 31 ==>
      FrequencyLabel(t) == "Monthly on the " + IntToString(t.dayOfMonth.value) + EnglishOrdinalSuffix(t.dayOfMonth.value)
  {
    if t.frequency == Monthly && t.dayOfMonth.Some? && 1 <= t.dayOfMonth.value <= 31 {
      OrdinalSuffixIsEnglish(t.dayOfMonth.value);
    }
  }
}
