/**
 * The CSV import page: the column mapping check, the normalisation of each
 * CSV row (amount from one column or from credit minus debit, the date
 * layout, the merchant, the duplicate flag from the import hash), and the
 * import loop that creates one manual record per new row.
 *
 * The JavaScript built-ins whose behaviour the page takes as given are
 * parameters bundled in `JsEnv`: `parseFloat` (in cents, `None` for NaN),
 * `parseInt`, `new Date(text)` (`None` for an invalid date), date-fns
 * `format(d, 'yyyy-MM-dd')`, and `String(number)` for amounts.
 */
module CsvImport {
  import opened Wrappers
  import opened Dates
  import opened FinanceTypes
  import opened Lists

  datatype JsEnv = JsEnv(
    parseFloat: string -> Option<int>,
    parseInt: string -> Option<int>,
    newDate: string -> Option<Day>,
    formatDay: Day -> string,
    numberText: int -> string)

  // ---------------------------------------------------------------------
  // Splitting

  /** `s.split(sep)` for a separator of single characters: the pieces between separators. */
  function Split(s: string, isSep: char -> bool): (r: seq<string>)
    ensures |r| >= 1
    ensures forall i, k :: 0 <= i < |r| && 0 <= k < |r[i]| ==> !isSep(r[i][k])
  {
    if s == [] then [""]
    else if isSep(s[0]) then [""] + Split(s[1..], isSep)
    else
      var rest := Split(s[1..], isSep);
      [[s[0]] + rest[0]] + rest[1..]
  }

  predicate NoSep(s: string, isSep: char -> bool) {
    forall k :: 0 <= k < |s| ==> !isSep(s[k])
  }

  /** Text without a separator is one piece. */
  lemma {:induction false} SplitNoSep(s: string, isSep: char -> bool)
    requires NoSep(s, isSep)
    ensures Split(s, isSep) == [s]
    decreases |s|
  {
    if s != [] {
      assert NoSep(s[1..], isSep) by {
        forall k | 0 <= k < |s[1..]| ensures !isSep(s[1..][k]) {
          assert s[1..][k] == s[k + 1];
        }
      }
      SplitNoSep(s[1..], isSep);
      assert s == [s[0]] + s[1..];
    }
  }

  /** The first piece runs up to the first separator; the rest is split on. */
  lemma {:induction false} SplitAtFirst(a: string, c: char, b: string, isSep: char -> bool)
    requires NoSep(a, isSep) && isSep(c)
    ensures Split(a + [c] + b, isSep) == [a] + Split(b, isSep)
    decreases |a|
  {
    var s := a + [c] + b;
    if a == [] {
      assert s[1..] == b;
    } else {
      assert s[1..] == a[1..] + [c] + b;
      SplitAtFirst(a[1..], c, b, isSep);
      assert a == [a[0]] + a[1..];
    }
  }

  // ---------------------------------------------------------------------
  // Columns

  /** The columns the user picked; an empty string is an unpicked column. */
  datatype ColumnMapping = ColumnMapping(date: string, description: string, amount: string, debit: string, credit: string)

  /** `!mapping.date || !mapping.description || (!mapping.amount && !mapping.debit)` is refused. */
  predicate MappingComplete(m: ColumnMapping) {
    m.date != "" && m.description != "" && (m.amount != "" || m.debit != "")
  }

  /** `headers.indexOf(x)`. */
  function IndexOf(headers: seq<string>, x: string): (r: int)
    ensures -1 <= r < |headers|
    ensures r == -1 <==> x !in headers
    ensures r >= 0 ==> headers[r] == x && forall j :: 0 <= j < r ==> headers[j] != x
  {
    if headers == [] then -1
    else if headers[0] == x then 0
    else
      var i := IndexOf(headers[1..], x);
      if i == -1 then -1 else i + 1
  }

  datatype Columns = Columns(date: int, description: int, amount: int, debit: int, credit: int)

  /** The column positions; an unpicked optional column is -1. */
  function ColumnsOf(headers: seq<string>, m: ColumnMapping): (c: Columns)
    ensures c.date == IndexOf(headers, m.date) && c.description == IndexOf(headers, m.description)
    ensures c.amount == (if m.amount != "" then IndexOf(headers, m.amount) else -1)
    ensures c.debit == (if m.debit != "" then IndexOf(headers, m.debit) else -1)
    ensures c.credit == (if m.credit != "" then IndexOf(headers, m.credit) else -1)
  {
    Columns(
      IndexOf(headers, m.date), IndexOf(headers, m.description),
      if m.amount != "" then IndexOf(headers, m.amount) else -1,
      if m.debit != "" then IndexOf(headers, m.debit) else -1,
      if m.credit != "" then IndexOf(headers, m.credit) else -1)
  }

  /** `row[i]`, which is `undefined` outside the row. */
  function Cell(row: seq<string>, i: int): (r: Option<string>)
    ensures r.Some? <==> 0 <= i < |row|
    ensures r.Some? ==> r.value == row[i]
  {
    if 0 <= i < |row| then Some(row[i]) else None
  }

  // ---------------------------------------------------------------------
  // Amounts

  function NotMoneySymbolFn(): char -> bool {
    (c: char) => c != '$' && c != ','
  }

  /** `s.replace(/[$,]/g, '')`. */
  function StripMoney(s: string): (r: string)
    ensures forall c :: c in r <==> c in s && c != '$' && c != ','
  {
    Filter(s, NotMoneySymbolFn())
  }

  /** `parseFloat(cell.replace(/[$,]/g, '')) || 0`: NaN counts as 0. */
  function CellMoney(env: JsEnv, cell: string): (v: int)
    ensures env.parseFloat(StripMoney(cell)).None? ==> v == 0
    ensures env.parseFloat(StripMoney(cell)).Some? ==> v == env.parseFloat(StripMoney(cell)).value
  {
    match env.parseFloat(StripMoney(cell))
    case None => 0
    case Some(x) => x
  }

  /**
   * The row's amount: the amount column when it was found, otherwise
   * credit minus debit, each 0 when its column is not there. `None` when
   * a column that was found is missing from this row, where the page reads
   * `undefined.replace` and throws.
   */
  function RowAmount(env: JsEnv, row: seq<string>, c: Columns): (r: Option<int>)
    ensures c.amount >= 0 ==> (r.Some? <==> c.amount < |row|)
    ensures c.amount >= 0 && r.Some? ==> r.value == CellMoney(env, row[c.amount])
    ensures c.amount < 0 ==> (r.Some? <==> c.debit < |row| && c.credit < |row|)
    ensures c.amount < 0 && r.Some? ==>
      r.value == (if c.credit >= 0 then CellMoney(env, row[c.credit]) else 0)
               - (if c.debit >= 0 then CellMoney(env, row[c.debit]) else 0)
  {
    if c.amount >= 0 then
      if c.amount < |row| then Some(CellMoney(env, row[c.amount])) else None
    else if c.debit >= |row| || c.credit >= |row| then None
    else
      var debit := if c.debit >= 0 then CellMoney(env, row[c.debit]) else 0;
      var credit := if c.credit >= 0 then CellMoney(env, row[c.credit]) else 0;
      Some(credit - debit)
  }

  // ---------------------------------------------------------------------
  // Dates

  predicate IsDateSep(c: char) {
    c == '/' || c == '-'
  }

  datatype DateLayout = YearFirst | DayFirst | MonthFirst

  /** The layout guessed from the first piece: 4 characters, or a number above 12, or neither. */
  function LayoutOf(env: JsEnv, first: string): (l: DateLayout)
    ensures l == YearFirst <==> |first| == 4
    ensures l == DayFirst <==> |first| != 4 && env.parseInt(first).Some? && env.parseInt(first).value > 12
  {
    if |first| == 4 then YearFirst
    else if env.parseInt(first).Some? && env.parseInt(first).value > 12 then DayFirst
    else MonthFirst
  }

  /** `parts[i]` inside a template literal: the text "undefined" past the end. */
  function PartOr(parts: seq<string>, i: nat): string {
    if i < |parts| then parts[i] else "undefined"
  }

  /** The text handed to `new Date`: reordered to year-month-day for day-first dates, else unchanged. */
  function DateText(env: JsEnv, dateStr: string): string {
    var parts := Split(dateStr, IsDateSep);
    match LayoutOf(env, parts[0])
    case DayFirst => PartOr(parts, 2) + "-" + PartOr(parts, 1) + "-" + parts[0]
    case _ => dateStr
  }

  /** A day-first date `DD/MM/YYYY` is handed over as `YYYY-MM-DD`. */
  lemma DayFirstReordered(env: JsEnv, d: string, s1: char, m: string, s2: char, y: string)
    requires NoSep(d, IsDateSep) && NoSep(m, IsDateSep) && NoSep(y, IsDateSep)
    requires IsDateSep(s1) && IsDateSep(s2)
    requires |d| != 4 && env.parseInt(d).Some? && env.parseInt(d).value > 12
    ensures DateText(env, d + [s1] + m + [s2] + y) == y + "-" + m + "-" + d
  {
    var s := d + [s1] + m + [s2] + y;
    assert s == d + [s1] + (m + [s2] + y);
    SplitAtFirst(d, s1, m + [s2] + y, IsDateSep);
    SplitAtFirst(m, s2, y, IsDateSep);
    SplitNoSep(y, IsDateSep);
    assert Split(s, IsDateSep) == [d, m, y];
  }

  /** A date whose first piece has four characters is handed over unchanged. */
  lemma YearFirstKept(env: JsEnv, y: string, sep: char, rest: string)
    requires NoSep(y, IsDateSep) && IsDateSep(sep) && |y| == 4
    ensures DateText(env, y + [sep] + rest) == y + [sep] + rest
  {
    SplitAtFirst(y, sep, rest, IsDateSep);
  }

  /**
   * The parsed date. A missing cell makes `dateStr.split` throw inside the
   * `try`, whose `catch` takes `now`. `None` is an invalid date.
   */
  function CellDay(env: JsEnv, cell: Option<string>, now: Day): (r: Option<Day>)
    ensures cell.None? ==> r == Some(now)
    ensures cell.Some? ==> r == env.newDate(DateText(env, cell.value))
  {
    match cell
    case None => Some(now)
    case Some(s) => env.newDate(DateText(env, s))
  }

  // ---------------------------------------------------------------------
  // Rows

  predicate IsBlank(c: char) {
    c == ' '
  }

  /** `description.split(' ')[0]`. */
  function FirstWord(description: string): (w: string)
    ensures NoSep(w, IsBlank) && |w| <= |description| && w == description[..|w|]
  {
    var parts := Split(description, IsBlank);
    FirstWordPrefix(description);
    parts[0]
  }

  lemma {:induction false} FirstWordPrefix(s: string)
    ensures |Split(s, IsBlank)[0]| <= |s| && Split(s, IsBlank)[0] == s[..|Split(s, IsBlank)[0]|]
    decreases |s|
  {
    if s != [] && !IsBlank(s[0]) {
      FirstWordPrefix(s[1..]);
    }
  }

  /** The merchant is the description up to its first space. */
  lemma FirstWordOf(w: string, rest: string)
    requires NoSep(w, IsBlank)
    ensures FirstWord(w + " " + rest) == w
    ensures FirstWord(w) == w
  {
    SplitAtFirst(w, ' ', rest, IsBlank);
    assert w + " " + rest == w + [' '] + rest;
    SplitNoSep(w, IsBlank);
  }

  /** A normalised CSV row, with the day `format` turns into its `yyyy-MM-dd` text. */
  datatype ParsedRow = ParsedRow(day: Day, description: string, amount: int, merchant: string, isDuplicate: bool)

  /** `${format(date, 'yyyy-MM-dd')}-${description}-${amount}`. */
  function ImportHash(env: JsEnv, day: Day, description: string, amount: int): string {
    env.formatDay(day) + "-" + description + "-" + env.numberText(amount)
  }

  lemma ImportHashNotEmpty(env: JsEnv, day: Day, description: string, amount: int)
    ensures ImportHash(env, day, description, amount) != ""
  {
    assert |ImportHash(env, day, description, amount)| >= 2;
  }

  function RowOf(env: JsEnv, day: Day, description: string, amount: int, existing: set<string>): (p: ParsedRow)
    ensures p.day == day && p.description == description && p.amount == amount
    ensures p.merchant == FirstWord(description)
    ensures p.isDuplicate <==> ImportHash(env, day, description, amount) in existing
  {
    ParsedRow(day, description, amount, FirstWord(description), ImportHash(env, day, description, amount) in existing)
  }

  datatype MappingError = MissingColumns | Thrown

  /**
   * One row through `map` and then `filter`, as written: `Failure` where the
   * row throws (a missing amount or description cell, or `format` of an
   * invalid date), `None` where the filter drops it.
   */
  function MapRowAsWritten(env: JsEnv, row: seq<string>, c: Columns, now: Day, existing: set<string>): (r: Result<Option<ParsedRow>, MappingError>)
    ensures r.Failure? <==>
      RowAmount(env, row, c).None? || CellDay(env, Cell(row, c.date), now).None? || Cell(row, c.description).None?
    ensures r.Success? && r.value.Some? ==> r.value.value.description != ""
  {
    var amount := RowAmount(env, row, c);
    var day := CellDay(env, Cell(row, c.date), now);
    var description := Cell(row, c.description);
    if amount.None? || day.None? || description.None? then Failure(Thrown)
    else if description.value != "" && env.newDate(env.formatDay(day.value)).Some? then
      Success(Some(RowOf(env, day.value, description.value, amount.value, existing)))
    else Success(None)
  }

  /**
   * One row through `map` and then `filter`, with an invalid date dropped
   * by the filter as it is meant to be, instead of being formatted first.
   */
  function MapRow(env: JsEnv, row: seq<string>, c: Columns, now: Day, existing: set<string>): (r: Result<Option<ParsedRow>, MappingError>)
    ensures r.Failure? <==> RowAmount(env, row, c).None? || Cell(row, c.description).None?
    ensures r.Success? && r.value.None? <==>
      && RowAmount(env, row, c).Some? && Cell(row, c.description).Some?
      && (row[c.description] == "" || CellDay(env, Cell(row, c.date), now).None?)
    ensures r.Success? && r.value.Some? ==>
      && r.value.value.description == row[c.description] != ""
      && Some(r.value.value.day) == CellDay(env, Cell(row, c.date), now)
      && Some(r.value.value.amount) == RowAmount(env, row, c)
      && r.value.value == RowOf(env, r.value.value.day, r.value.value.description, r.value.value.amount, existing)
  {
    var amount := RowAmount(env, row, c);
    var day := CellDay(env, Cell(row, c.date), now);
    var description := Cell(row, c.description);
    if amount.None? || description.None? then Failure(Thrown)
    else if day.None? || description.value == "" then Success(None)
    else Success(Some(RowOf(env, day.value, description.value, amount.value, existing)))
  }

  /** Every row mapped: the first row that throws makes the whole mapping throw. */
  function CollectRows(rows: seq<seq<string>>, f: seq<string> -> Result<Option<ParsedRow>, MappingError>): (r: Result<seq<ParsedRow>, MappingError>)
    ensures r.Failure? <==> exists i :: 0 <= i < |rows| && f(rows[i]).Failure?
    ensures r.Failure? ==> r.error == Thrown
    ensures r.Success? ==> |r.value| <= |rows|
    ensures r.Success? ==> forall i :: 0 <= i < |rows| && f(rows[i]).Success? && f(rows[i]).value.Some? ==> f(rows[i]).value.value in r.value
  {
    if rows == [] then Success([])
    else
      var rest := CollectRows(rows[1..], f);
      match f(rows[0])
      case Failure(e) => Failure(Thrown)
      case Success(kept) =>
        if rest.Failure? then
          var i :| 0 <= i < |rows[1..]| && f(rows[1..][i]).Failure?;
          assert f(rows[i + 1]).Failure?;
          Failure(Thrown)
        else
          assert forall i :: 1 <= i < |rows| ==> rows[i] == rows[1..][i - 1];
          Success((if kept.Some? then [kept.value] else []) + rest.value)
  }

  /** Each mapped row comes from some CSV row, in CSV order. */
  lemma {:induction false} CollectRowsOrigin(rows: seq<seq<string>>, f: seq<string> -> Result<Option<ParsedRow>, MappingError>, k: int) returns (i: int)
    requires CollectRows(rows, f).Success? && 0 <= k < |CollectRows(rows, f).value|
    ensures 0 <= i < |rows| && f(rows[i]) == Success(Some(CollectRows(rows, f).value[k]))
    decreases |rows|
  {
    var kept := f(rows[0]).value;
    var rest := CollectRows(rows[1..], f);
    if kept.Some? && k == 0 {
      i := 0;
    } else {
      var j := CollectRowsOrigin(rows[1..], f, if kept.Some? then k - 1 else k);
      i := j + 1;
    }
  }

  /** `new Set(transactions.map(t => t.import_hash).filter(Boolean))`. */
  function ExistingHashes(transactions: seq<Transaction>): (h: set<string>)
    ensures forall x :: x in h <==> x != "" && exists t :: t in transactions && t.importHash == Some(x)
  {
    set t | t in transactions && t.importHash.Some? && t.importHash.value != "" :: t.importHash.value
  }

  /** `handleMapping` as written. */
  function HandleMappingAsWritten(env: JsEnv, headers: seq<string>, data: seq<seq<string>>, m: ColumnMapping,
                                  transactions: seq<Transaction>, now: Day): (r: Result<seq<ParsedRow>, MappingError>)
    ensures !MappingComplete(m) ==> r == Failure(MissingColumns)
  {
    if !MappingComplete(m) then Failure(MissingColumns)
    else
      var c := ColumnsOf(headers, m);
      var existing := ExistingHashes(transactions);
      CollectRows(data, (row: seq<string>) => MapRowAsWritten(env, row, c, now, existing))
  }

  /** `handleMapping`, with invalid dates dropped. */
  function HandleMapping(env: JsEnv, headers: seq<string>, data: seq<seq<string>>, m: ColumnMapping,
                         transactions: seq<Transaction>, now: Day): (r: Result<seq<ParsedRow>, MappingError>)
    ensures !MappingComplete(m) ==> r == Failure(MissingColumns)
    ensures MappingComplete(m) ==> r == CollectRows(data, MapRowFn(env, ColumnsOf(headers, m), now, ExistingHashes(transactions)))
  {
    if !MappingComplete(m) then Failure(MissingColumns)
    else CollectRows(data, MapRowFn(env, ColumnsOf(headers, m), now, ExistingHashes(transactions)))
  }

  function MapRowFn(env: JsEnv, c: Columns, now: Day, existing: set<string>): seq<string> -> Result<Option<ParsedRow>, MappingError> {
    (row: seq<string>) => MapRow(env, row, c, now, existing)
  }

  /**
   * As written, a row whose cells are all there but whose date JavaScript
   * cannot parse makes the whole mapping throw, so the date test of the
   * `filter` never drops a row.
   */
  lemma AsWrittenInvalidDateThrows(env: JsEnv, headers: seq<string>, data: seq<seq<string>>, m: ColumnMapping,
                                   transactions: seq<Transaction>, now: Day, i: int)
    requires MappingComplete(m) && 0 <= i < |data|
    requires CellDay(env, Cell(data[i], ColumnsOf(headers, m).date), now).None?
    ensures HandleMappingAsWritten(env, headers, data, m, transactions, now) == Failure(Thrown)
  {
    var c := ColumnsOf(headers, m);
    var existing := ExistingHashes(transactions);
    var f := (row: seq<string>) => MapRowAsWritten(env, row, c, now, existing);
    assert f(data[i]).Failure?;
  }

  /**
   * With the correction, a row with an invalid date is dropped and the
   * others are kept: nothing kept has an invalid date or an empty
   * description, and the mapping throws only for a row missing a cell it
   * reads.
   */
  lemma InvalidDateDropped(env: JsEnv, headers: seq<string>, data: seq<seq<string>>, m: ColumnMapping,
                           transactions: seq<Transaction>, now: Day, i: int)
    requires MappingComplete(m) && 0 <= i < |data|
    requires CellDay(env, Cell(data[i], ColumnsOf(headers, m).date), now).None?
    ensures MapRow(env, data[i], ColumnsOf(headers, m), now, ExistingHashes(transactions)) != Failure(Thrown) ==>
      MapRow(env, data[i], ColumnsOf(headers, m), now, ExistingHashes(transactions)) == Success(None)
  {
  }

  /**
   * The dedup round trip: once every new row's hash is stored (and no
   * stored hash is lost), mapping the same CSV again marks every row as a
   * duplicate and changes nothing else.
   */
  lemma RemapMarksDuplicates(env: JsEnv, row: seq<string>, c: Columns, now: Day, existing: set<string>, later: set<string>)
    requires existing <= later
    requires MapRow(env, row, c, now, existing).Success? && MapRow(env, row, c, now, existing).value.Some?
    requires var p := MapRow(env, row, c, now, existing).value.value;
      p.isDuplicate || ImportHash(env, p.day, p.description, p.amount) in later
    ensures MapRow(env, row, c, now, later) == Success(Some(MapRow(env, row, c, now, existing).value.value.(isDuplicate := true)))
  {
  }

  // ---------------------------------------------------------------------
  // Import

  function NotDuplicateFn(): ParsedRow -> bool {
    (p: ParsedRow) => !p.isDuplicate
  }

  /** `parsedTransactions.filter(t => !t.isDuplicate)`. */
  function ToImport(parsed: seq<ParsedRow>): (r: seq<ParsedRow>)
    ensures forall p :: p in r <==> p in parsed && !p.isDuplicate
  {
    Filter(parsed, NotDuplicateFn())
  }

  /** The record `createTransaction` gets for one row. */
  function ImportRecord(env: JsEnv, cycle: Cycle, p: ParsedRow): (t: NewTransaction)
    ensures t.cycleId == cycle.id && t.date == p.day && t.description == p.description && t.amount == p.amount
    ensures t.merchant == (if p.merchant == "" then None else Some(p.merchant))
    ensures t.categoryId.None? && t.via == Csv && t.notes.None? && t.splitGroupId.None?
    ensures t.importHash == Some(ImportHash(env, p.day, p.description, p.amount)) && t.importHash.value != ""
    ensures !t.isPlanned && t.recurringId.None?
  {
    ImportHashNotEmpty(env, p.day, p.description, p.amount);
    NewTransaction(cycle.id, p.day, p.description, if p.merchant == "" then None else Some(p.merchant),
                   p.amount, None, Csv, None, None, Some(ImportHash(env, p.day, p.description, p.amount)), false, None)
  }

  function ImportRecords(env: JsEnv, cycle: Cycle, rows: seq<ParsedRow>): (r: seq<NewTransaction>)
    ensures |r| == |rows|
    ensures forall i :: 0 <= i < |rows| ==> r[i] == ImportRecord(env, cycle, rows[i])
  {
    seq(|rows|, i requires 0 <= i < |rows| => ImportRecord(env, cycle, rows[i]))
  }

  lemma ImportRecordsStep(env: JsEnv, cycle: Cycle, rows: seq<ParsedRow>, i: int)
    requires 0 <= i < |rows|
    ensures ImportRecords(env, cycle, rows[..i + 1]) == ImportRecords(env, cycle, rows[..i]) + [ImportRecord(env, cycle, rows[i])]
  {
    var a, b := ImportRecords(env, cycle, rows[..i + 1]), ImportRecords(env, cycle, rows[..i]) + [ImportRecord(env, cycle, rows[i])];
    forall k | 0 <= k < |a| ensures a[k] == b[k] {
      assert rows[..i + 1][k] == rows[k];
      if k < i {
        assert rows[..i][k] == rows[k];
      }
    }
  }

  datatype ImportOutcome = NoActiveCycle | NothingToImport | AllImported | FailedAfter(count: nat)

  /**
   * `handleImport`: the `i`-th call to `createTransaction` succeeds iff
   * `accepts(i)`; the first one that fails ends the loop.
   */
  method HandleImport(env: JsEnv, cycle: Option<Cycle>, parsed: seq<ParsedRow>, accepts: int -> bool)
    returns (outcome: ImportOutcome, created: seq<NewTransaction>, imported: nat)
    ensures cycle.None? ==> outcome == NoActiveCycle && created == [] && imported == 0
    ensures cycle.Some? && ToImport(parsed) == [] ==> outcome == NothingToImport && created == [] && imported == 0
    ensures cycle.Some? && ToImport(parsed) != [] ==>
      && imported <= |ToImport(parsed)|
      && created == ImportRecords(env, cycle.value, ToImport(parsed)[..imported])
      && (forall j :: 0 <= j < imported ==> accepts(j))
      && (outcome == AllImported || outcome == FailedAfter(imported))
      && (outcome == AllImported <==> imported == |ToImport(parsed)|)
      && (outcome.FailedAfter? ==> !accepts(imported))
  {
    created, imported := [], 0;
    if cycle.None? {
      return NoActiveCycle, created, imported;
    }
    var toImport := ToImport(parsed);
    if toImport == [] {
      return NothingToImport, created, imported;
    }
    while imported < |toImport|
      invariant imported <= |toImport|
      invariant created == ImportRecords(env, cycle.value, toImport[..imported])
      invariant forall j :: 0 <= j < imported ==> accepts(j)
    {
      var record := ImportRecord(env, cycle.value, toImport[imported]);
      if !accepts(imported) {
        return FailedAfter(imported), created, imported;
      }
      ImportRecordsStep(env, cycle.value, toImport, imported);
      created := created + [record];
      imported := imported + 1;
    }
    assert toImport[..imported] == toImport;
    outcome := AllImported;
  }

  /**
   * After a complete import every new row's hash is carried by a created
   * record, so storing them makes a remapping flag every row a duplicate.
   */
  lemma ImportedHashesCovered(env: JsEnv, cycle: Cycle, parsed: seq<ParsedRow>, p: ParsedRow)
    requires p in parsed && !p.isDuplicate
    ensures Some(ImportHash(env, p.day, p.description, p.amount)) in
      (set t | t in ImportRecords(env, cycle, ToImport(parsed)) :: t.importHash)
  {
    var rows := ToImport(parsed);
    var k :| 0 <= k < |rows| && rows[k] == p;
    assert ImportRecords(env, cycle, rows)[k] == ImportRecord(env, cycle, p);
  }

  /** The mapped rows with every row flagged as a duplicate. */
  function MarkedDuplicate(rows: seq<ParsedRow>): (r: seq<ParsedRow>)
    ensures |r| == |rows|
    ensures forall k :: 0 <= k < |rows| ==> r[k] == rows[k].(isDuplicate := true)
  {
    seq(|rows|, k requires 0 <= k < |rows| => rows[k].(isDuplicate := true))
  }

  lemma MarkedDuplicateCons(p: ParsedRow, rest: seq<ParsedRow>)
    ensures MarkedDuplicate([p] + rest) == [p.(isDuplicate := true)] + MarkedDuplicate(rest)
  {
    var a, b := MarkedDuplicate([p] + rest), [p.(isDuplicate := true)] + MarkedDuplicate(rest);
    forall k | 0 <= k < |a| ensures a[k] == b[k] {
      if k > 0 {
        assert ([p] + rest)[k] == rest[k - 1];
      }
    }
  }

  /**
   * Mapping the same CSV rows against a larger set of stored hashes that
   * holds the hash of every row not yet flagged gives the same rows, all
   * flagged as duplicates.
   */
  lemma {:induction false} RemapAllDuplicates(env: JsEnv, data: seq<seq<string>>, c: Columns, now: Day,
                                              existing: set<string>, later: set<string>)
    requires existing <= later
    requires CollectRows(data, MapRowFn(env, c, now, existing)).Success?
    requires forall p :: p in CollectRows(data, MapRowFn(env, c, now, existing)).value && !p.isDuplicate ==>
      ImportHash(env, p.day, p.description, p.amount) in later
    ensures CollectRows(data, MapRowFn(env, c, now, later)) ==
      Success(MarkedDuplicate(CollectRows(data, MapRowFn(env, c, now, existing)).value))
    decreases |data|
  {
    var f, g := MapRowFn(env, c, now, existing), MapRowFn(env, c, now, later);
    if data != [] {
      var before := CollectRows(data, f).value;
      var rest := CollectRows(data[1..], f);
      assert rest.Success?;
      var kept := f(data[0]).value;
      if kept.Some? {
        assert before == [kept.value] + rest.value;
        RemapMarksDuplicates(env, data[0], c, now, existing, later);
        RemapAllDuplicates(env, data[1..], c, now, existing, later);
        MarkedDuplicateCons(kept.value, rest.value);
      } else {
        assert before == rest.value;
        assert g(data[0]) == Success(None);
        RemapAllDuplicates(env, data[1..], c, now, existing, later);
        var after := CollectRows(data[1..], g).value;
        assert [] + after == after;
      }
    }
  }

  lemma NothingLeftToImport(rows: seq<ParsedRow>)
    requires forall k :: 0 <= k < |rows| ==> rows[k].isDuplicate
    ensures ToImport(rows) == []
  {
    FilterKeepsNone(rows, NotDuplicateFn());
  }

  /**
   * The dedup round trip of the page: after every new row has been created
   * and stored, with no stored transaction lost, mapping the same file
   * again gives the same rows, each flagged as a duplicate, so a second
   * import creates nothing.
   */
  lemma ReimportFindsDuplicates(env: JsEnv, headers: seq<string>, data: seq<seq<string>>, m: ColumnMapping,
                                transactions: seq<Transaction>, later: seq<Transaction>, cycle: Cycle, now: Day)
    requires HandleMapping(env, headers, data, m, transactions, now).Success?
    requires forall t :: t in transactions ==> t in later
    requires forall n :: n in ImportRecords(env, cycle, ToImport(HandleMapping(env, headers, data, m, transactions, now).value)) ==>
      exists t :: t in later && t.importHash == n.importHash
    ensures HandleMapping(env, headers, data, m, later, now) ==
      Success(MarkedDuplicate(HandleMapping(env, headers, data, m, transactions, now).value))
    ensures ToImport(HandleMapping(env, headers, data, m, later, now).value) == []
  {
    var rows := HandleMapping(env, headers, data, m, transactions, now).value;
    var existing, stored := ExistingHashes(transactions), ExistingHashes(later);
    var c := ColumnsOf(headers, m);
    forall p | p in rows && !p.isDuplicate ensures ImportHash(env, p.day, p.description, p.amount) in stored {
      var h := ImportHash(env, p.day, p.description, p.amount);
      ImportedHashesCovered(env, cycle, rows, p);
      var n :| n in ImportRecords(env, cycle, ToImport(rows)) && n.importHash == Some(h);
      var t :| t in later && t.importHash == n.importHash;
      ImportHashNotEmpty(env, p.day, p.description, p.amount);
    }
    RemapAllDuplicates(env, data, c, now, existing, stored);
    NothingLeftToImport(MarkedDuplicate(rows));
  }
}
