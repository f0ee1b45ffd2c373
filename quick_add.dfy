/**
 * The quick-add page: the "merchant amount" text box, parsed with the
 * regular expression `^(.+?)\s+(\d+(?:\.\d{2})?)$` as the user types, and
 * the submit handler that turns the form into a manual expense.
 *
 * `parseFloat` is a parameter (`None` standing for NaN, the value in
 * cents); the regular expressions are written out as scans over the text.
 */
module QuickAdd {
  import opened Wrappers
  import opened Dates
  import opened Text
  import opened FinanceTypes
  import opened CycleMetrics

  // ---------------------------------------------------------------------
  // The pattern

  /**
   * `\d+(?:\.\d{2})?` matching the whole of `s`: digits only, or at least
   * one digit, a point, and two digits.
   */
  predicate IsAmountText(s: string) {
    || (|s| >= 1 && forall k :: 0 <= k < |s| ==> IsDigit(s[k]))
    || (|s| >= 4 && s[|s| - 3] == '.' && forall k :: 0 <= k < |s| && k != |s| - 3 ==> IsDigit(s[k]))
  }

  /** `IsAmountText(input[m..])`, stated on the positions of `input`. */
  predicate AmountAt(input: string, m: int) {
    || (0 <= m < |input| && forall k :: m <= k < |input| ==> IsDigit(input[k]))
    || (0 <= m <= |input| - 4 && input[|input| - 3] == '.'
        && forall k :: m <= k < |input| && k != |input| - 3 ==> IsDigit(input[k]))
  }

  lemma AmountAtText(input: string, m: int)
    requires 0 <= m <= |input|
    ensures AmountAt(input, m) <==> IsAmountText(input[m..])
  {
    var s := input[m..];
    assert forall k :: 0 <= k < |s| ==> s[k] == input[m + k];
    assert forall k :: m <= k < |input| ==> input[k] == s[k - m];
  }

  /** The end of the white-space run that starts at `i`. */
  function SkipSpaces(input: string, i: int): (j: int)
    requires 0 <= i <= |input|
    ensures i <= j <= |input|
    ensures forall k :: i <= k < j ==> IsSpace(input[k])
    ensures j < |input| ==> !IsSpace(input[j])
    decreases |input| - i
  {
    if i < |input| && IsSpace(input[i]) then SkipSpaces(input, i + 1) else i
  }

  /** A run of white space ending before a character that is not white space is skipped to that character. */
  lemma {:induction false} SkipSpacesTo(input: string, i: int, j: int)
    requires 0 <= i <= j <= |input|
    requires forall k :: i <= k < j ==> IsSpace(input[k])
    requires j < |input| ==> !IsSpace(input[j])
    ensures SkipSpaces(input, i) == j
    decreases j - i
  {
    if i < j {
      SkipSpacesTo(input, i + 1, j);
    }
  }

  /**
   * `\s+\d+(?:\.\d{2})?$` matching `input` from `q` to its end: the greedy
   * `\s+` takes the whole white-space run, because no digit is white space,
   * and the amount is what remains.
   */
  predicate MatchesAt(input: string, q: int) {
    0 <= q < |input| && IsSpace(input[q]) && AmountAt(input, SkipSpaces(input, q))
  }

  /** `MatchesAt` as the test the scans below take. */
  function TailAt(input: string): int -> bool {
    (q: int) => MatchesAt(input, q)
  }

  /** `.` matches every character of `input[..p]`: none is a line terminator. */
  predicate Dottable(input: string, p: int)
    requires 0 <= p <= |input|
  {
    forall k :: 0 <= k < p ==> !IsLineTerminator(input[k])
  }

  /**
   * The lazy `(.+?)`: the first split point from `p` on whose prefix `.`
   * can match and at which `at` holds (the rest matches the tail of the
   * pattern).
   */
  function MatchFrom(input: string, p: int, at: int -> bool): (r: Option<int>)
    requires 1 <= p <= |input| + 1
    requires p - 1 <= |input| && Dottable(input, p - 1)
    ensures r.Some? ==> p <= r.value < |input| && at(r.value) && Dottable(input, r.value)
    ensures r.Some? ==> forall q :: p <= q < r.value ==> !at(q)
    ensures r.None? ==> forall q :: p <= q < |input| && Dottable(input, q) ==> !at(q)
    decreases |input| - p
  {
    if p >= |input| then None
    else if IsLineTerminator(input[p - 1]) then
      LineEnds(input, p);
      None
    else
      DottableStep(input, p);
      if at(p) then Some(p)
      else MatchFrom(input, p + 1, at)
  }

  /** `.` goes on over a character that is not a line terminator. */
  lemma DottableStep(input: string, p: int)
    requires 1 <= p <= |input| && Dottable(input, p - 1) && !IsLineTerminator(input[p - 1])
    ensures Dottable(input, p)
  {
  }

  /** `.` cannot run across a line terminator. */
  lemma LineEnds(input: string, p: int)
    requires 1 <= p <= |input| && IsLineTerminator(input[p - 1])
    ensures forall q :: p <= q <= |input| ==> !Dottable(input, q)
  {
  }

  datatype InputMatch = InputMatch(merchantText: string, amountText: string)

  /**
   * `input.match(...)`: group 1 is the text before the split point, group 2
   * the amount after the white space.
   */
  function MatchInput(input: string): (r: Option<InputMatch>)
    ensures r.Some? ==> |r.value.merchantText| >= 1 && IsAmountText(r.value.amountText)
    ensures r.Some? ==> |r.value.merchantText| < |input| - |r.value.amountText|
    ensures r.Some? ==> input[..|r.value.merchantText|] == r.value.merchantText
    ensures r.Some? ==> input[|input| - |r.value.amountText|..] == r.value.amountText
    ensures r.Some? ==> forall k :: |r.value.merchantText| <= k < |input| - |r.value.amountText| ==> IsSpace(input[k])
    ensures r.Some? ==> forall k :: 0 <= k < |r.value.merchantText| ==> !IsLineTerminator(input[k])
  {
    match MatchFrom(input, 1, TailAt(input))
    case None => None
    case Some(p) =>
      var m := SkipSpaces(input, p);
      AmountAtText(input, m);
      Some(InputMatch(input[..p], input[m..]))
  }

  /** From the start of a matched amount to the end of the text there is no white space. */
  lemma AmountNoSpace(input: string, q: int)
    requires MatchesAt(input, q)
    ensures forall k :: SkipSpaces(input, q) <= k < |input| ==> !IsSpace(input[k])
  {
  }

  /**
   * Two split points whose rests both match see the same amount, and the
   * text between them is white space.
   */
  lemma SameAmount(input: string, a: int, b: int)
    requires a <= b && MatchesAt(input, a) && MatchesAt(input, b)
    ensures SkipSpaces(input, a) == SkipSpaces(input, b)
    ensures forall k :: a <= k < b ==> IsSpace(input[k])
  {
    var ma, mb := SkipSpaces(input, a), SkipSpaces(input, b);
    AmountNoSpace(input, a);
    AmountNoSpace(input, b);
    // Position `b` is white space and positions `ma`, `mb` are not, so
    // neither boundary can lie inside the other's white-space run.
    assert IsSpace(input[b]) && b < ma;
    assert !IsSpace(input[ma]) && !IsSpace(input[mb]);
  }

  /**
   * Whenever the text is some non-empty single-line prefix, white space
   * and an amount, the match succeeds, group 2 is exactly that amount, and
   * group 1 trims to the trimmed prefix.
   */
  lemma MatchOfShape(input: string, prefix: string, w: string, amount: string)
    requires input == prefix + w + amount
    requires prefix != [] && (forall k :: 0 <= k < |prefix| ==> !IsLineTerminator(prefix[k]))
    requires w != [] && AllSpace(w) && IsAmountText(amount)
    ensures MatchInput(input).Some?
    ensures MatchInput(input).value.amountText == amount
    ensures Trim(MatchInput(input).value.merchantText) == Trim(prefix)
  {
    var p0 := |prefix|;
    ShapeAt(input, prefix, w, amount);
    var at := TailAt(input);
    assert at(p0);
    var found := MatchFrom(input, 1, at);
    assert found.Some?;
    var p := found.value;
    assert p <= p0;
    SameAmount(input, p, p0);
    SpaceGap(input, p, p0);
  }

  /** At the end of the prefix the tail of the pattern matches, reading the given amount. */
  lemma ShapeAt(input: string, prefix: string, w: string, amount: string)
    requires input == prefix + w + amount
    requires forall k :: 0 <= k < |prefix| ==> !IsLineTerminator(prefix[k])
    requires w != [] && AllSpace(w) && IsAmountText(amount)
    ensures MatchesAt(input, |prefix|) && Dottable(input, |prefix|)
    ensures input[SkipSpaces(input, |prefix|)..] == amount && input[..|prefix|] == prefix
  {
    var p0, m := |prefix|, |prefix| + |w|;
    assert input[m..] == amount;
    forall k | p0 <= k < m ensures IsSpace(input[k]) {
      assert input[k] == w[k - p0];
    }
    forall k | 0 <= k < p0 ensures !IsLineTerminator(input[k]) {
      assert input[k] == prefix[k];
    }
    assert m < |input| ==> input[m] == amount[0];
    SkipSpacesTo(input, p0, m);
    AmountAtText(input, m);
  }

  /** A prefix that differs from a shorter one by white space trims the same. */
  lemma SpaceGap(input: string, p: int, p0: int)
    requires 0 <= p <= p0 <= |input|
    requires forall k :: p <= k < p0 ==> IsSpace(input[k])
    ensures Trim(input[..p0]) == Trim(input[..p])
  {
    var gap := input[p..p0];
    assert input[..p0] == input[..p] + gap;
    assert AllSpace(gap) by {
      forall k | 0 <= k < |gap| ensures IsSpace(gap[k]) {
        assert gap[k] == input[p + k];
      }
    }
    TrimTrailingSpace(input[..p], gap);
  }

  // ---------------------------------------------------------------------
  // The effect on the form

  /** The two fields the input effect writes. */
  datatype QuickForm = QuickForm(amount: string, suggested: Option<Category>)

  /**
   * The effect run on every change of the input: on a match the amount
   * becomes group 2, and a merchant rule matching the trimmed group 1 sets
   * the suggestion; anything else leaves the form alone.
   */
  function OnInput(input: string, form: QuickForm, rules: Option<seq<MerchantRule>>, categories: Option<seq<Category>>): (r: QuickForm)
    ensures MatchInput(input).None? ==> r == form
    ensures MatchInput(input).Some? ==> r.amount == MatchInput(input).value.amountText
    ensures MatchInput(input).Some? ==>
      var found := FindCategoryForMerchant(Trim(MatchInput(input).value.merchantText), rules, categories);
      r.suggested == if found.Some? then found else form.suggested
  {
    match MatchInput(input)
    case None => form
    case Some(m) =>
      var ruleCategory := FindCategoryForMerchant(Trim(m.merchantText), rules, categories);
      QuickForm(m.amountText, if ruleCategory.Some? then ruleCategory else form.suggested)
  }

  // ---------------------------------------------------------------------
  // The description

  /** The leftmost start from `q` on at which `at` holds (where `\s+\d+(?:\.\d{2})?$` matches). */
  function TailFrom(input: string, q: int, at: int -> bool): (r: Option<int>)
    requires 0 <= q <= |input|
    ensures r.Some? ==> q <= r.value < |input| && at(r.value)
    ensures r.Some? ==> forall k :: q <= k < r.value ==> !at(k)
    ensures r.None? ==> forall k :: q <= k < |input| ==> !at(k)
    decreases |input| - q
  {
    if q == |input| then None
    else if at(q) then Some(q)
    else TailFrom(input, q + 1, at)
  }

  /** `input.replace(/\s+\d+(?:\.\d{2})?$/, '')`: the text with a trailing white space and amount taken off. */
  function StripTrailingAmount(input: string): string {
    match TailFrom(input, 0, TailAt(input))
    case None => input
    case Some(q) => input[..q]
  }

  /** The description: the stripped, trimmed text, or the whole input when that leaves nothing. */
  function Description(input: string): (r: string)
    ensures input != "" ==> r != ""
    ensures Trim(StripTrailingAmount(input)) != "" ==> r == Trim(StripTrailingAmount(input)) && r == Trim(r)
    ensures Trim(StripTrailingAmount(input)) == "" ==> r == input
  {
    var d := Trim(StripTrailingAmount(input));
    if d == "" then input else d
  }

  /**
   * When the input matched with a merchant that is not blank, the stored
   * description is that merchant: the amount the submit strips is the one
   * the match read.
   */
  lemma DescriptionIsMerchant(input: string)
    requires MatchInput(input).Some? && Trim(MatchInput(input).value.merchantText) != ""
    ensures Description(input) == Trim(MatchInput(input).value.merchantText)
  {
    var p := MatchFrom(input, 1, TailAt(input)).value;
    var q := TailFrom(input, 0, TailAt(input)).value;
    assert q <= p;
    if q == 0 {
      SameAmount(input, 0, p);
      assert AllSpace(input[..p]) by {
        forall k | 0 <= k < p ensures IsSpace(input[..p][k]) {
          assert input[..p][k] == input[k];
        }
      }
      assert false;
    } else {
      assert Dottable(input, q);
      assert p == q;
    }
  }

  // ---------------------------------------------------------------------
  // Submit

  datatype SubmitError = SetupIncomplete | InvalidAmount | MissingDescription

  /** `selectedCategory?.id || suggestedCategory?.id || null`, where an empty id is falsy. */
  function ChosenCategoryId(selected: Option<Category>, suggested: Option<Category>): (r: Option<string>)
    ensures selected.Some? && selected.value.id != "" ==> r == Some(selected.value.id)
    ensures !(selected.Some? && selected.value.id != "") && suggested.Some? && suggested.value.id != "" ==> r == Some(suggested.value.id)
    ensures r.None? <==> !(selected.Some? && selected.value.id != "") && !(suggested.Some? && suggested.value.id != "")
  {
    if selected.Some? && selected.value.id != "" then Some(selected.value.id)
    else if suggested.Some? && suggested.value.id != "" then Some(suggested.value.id)
    else None
  }

  /** `handleSubmit`: the checks in order, then the expense record handed to `createTransaction`. */
  function HandleSubmit(cycle: Option<Cycle>, hasUser: bool, input: string, amount: string, date: Day,
                        selected: Option<Category>, suggested: Option<Category>,
                        parseFloat: string -> Option<int>): (r: Result<NewTransaction, SubmitError>)
    ensures cycle.None? || !hasUser ==> r == Failure(SetupIncomplete)
    ensures cycle.Some? && hasUser && (parseFloat(amount).None? || parseFloat(amount).value <= 0) ==> r == Failure(InvalidAmount)
    ensures r == Failure(MissingDescription) <==>
      cycle.Some? && hasUser && parseFloat(amount).Some? && parseFloat(amount).value > 0 && input == ""
    ensures r.Success? ==>
      && r.value.amount < 0 && r.value.amount == -parseFloat(amount).value
      && r.value.cycleId == cycle.value.id && r.value.date == date
      && r.value.description == Description(input) && r.value.merchant == Some(r.value.description)
      && r.value.categoryId == ChosenCategoryId(selected, suggested)
      && r.value.via == Manual && !r.value.isPlanned && r.value.notes.None?
      && r.value.splitGroupId.None? && r.value.importHash.None? && r.value.recurringId.None?
  {
    if cycle.None? || !hasUser then Failure(SetupIncomplete)
    else
      var parsedAmount := parseFloat(amount);
      if parsedAmount.None? || parsedAmount.value <= 0 then Failure(InvalidAmount)
      else
        var description := Description(input);
        if description == "" then Failure(MissingDescription)
        else
          Success(NewTransaction(
            cycle.value.id, date, description, Some(description), -parsedAmount.value,
            ChosenCategoryId(selected, suggested), Manual, None, None, None, false, None))
  }
}
