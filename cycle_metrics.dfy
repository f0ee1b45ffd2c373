/**
 * The budgeting engine of `useFinance`: the 15th-to-14th pay cycle around
 * a day, the open cycle among the fetched ones, the cycle metrics built
 * from its transactions and budgets, and the merchant-rule lookup.
 *
 * "Now" arrives as the day in Sydney (`now`) and, for the days remaining,
 * as date-fns's `differenceInDays(endDate, now)` (`dayDiff`), which depends
 * on the time of day.
 */
module CycleMetrics {
  import opened Wrappers
  import opened Dates
  import opened Text
  import opened FinanceTypes

  // ---------------------------------------------------------------------
  // getCurrentCycleDates

  datatype CycleDates = CycleDates(startDate: Day, endDate: Day)

  /** The cycle around `now`: from the 15th of this month when `now` is on or after the 15th, else from last month's 15th. */
  function CurrentCycleDates(now: Day): CycleDates {
    if Date(now) >= 15 then CycleDates(SetDate(now, 15), SetDate(AddMonths(now, 1), 14))
    else CycleDates(SetDate(AddMonths(now, -1), 15), SetDate(now, 14))
  }

  /**
   * The cycle holds `now`, starts on a 15th and ends on the 14th of the
   * following month (month indices run on across December into January).
   */
  lemma CurrentCycleDatesFacts(now: Day)
    ensures var c := CurrentCycleDates(now);
      c.startDate <= now <= c.endDate
      && Date(c.startDate) == 15 && Date(c.endDate) == 14
      && MonthIndexOf(c.endDate) == MonthIndexOf(c.startDate) + 1
      && c.startDate == FirstOfMonthIndex(MonthIndexOf(c.startDate)) + 14
      && c.endDate == FirstOfMonthIndex(MonthIndexOf(c.startDate) + 1) + 13
      && (Date(now) >= 15 <==> MonthIndexOf(c.startDate) == MonthIndexOf(now))
  {
    var i := MonthIndexOf(now);
    var c := CurrentCycleDates(now);
    FirstOfNextMonth(i - 1);
    FirstOfNextMonth(i);
    if Date(now) >= 15 {
      var next := AddMonths(now, 1);
      AddMonthsCivil(now, 1);
      DayInMonth(i, 15, c.startDate);
      DayInMonth(i + 1, 14, c.endDate);
    } else {
      var prev := AddMonths(now, -1);
      AddMonthsCivil(now, -1);
      DayInMonth(i - 1, 15, c.startDate);
      DayInMonth(i, 14, c.endDate);
    }
  }

  /** A December cycle ends in January of the next year. */
  lemma CurrentCycleYearTurn(now: Day)
    requires Month(CurrentCycleDates(now).startDate) == 12
    ensures var c := CurrentCycleDates(now);
      Month(c.endDate) == 1 && Year(c.endDate) == Year(c.startDate) + 1
  {
    CurrentCycleDatesFacts(now);
    var i := MonthIndexOf(CurrentCycleDates(now).startDate);
    assert i % 12 == 11;
    assert (i + 1) % 12 == 0 && (i + 1) / 12 == i / 12 + 1;
  }

  // ---------------------------------------------------------------------
  // currentCycle and the lookups by id

  /** The first open cycle of the list (which is fetched newest start date first). */
  function CurrentCycle(cycles: seq<Cycle>): (r: Option<Cycle>)
    ensures r.None? <==> forall k :: 0 <= k < |cycles| ==> cycles[k].status != Open
    ensures r.Some? ==> exists k :: (0 <= k < |cycles| && cycles[k] == r.value && r.value.status == Open
      && forall j :: 0 <= j < k ==> cycles[j].status != Open)
  {
    if cycles == [] then None
    else if cycles[0].status == Open then Some(cycles[0])
    else
      var r := CurrentCycle(cycles[1..]);
      assert forall k :: 1 <= k < |cycles| ==> cycles[k] == cycles[1..][k - 1];
      if r.Some? then
        var k :| 0 <= k < |cycles[1..]| && cycles[1..][k] == r.value && r.value.status == Open
          && forall j :: 0 <= j < k ==> cycles[1..][j].status != Open;
        assert cycles[k + 1] == r.value && forall j :: 0 <= j < k + 1 ==> cycles[j].status != Open;
        r
      else r
  }

  /** `categories.find(c => c.id === id)`: the first category with that id. */
  function FindCategory(categories: seq<Category>, id: string): (r: Option<Category>)
    ensures r.None? <==> forall k :: 0 <= k < |categories| ==> categories[k].id != id
    ensures r.Some? ==> r.value.id == id && exists k :: (0 <= k < |categories| && categories[k] == r.value
      && forall j :: 0 <= j < k ==> categories[j].id != id)
  {
    if categories == [] then None
    else if categories[0].id == id then Some(categories[0])
    else
      var r := FindCategory(categories[1..], id);
      assert forall k :: 1 <= k < |categories| ==> categories[k] == categories[1..][k - 1];
      if r.Some? then
        var k :| 0 <= k < |categories[1..]| && categories[1..][k] == r.value
          && forall j :: 0 <= j < k ==> categories[1..][j].id != id;
        assert categories[k + 1] == r.value && forall j :: 0 <= j < k + 1 ==> categories[j].id != id;
        r
      else r
  }

  // ---------------------------------------------------------------------
  // The sums over the cycle's transactions

  /** What was spent: the sum of |amount| over the negative amounts. */
  function SumSpend(txs: seq<Transaction>): (r: int)
    ensures r >= 0
  {
    if txs == [] then 0
    else (if txs[0].amount < 0 then Abs(txs[0].amount) else 0) + SumSpend(txs[1..])
  }

  /** What came in: the sum of the positive amounts. */
  function SumIncome(txs: seq<Transaction>): (r: int)
    ensures r >= 0
  {
    if txs == [] then 0
    else (if txs[0].amount > 0 then txs[0].amount else 0) + SumIncome(txs[1..])
  }

  /** The sum of every amount, planned rows included. */
  function SumAmounts(txs: seq<Transaction>): int {
    if txs == [] then 0 else txs[0].amount + SumAmounts(txs[1..])
  }

  /** The net amount is what came in less what was spent. */
  lemma {:induction false} SumAmountsSplit(txs: seq<Transaction>)
    ensures SumAmounts(txs) == SumIncome(txs) - SumSpend(txs)
    decreases |txs|
  {
    if txs != [] {
      SumAmountsSplit(txs[1..]);
    }
  }

  /** What was spent in one category: |amount| over its negative transactions. */
  function CategorySpend(txs: seq<Transaction>, categoryId: string): (r: int)
    ensures r >= 0
  {
    if txs == [] then 0
    else
      (if txs[0].categoryId == Some(categoryId) && txs[0].amount < 0 then Abs(txs[0].amount) else 0)
      + CategorySpend(txs[1..], categoryId)
  }

  /** No category spends more than the whole cycle. */
  lemma {:induction false} CategorySpendAtMost(txs: seq<Transaction>, categoryId: string)
    ensures CategorySpend(txs, categoryId) <= SumSpend(txs)
    decreases |txs|
  {
    if txs != [] {
      CategorySpendAtMost(txs[1..], categoryId);
    }
  }

  // ---------------------------------------------------------------------
  // metrics

  datatype BudgetCategoryMetric = BudgetCategoryMetric(
    category: Category,
    planned: int,
    actual: int,
    variance: int,
    percentUsed: real)

  datatype Metrics = Metrics(
    totalSpend: int,
    totalIncome: int,
    expectedEndBalance: int,
    targetVariance: int,
    remainingToSpend: int,
    safeToSpend: real,
    daysRemaining: int,
    dailyBudget: real,
    budgetByCategory: seq<BudgetCategoryMetric>)

  /** The share of the planned amount already spent, in percent; 0 for a budget of 0 or less. */
  function PercentUsed(actual: int, planned: int): (r: real)
    ensures planned > 0 ==> r * (planned as real) == (actual as real) * 100.0
    ensures planned <= 0 ==> r == 0.0
    ensures actual >= 0 ==> r >= 0.0
  {
    if planned > 0 then (actual as real) / (planned as real) * 100.0 else 0.0
  }

  /** The metric row of one budget whose category is known. */
  function BudgetRow(b: Budget, category: Category, txs: seq<Transaction>): BudgetCategoryMetric {
    var actual := CategorySpend(txs, b.categoryId);
    BudgetCategoryMetric(category, b.plannedAmount, actual, b.plannedAmount - actual, PercentUsed(actual, b.plannedAmount))
  }

  /** A budget whose category is among the fetched ones. */
  predicate Known(b: Budget, categories: seq<Category>) {
    FindCategory(categories, b.categoryId).Some?
  }

  /** `budgets.map(...).filter(b => b.category)`: a row per budget, in budget order, without those of unknown category. */
  function BudgetRows(budgets: seq<Budget>, categories: seq<Category>, txs: seq<Transaction>): (r: seq<BudgetCategoryMetric>)
    ensures |r| <= |budgets|
  {
    if budgets == [] then []
    else
      var b := budgets[0];
      var c := FindCategory(categories, b.categoryId);
      (if c.Some? then [BudgetRow(b, c.value, txs)] else []) + BudgetRows(budgets[1..], categories, txs)
  }

  /** The rows are exactly those of the budgets with a known category. */
  lemma {:induction false} BudgetRowsMembers(budgets: seq<Budget>, categories: seq<Category>, txs: seq<Transaction>)
    ensures forall m :: m in BudgetRows(budgets, categories, txs) <==>
      exists b :: b in budgets && Known(b, categories) && m == BudgetRow(b, FindCategory(categories, b.categoryId).value, txs)
    decreases |budgets|
  {
    if budgets != [] {
      BudgetRowsMembers(budgets[1..], categories, txs);
      assert forall b :: b in budgets <==> b == budgets[0] || b in budgets[1..];
    }
  }

  /** Every row has the budget's planned amount, the category's spend, their difference and the share used; the spend is within the cycle's. */
  lemma {:induction false} BudgetRowsFacts(budgets: seq<Budget>, categories: seq<Category>, txs: seq<Transaction>)
    ensures forall m :: m in BudgetRows(budgets, categories, txs) ==>
      m.actual == CategorySpend(txs, m.category.id) && 0 <= m.actual <= SumSpend(txs)
      && m.variance == m.planned - m.actual && m.percentUsed >= 0.0
      && (m.planned > 0 ==> m.percentUsed * (m.planned as real) == (m.actual as real) * 100.0)
    decreases |budgets|
  {
    if budgets != [] {
      var b := budgets[0];
      BudgetRowsFacts(budgets[1..], categories, txs);
      var rest := BudgetRows(budgets[1..], categories, txs);
      var c := FindCategory(categories, b.categoryId);
      var head := if c.Some? then [BudgetRow(b, c.value, txs)] else [];
      assert BudgetRows(budgets, categories, txs) == head + rest;
      if c.Some? {
        BudgetRowFacts(b, c.value, txs);
      }
    }
  }

  /** One row: the category's spend, within the cycle's, the budget's planned amount, their difference and the share used. */
  lemma BudgetRowFacts(b: Budget, category: Category, txs: seq<Transaction>)
    requires category.id == b.categoryId
    ensures var m := BudgetRow(b, category, txs);
      m.actual == CategorySpend(txs, m.category.id) && 0 <= m.actual <= SumSpend(txs)
      && m.planned == b.plannedAmount && m.variance == m.planned - m.actual && m.percentUsed >= 0.0
      && (m.planned > 0 ==> m.percentUsed * (m.planned as real) == (m.actual as real) * 100.0)
  {
    CategorySpendAtMost(txs, b.categoryId);
  }

  /** The division `remainingToSpend / daysRemaining`, guarded against zero days. */
  function SafeToSpend(remaining: int, daysRemaining: int): (r: real)
    ensures daysRemaining > 0 ==> r * (daysRemaining as real) == remaining as real
    ensures daysRemaining <= 0 ==> r == 0.0
  {
    if daysRemaining > 0 then (remaining as real) / (daysRemaining as real) else 0.0
  }

  /** `metrics`: absent until the cycle, its transactions and its budgets are loaded; absent categories count as none. */
  function ComputeMetrics(cycle: Option<Cycle>, transactions: Option<seq<Transaction>>, budgets: Option<seq<Budget>>,
                          categories: Option<seq<Category>>, dayDiff: int): (r: Option<Metrics>)
    ensures r.Some? <==> cycle.Some? && transactions.Some? && budgets.Some?
  {
    if cycle.None? || transactions.None? || budgets.None? then None
    else
      var c := cycle.value;
      var txs := transactions.value;
      var expected := c.startingBalance + c.incomeActual.GetOr(c.incomePlanned) + SumAmounts(txs);
      var daysRemaining := Max(0, dayDiff + 1);
      var remaining := expected - c.targetEndBalance;
      var safe := SafeToSpend(remaining, daysRemaining);
      Some(Metrics(
        totalSpend := SumSpend(txs),
        totalIncome := SumIncome(txs),
        expectedEndBalance := expected,
        targetVariance := expected - c.targetEndBalance,
        remainingToSpend := remaining,
        safeToSpend := safe,
        daysRemaining := daysRemaining,
        dailyBudget := safe,
        budgetByCategory := BudgetRows(budgets.value, categories.GetOr([]), txs)))
  }

  /**
   * The metrics balance: the expected end balance is the start plus the
   * income (actual if entered, else planned) plus what came in less what was
   * spent; the variance and the amount left to spend are its distance to
   * the target; the days left are `dayDiff + 1`, or 0 once the cycle is
   * over; the totals and the budget rows are those of the cycle's
   * transactions and budgets; and the daily allowance
   * spreads what is left over them, or is 0 when none are left.
   */
  lemma MetricsFacts(cycle: Cycle, txs: seq<Transaction>, budgets: seq<Budget>, categories: Option<seq<Category>>, dayDiff: int)
    ensures var m := ComputeMetrics(Some(cycle), Some(txs), Some(budgets), categories, dayDiff).value;
      var income := if cycle.incomeActual.Some? then cycle.incomeActual.value else cycle.incomePlanned;
      m.totalSpend == SumSpend(txs) && m.totalIncome == SumIncome(txs)
      && m.budgetByCategory == BudgetRows(budgets, categories.GetOr([]), txs)
      && m.totalSpend >= 0 && m.totalIncome >= 0
      && m.expectedEndBalance == cycle.startingBalance + income + m.totalIncome - m.totalSpend
      && m.targetVariance == m.expectedEndBalance - cycle.targetEndBalance
      && m.remainingToSpend == m.targetVariance
      && (dayDiff >= 0 ==> m.daysRemaining == dayDiff + 1) && (dayDiff < 0 ==> m.daysRemaining == 0)
      && m.safeToSpend == SafeToSpend(m.remainingToSpend, m.daysRemaining)
      && m.dailyBudget == m.safeToSpend
  {
    var m := ComputeMetrics(Some(cycle), Some(txs), Some(budgets), categories, dayDiff).value;
    var income := if cycle.incomeActual.Some? then cycle.incomeActual.value else cycle.incomePlanned;
    var expected := cycle.startingBalance + income + SumAmounts(txs);
    var days := Max(0, dayDiff + 1);
    var left := expected - cycle.targetEndBalance;
    var safe := SafeToSpend(left, days);
    assert m == Metrics(SumSpend(txs), SumIncome(txs), expected, left, left, safe, days, safe,
      BudgetRows(budgets, categories.GetOr([]), txs));
    SumAmountsSplit(txs);
  }

  // ---------------------------------------------------------------------
  // findCategoryForMerchant

  /** A rule matches when its pattern, lower-cased, occurs in the lower-cased merchant. */
  predicate RuleMatches(merchant: string, rule: MerchantRule) {
    Includes(ToLower(merchant), ToLower(rule.merchantMatch))
  }

  /** `rules.find(...)`: the first matching rule. */
  function FirstMatchingRule(merchant: string, rules: seq<MerchantRule>): (r: Option<MerchantRule>)
    ensures r.None? <==> forall k :: 0 <= k < |rules| ==> !RuleMatches(merchant, rules[k])
    ensures r.Some? ==> exists k :: (0 <= k < |rules| && rules[k] == r.value && RuleMatches(merchant, r.value)
      && forall j :: 0 <= j < k ==> !RuleMatches(merchant, rules[j]))
  {
    if rules == [] then None
    else if RuleMatches(merchant, rules[0]) then Some(rules[0])
    else
      var r := FirstMatchingRule(merchant, rules[1..]);
      assert forall k :: 1 <= k < |rules| ==> rules[k] == rules[1..][k - 1];
      if r.Some? then
        var k :| 0 <= k < |rules[1..]| && rules[1..][k] == r.value && RuleMatches(merchant, r.value)
          && forall j :: 0 <= j < k ==> !RuleMatches(merchant, rules[1..][j]);
        assert rules[k + 1] == r.value && forall j :: 0 <= j < k + 1 ==> !RuleMatches(merchant, rules[j]);
        r
      else r
  }

  /** The category of the first matching rule, or none when no rule matches or its category is unknown. */
  function FindCategoryForMerchant(merchant: string, rules: Option<seq<MerchantRule>>, categories: Option<seq<Category>>): (r: Option<Category>)
    ensures r.Some? ==> (r.value in categories.GetOr([])
      && FirstMatchingRule(merchant, rules.GetOr([])).Some?
      && r.value.id == FirstMatchingRule(merchant, rules.GetOr([])).value.defaultCategoryId)
    ensures r.None? <==> (FirstMatchingRule(merchant, rules.GetOr([])).None?
      || forall c :: c in categories.GetOr([]) ==> c.id != FirstMatchingRule(merchant, rules.GetOr([])).value.defaultCategoryId)
  {
    var rule := FirstMatchingRule(merchant, rules.GetOr([]));
    if rule.Some? then FindCategory(categories.GetOr([]), rule.value.defaultCategoryId) else None
  }

  /** A merchant name containing a rule's pattern, in any case, always finds a rule. */
  lemma PatternInMerchantMatches(merchant: string, rules: seq<MerchantRule>, k: int, at: int)
    requires 0 <= k < |rules| && OccursAt(ToLower(rules[k].merchantMatch), ToLower(merchant), at)
    ensures FirstMatchingRule(merchant, rules).Some?
  {
    assert RuleMatches(merchant, rules[k]);
  }
}
