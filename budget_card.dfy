/**
 * The budget card of one category: whether it is over or near its limit,
 * how far the progress bar fills, and how the remaining amount is labelled.
 */
module BudgetCard {
  import opened FinanceTypes
  import opened CycleMetrics

  /** The variance label: what is left, or by how much the budget is exceeded. */
  datatype VarianceLabel = Left(amount: int) | Over(amount: int)

  /** What the card shows for one metric row. */
  datatype CardView = CardView(
    overBudget: bool,
    nearLimit: bool,
    barValue: real,
    percentDestructive: bool,
    remaining: VarianceLabel,
    labelDestructive: bool)

  /** `Math.min`, on reals. */
  function MinReal(a: real, b: real): (r: real)
    ensures r <= a && r <= b && (r == a || r == b)
  {
    if a <= b then a else b
  }

  /** The card for one metric row. */
  function View(m: BudgetCategoryMetric): (v: CardView)
    ensures v.overBudget <==> m.percentUsed > 100.0
    ensures v.nearLimit <==> 80.0 < m.percentUsed <= 100.0
    ensures !(v.overBudget && v.nearLimit)
    ensures v.barValue <= 100.0 && (m.percentUsed <= 100.0 ==> v.barValue == m.percentUsed)
    ensures v.overBudget ==> v.barValue == 100.0
    ensures v.percentDestructive <==> v.overBudget
    ensures v.remaining.Left? <==> m.variance >= 0
    ensures v.remaining.amount >= 0 && (v.remaining.Left? ==> v.remaining.amount == m.variance)
    ensures v.remaining.Over? ==> v.remaining.amount == -m.variance && v.remaining.amount > 0
    ensures v.labelDestructive <==> v.remaining.Over?
  {
    var over := m.percentUsed > 100.0;
    CardView(
      overBudget := over,
      nearLimit := m.percentUsed > 80.0 && m.percentUsed <= 100.0,
      barValue := MinReal(m.percentUsed, 100.0),
      percentDestructive := over,
      remaining := if m.variance >= 0 then Left(m.variance) else Over(-m.variance),
      labelDestructive := m.variance < 0)
  }

  /** A metric row as the budget summary builds it: variance and share used follow from planned and actual. */
  predicate WellFormed(m: BudgetCategoryMetric) {
    m.variance == m.planned - m.actual
    && (m.planned > 0 ==> m.percentUsed * (m.planned as real) == (m.actual as real) * 100.0)
    && (m.planned <= 0 ==> m.percentUsed == 0.0)
  }

  /**
   * For a positive budget the thresholds are about money: over budget is
   * spending more than planned, near the limit is spending more than 80%
   * of it but no more than all of it; and being over budget always comes
   * with the "over" label.
   */
  lemma ThresholdsInMoney(m: BudgetCategoryMetric)
    requires WellFormed(m) && m.planned > 0
    ensures View(m).overBudget <==> m.actual > m.planned
    ensures View(m).nearLimit <==> 4 * m.planned < 5 * m.actual <= 5 * m.planned
    ensures View(m).overBudget ==> View(m).remaining.Over?
  {
    var p := m.percentUsed;
    var planned := m.planned as real;
    var actual := m.actual as real;
    assert p * planned == actual * 100.0;
    PercentComparison(p, planned, actual, 100.0);
    PercentComparison(p, planned, actual, 80.0);
  }

  /** With `p * planned == actual * 100` and `planned > 0`, `p` compares with a bound as `actual * 100` does with `bound * planned`. */
  lemma PercentComparison(p: real, planned: real, actual: real, bound: real)
    requires planned > 0.0 && p * planned == actual * 100.0
    ensures p > bound <==> actual * 100.0 > bound * planned
    ensures p <= bound <==> actual * 100.0 <= bound * planned
  {
    if p > bound {
      assert (p - bound) * planned > 0.0;
    } else {
      assert (bound - p) * planned >= 0.0;
    }
  }

  /**
   * A category without a positive budget is never shown as over or near
   * its limit, whatever was spent, although its label says "over" as soon
   * as anything was spent.
   */
  lemma UnbudgetedNeverOver(m: BudgetCategoryMetric)
    requires WellFormed(m) && m.planned <= 0
    ensures !View(m).overBudget && !View(m).nearLimit && View(m).barValue == 0.0
    ensures m.actual > m.planned ==> View(m).remaining == Over(m.actual - m.planned)
  {
  }

  /** Every row of the cycle's budget summary is well formed, so the two lemmas above apply to each card. */
  lemma SummaryRowsWellFormed(budgets: seq<Budget>, categories: seq<Category>, txs: seq<Transaction>)
    ensures forall m :: m in BudgetRows(budgets, categories, txs) ==> WellFormed(m)
  {
    BudgetRowsFacts(budgets, categories, txs);
    BudgetRowsMembers(budgets, categories, txs);
    forall m | m in BudgetRows(budgets, categories, txs)
      ensures WellFormed(m)
    {
      var b :| b in budgets && Known(b, categories) && m == BudgetRow(b, FindCategory(categories, b.categoryId).value, txs);
    }
  }
}
