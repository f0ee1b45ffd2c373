/**
 * The home page's progress card: the share of tasks done, rounded to a
 * whole percent, and the number still to do.
 */
module ProgressCard {
  import opened Lists
  import opened Tasks
  import opened TaskFilters

  /** JavaScript's `Math.round`: the nearest integer, halves rounded up. */
  function JsRound(x: real): (r: int)
    ensures (r as real) - 0.5 <= x < (r as real) + 0.5
  {
    (x + 0.5).Floor
  }

  /** `total > 0 ? Math.round((completed / total) * 100) : 0`, on exact numbers. */
  function Percentage(completed: int, total: int): (p: int)
    ensures total <= 0 ==> p == 0
    ensures total > 0 ==> (p as real) - 0.5 <= (completed as real) / (total as real) * 100.0 < (p as real) + 0.5
  {
    if total > 0 then JsRound((completed as real) / (total as real) * 100.0) else 0
  }

  /** With as many done as there are tasks, or fewer, the percentage lies between 0 and 100; all done is 100 and none done is 0. */
  lemma PercentageBounds(completed: int, total: int)
    requires 0 <= completed <= total
    ensures 0 <= Percentage(completed, total) <= 100
    ensures total > 0 && completed == total ==> Percentage(completed, total) == 100
    ensures completed == 0 ==> Percentage(completed, total) == 0
  {
    if total > 0 {
      var x := (completed as real) / (total as real) * 100.0;
      RatioBounds(completed as real, total as real);
      assert 0.0 <= x <= 100.0;
      if completed == total {
        assert (completed as real) / (total as real) == 1.0;
      }
    }
  }

  /** A share of a positive whole is between 0 and 1. */
  lemma RatioBounds(c: real, t: real)
    requires 0.0 <= c <= t && t > 0.0
    ensures 0.0 <= c / t <= 1.0
  {
    assert c / t * t == c;
  }

  /** `remaining = total - completed`. */
  function Remaining(completed: int, total: int): (r: int)
    ensures r + completed == total
  {
    total - completed
  }

  /**
   * Fed with the task list's counts, the card shows a percentage between
   * 0 and 100, and the remaining count is the number of tasks not done.
   */
  lemma CardOfTaskList(tasks: seq<Task>)
    ensures var done := |Filter(tasks, CompletedFn())|;
      0 <= Percentage(done, |tasks|) <= 100
      && Remaining(done, |tasks|) == |Filter(tasks, PendingFn())|
  {
    FilterPartition(tasks, PendingFn(), CompletedFn());
    var done := Filter(tasks, CompletedFn());
    var pending := Filter(tasks, PendingFn());
    assert |multiset(pending)| + |multiset(done)| == |multiset(tasks)|;
    PercentageBounds(|done|, |tasks|);
  }
}
