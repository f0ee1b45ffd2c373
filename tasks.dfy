/**
 * The to-do list: the task record, the list operations `useTasks`
 * offers (add, toggle done, toggle star, delete) and its counts, kept in
 * one list the hook replaces on every change.
 */
module Tasks {
  import opened Wrappers
  import opened Lists

  datatype Task = Task(
    id: string,
    title: string,
    completed: bool,
    starred: bool,
    dueDate: Option<string>,
    createdAt: string)

  /** The task with `completed` flipped when it has the id, as it was otherwise. */
  function ToggleOne(t: Task, id: string): Task {
    if t.id == id then t.(completed := !t.completed) else t
  }

  /** The task with `starred` flipped when it has the id, as it was otherwise. */
  function StarOne(t: Task, id: string): Task {
    if t.id == id then t.(starred := !t.starred) else t
  }

  /** `prev.map(task => task.id === id ? {...task, completed: !task.completed} : task)`. */
  function ToggleCompleted(tasks: seq<Task>, id: string): (r: seq<Task>)
    ensures |r| == |tasks|
    ensures forall k :: 0 <= k < |r| ==> r[k] == ToggleOne(tasks[k], id)
  {
    seq(|tasks|, k requires 0 <= k < |tasks| => ToggleOne(tasks[k], id))
  }

  /** `prev.map(task => task.id === id ? {...task, starred: !task.starred} : task)`. */
  function ToggleStarred(tasks: seq<Task>, id: string): (r: seq<Task>)
    ensures |r| == |tasks|
    ensures forall k :: 0 <= k < |r| ==> r[k] == StarOne(tasks[k], id)
  {
    seq(|tasks|, k requires 0 <= k < |tasks| => StarOne(tasks[k], id))
  }

  /**
   * Toggling flips `completed` on exactly the tasks with the id: every
   * other field of every task, and every other task, stays as it was.
   * Toggling twice gives back the list.
   */
  lemma ToggleCompletedFacts(tasks: seq<Task>, id: string)
    ensures var r := ToggleCompleted(tasks, id);
      forall k :: 0 <= k < |r| ==>
        (r[k].completed == (tasks[k].completed != (tasks[k].id == id)))
        && r[k].(completed := tasks[k].completed) == tasks[k]
    ensures ToggleCompleted(ToggleCompleted(tasks, id), id) == tasks
  {
    var r := ToggleCompleted(tasks, id);
    var rr := ToggleCompleted(r, id);
    assert forall k :: 0 <= k < |rr| ==> rr[k] == tasks[k];
  }

  /** The same for the star: it flips on exactly the tasks with the id, and twice is no change. */
  lemma ToggleStarredFacts(tasks: seq<Task>, id: string)
    ensures var r := ToggleStarred(tasks, id);
      forall k :: 0 <= k < |r| ==>
        (r[k].starred == (tasks[k].starred != (tasks[k].id == id)))
        && r[k].(starred := tasks[k].starred) == tasks[k]
    ensures ToggleStarred(ToggleStarred(tasks, id), id) == tasks
  {
    var r := ToggleStarred(tasks, id);
    var rr := ToggleStarred(r, id);
    assert forall k :: 0 <= k < |rr| ==> rr[k] == tasks[k];
  }

  function NotIdFn(id: string): Task -> bool {
    (t: Task) => t.id != id
  }

  /** `prev.filter(task => task.id !== id)`. */
  function Remove(tasks: seq<Task>, id: string): (r: seq<Task>)
    ensures forall t :: t in r <==> t in tasks && t.id != id
  {
    Filter(tasks, NotIdFn(id))
  }

  /** Deleting keeps the other tasks in their order, and deleting an id no task has changes nothing. */
  lemma RemoveFacts(tasks: seq<Task>, id: string)
    ensures Subsequence(Remove(tasks, id), tasks)
    ensures (forall t :: t in tasks ==> t.id != id) ==> Remove(tasks, id) == tasks
  {
    FilterSubsequence(tasks, NotIdFn(id));
    if forall t :: t in tasks ==> t.id != id {
      FilterKeepsAll(tasks, NotIdFn(id));
    }
  }

  function CompletedFn(): Task -> bool {
    (t: Task) => t.completed
  }

  function PendingStarredFn(): Task -> bool {
    (t: Task) => t.starred && !t.completed
  }

  /** `newTask` of `addTask`: not done, starred only when asked (`starred || false`). */
  function NewTask(id: string, createdAt: string, title: string, dueDate: Option<string>, starred: Option<bool>): (t: Task)
    ensures t.id == id && t.title == title && t.dueDate == dueDate && t.createdAt == createdAt
    ensures !t.completed && (t.starred <==> starred == Some(true))
  {
    Task(id, title, false, starred == Some(true), dueDate, createdAt)
  }

  /** The tasks shown before anything is stored: four examples, two of them with due dates. */
  function InitialTasks(today: string, tomorrow: string, now: string): (r: seq<Task>)
    ensures |r| == 4
  {
    [ Task("1", "Review project requirements", false, true, Some(today), now),
      Task("2", "Set up development environment", true, false, None, now),
      Task("3", "Design app wireframes", false, false, Some(tomorrow), now),
      Task("4", "Create component library", false, true, None, now) ]
  }

  /**
   * The state cell of `useTasks`. The clock and `Date.now()` ids, and the
   * local storage the list is loaded from and saved to, are parameters.
   */
  class TaskList {
    var tasks: seq<Task>

    /** Loads the stored list when there is one, the example tasks otherwise. */
    constructor (stored: Option<seq<Task>>, today: string, tomorrow: string, now: string)
      ensures tasks == (if stored.Some? then stored.value else InitialTasks(today, tomorrow, now))
    {
      tasks := if stored.Some? then stored.value else InitialTasks(today, tomorrow, now);
    }

    /** `addTask`: the new task goes first, the others follow unchanged. */
    method AddTask(id: string, createdAt: string, title: string, dueDate: Option<string>, starred: Option<bool>)
      modifies this
      ensures tasks == [NewTask(id, createdAt, title, dueDate, starred)] + old(tasks)
    {
      tasks := [NewTask(id, createdAt, title, dueDate, starred)] + tasks;
    }

    /** `toggleTask`. */
    method ToggleTask(id: string)
      modifies this
      ensures tasks == ToggleCompleted(old(tasks), id)
    {
      tasks := ToggleCompleted(tasks, id);
    }

    /** `toggleStar`. */
    method ToggleStar(id: string)
      modifies this
      ensures tasks == ToggleStarred(old(tasks), id)
    {
      tasks := ToggleStarred(tasks, id);
    }

    /** `deleteTask`. */
    method DeleteTask(id: string)
      modifies this
      ensures tasks == Remove(old(tasks), id)
    {
      tasks := Remove(tasks, id);
    }

    /** `completedCount`: the number of done tasks. */
    function CompletedCount(): (n: nat)
      reads this
      ensures n <= |tasks|
    {
      |Filter(tasks, CompletedFn())|
    }

    /** `starredCount`: the number of starred tasks not yet done. */
    function StarredCount(): (n: nat)
      reads this
      ensures n <= |tasks|
    {
      |Filter(tasks, PendingStarredFn())|
    }

    /** `totalCount`. */
    function TotalCount(): (n: nat)
      reads this
    {
      |tasks|
    }
  }

  /** No task counts as both done and starred-pending, so the two counts never exceed the total together. */
  lemma CountsWithinTotal(tasks: seq<Task>)
    ensures |Filter(tasks, CompletedFn())| + |Filter(tasks, PendingStarredFn())| <= |tasks|
  {
    FilterDisjointCount(tasks, CompletedFn(), PendingStarredFn());
  }

  /** Adding a task adds one to the total, nothing to the done count, and one to the starred count exactly when it is starred. */
  lemma AddTaskCounts(tasks: seq<Task>, t: Task)
    requires !t.completed
    ensures |Filter([t] + tasks, CompletedFn())| == |Filter(tasks, CompletedFn())|
    ensures |Filter([t] + tasks, PendingStarredFn())| == |Filter(tasks, PendingStarredFn())| + (if t.starred then 1 else 0)
  {
    FilterAppend([t], tasks, CompletedFn());
    FilterAppend([t], tasks, PendingStarredFn());
  }
}
