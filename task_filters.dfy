/**
 * The task page's filter tabs: which tasks each tab shows, and how the
 * chosen tab is kept in the page's `filter` query parameter.
 */
module TaskFilters {
  import opened Wrappers
  import opened Lists
  import opened Tasks

  /** The four tabs. */
  datatype FilterType = All | Active | Done | Starred

  function FilterName(f: FilterType): (s: string)
    ensures s != ""
  {
    match f
    case All => "all"
    case Active => "active"
    case Done => "completed"
    case Starred => "starred"
  }

  function PendingFn(): Task -> bool {
    (t: Task) => !t.completed
  }

  function StarredFn(): Task -> bool {
    (t: Task) => t.starred
  }

  /**
   * `filteredTasks`: the switch on the active filter. The filter comes
   * from the query string unchecked, so any text can arrive here; the
   * ones that are not a tab name show every task.
   */
  function FilteredTasks(tasks: seq<Task>, active: string): (r: seq<Task>)
    ensures active == "active" ==> forall t :: t in r <==> t in tasks && !t.completed
    ensures active == "completed" ==> forall t :: t in r <==> t in tasks && t.completed
    ensures active == "starred" ==> forall t :: t in r <==> t in tasks && t.starred
    ensures active !in {"active", "completed", "starred"} ==> r == tasks
  {
    if active == "active" then Filter(tasks, PendingFn())
    else if active == "completed" then Filter(tasks, CompletedFn())
    else if active == "starred" then Filter(tasks, StarredFn())
    else tasks
  }

  /** Every tab keeps the tasks in the order of the list. */
  lemma FilteredKeepsOrder(tasks: seq<Task>, active: string)
    ensures Subsequence(FilteredTasks(tasks, active), tasks)
  {
    if active == "active" {
      FilterSubsequence(tasks, PendingFn());
    } else if active == "completed" {
      FilterSubsequence(tasks, CompletedFn());
    } else if active == "starred" {
      FilterSubsequence(tasks, StarredFn());
    } else {
      SubsequenceRefl(tasks);
    }
  }

  /** A list is a subsequence of itself. */
  lemma {:induction false} SubsequenceRefl(s: seq<Task>)
    ensures Subsequence(s, s)
    decreases |s|
  {
    if s != [] {
      SubsequenceRefl(s[1..]);
    }
  }

  /** The active and done tabs split the list: each task is on exactly one of them, as often as it is in the list. */
  lemma ActiveAndDonePartition(tasks: seq<Task>)
    ensures multiset(FilteredTasks(tasks, "active")) + multiset(FilteredTasks(tasks, "completed")) == multiset(tasks)
  {
    FilterPartition(tasks, PendingFn(), CompletedFn());
  }

  // ---------------------------------------------------------------------
  // The query string

  /** The query parameters, in order; a name may occur more than once. */
  type Params = seq<(string, string)>

  function KeyIsNotFn(name: string): ((string, string)) -> bool {
    (e: (string, string)) => e.0 != name
  }

  /** `searchParams.get(name)`: the first value given for the name. */
  function GetParam(ps: Params, name: string): (r: Option<string>)
    ensures r.None? <==> forall k :: 0 <= k < |ps| ==> ps[k].0 != name
    ensures r.Some? ==> exists k :: 0 <= k < |ps| && ps[k] == (name, r.value) && forall j :: 0 <= j < k ==> ps[j].0 != name
  {
    if ps == [] then None
    else if ps[0].0 == name then Some(ps[0].1)
    else
      var r := GetParam(ps[1..], name);
      if r.Some? then
        var k :| 0 <= k < |ps[1..]| && ps[1..][k] == (name, r.value) && forall j :: 0 <= j < k ==> ps[1..][j].0 != name;
        assert ps[k + 1] == (name, r.value) && forall j :: 0 <= j < k + 1 ==> ps[j].0 != name;
        r
      else r
  }

  /** `searchParams.delete(name)`: every entry with the name goes, the others stay in order. */
  function DeleteParam(ps: Params, name: string): (r: Params)
    ensures forall e :: e in r <==> e in ps && e.0 != name
  {
    Filter(ps, KeyIsNotFn(name))
  }

  /** The first entry with the name gets the value and later ones go; used by `set` when the name is present. */
  function ReplaceFirst(ps: Params, name: string, value: string): (r: Params)
    ensures (forall k :: 0 <= k < |ps| ==> ps[k].0 != name) ==> r == ps
  {
    if ps == [] then []
    else if ps[0].0 == name then [(name, value)] + DeleteParam(ps[1..], name)
    else [ps[0]] + ReplaceFirst(ps[1..], name, value)
  }

  /** `searchParams.set(name, value)`: replace the first entry for the name and drop the rest, or append one. */
  function SetParam(ps: Params, name: string, value: string): Params {
    if GetParam(ps, name).Some? then ReplaceFirst(ps, name, value) else ps + [(name, value)]
  }

  /** After `delete` the name has no value; other names keep theirs. */
  lemma {:induction false} DeleteParamGet(ps: Params, name: string, other: string)
    ensures GetParam(DeleteParam(ps, name), name).None?
    ensures other != name ==> GetParam(DeleteParam(ps, name), other) == GetParam(ps, other)
    decreases |ps|
  {
    if ps != [] {
      DeleteParamGet(ps[1..], name, other);
      var rest := DeleteParam(ps[1..], name);
      if ps[0].0 == name {
        assert DeleteParam(ps, name) == rest;
      } else {
        assert DeleteParam(ps, name) == [ps[0]] + rest;
        assert ([ps[0]] + rest)[1..] == rest;
      }
    }
  }

  /** After `set` the name reads back the value; other names keep theirs. */
  lemma {:induction false} ReplaceFirstGet(ps: Params, name: string, value: string, other: string)
    requires GetParam(ps, name).Some?
    ensures GetParam(ReplaceFirst(ps, name, value), name) == Some(value)
    ensures other != name ==> GetParam(ReplaceFirst(ps, name, value), other) == GetParam(ps, other)
    decreases |ps|
  {
    if ps[0].0 == name {
      if other != name {
        DeleteParamGet(ps[1..], name, other);
      }
    } else {
      ReplaceFirstGet(ps[1..], name, value, other);
    }
  }

  /** Appending an entry for a name that has none makes it read back; other names are unaffected. */
  lemma {:induction false} AppendGet(ps: Params, name: string, value: string, other: string)
    requires GetParam(ps, name).None?
    ensures GetParam(ps + [(name, value)], name) == Some(value)
    ensures other != name ==> GetParam(ps + [(name, value)], other) == GetParam(ps, other)
    decreases |ps|
  {
    if ps != [] {
      assert (ps + [(name, value)])[1..] == ps[1..] + [(name, value)];
      AppendGet(ps[1..], name, value, other);
    }
  }

  /** `set` followed by `get` gives back the value, and leaves other names alone. */
  lemma SetParamGet(ps: Params, name: string, value: string, other: string)
    ensures GetParam(SetParam(ps, name, value), name) == Some(value)
    ensures other != name ==> GetParam(SetParam(ps, name, value), other) == GetParam(ps, other)
  {
    if GetParam(ps, name).Some? {
      ReplaceFirstGet(ps, name, value, other);
    } else {
      AppendGet(ps, name, value, other);
    }
  }

  /** `(searchParams.get("filter") as FilterType) || "all"`: a missing or empty parameter means all. */
  function InitialFilter(param: Option<string>): (f: string)
    ensures f != ""
    ensures param.Some? && param.value != "" ==> f == param.value
  {
    if param.Some? && param.value != "" then param.value else "all"
  }

  /** The parameters after choosing a tab: `all` deletes `filter`, any other tab sets it. */
  function ParamsAfterChoice(ps: Params, f: FilterType): Params {
    if f == All then DeleteParam(ps, "filter") else SetParam(ps, "filter", FilterName(f))
  }

  /**
   * The address keeps the tab: reloading the page with the parameters a
   * choice left behind starts on the tab that was chosen, and the other
   * parameters are as they were.
   */
  lemma ReloadKeepsTab(ps: Params, f: FilterType, other: string)
    ensures InitialFilter(GetParam(ParamsAfterChoice(ps, f), "filter")) == FilterName(f)
    ensures other != "filter" ==> GetParam(ParamsAfterChoice(ps, f), other) == GetParam(ps, other)
  {
    if f == All {
      DeleteParamGet(ps, "filter", other);
    } else {
      SetParamGet(ps, "filter", FilterName(f), other);
    }
  }

  /** The page's state: the active tab and the query parameters it writes to. */
  class TasksPage {
    var activeFilter: string
    var searchParams: Params

    /** The tab starts from the query string. */
    constructor (params: Params)
      ensures searchParams == params && activeFilter == InitialFilter(GetParam(params, "filter"))
    {
      searchParams := params;
      activeFilter := InitialFilter(GetParam(params, "filter"));
    }

    /** `handleFilterChange`: switch tab and record it in the query string. */
    method HandleFilterChange(f: FilterType)
      modifies this
      ensures activeFilter == FilterName(f)
      ensures searchParams == ParamsAfterChoice(old(searchParams), f)
    {
      activeFilter := FilterName(f);
      if f == All {
        searchParams := DeleteParam(searchParams, "filter");
      } else {
        searchParams := SetParam(searchParams, "filter", FilterName(f));
      }
    }

  }
}
