/**
 * The application's state transformers: adding and deleting categories and statuses, saving
 * and deleting tasks, and the rule that disables "add task". Persistence is left to the caller.
 */
module App {
  import opened Types
  import opened Text
  import opened Seqs
  import Settings

  /** The three persisted collections. */
  datatype AppState = AppState(tasks: seq<Task>, categories: seq<string>, statuses: seq<string>)

  /** Every category and status a task names is in the corresponding list. */
  predicate ReferencesResolve(s: AppState)
  {
    forall i :: 0 <= i < |s.tasks| ==>
      s.tasks[i].category in s.categories && s.tasks[i].status in s.statuses
  }

  /** A name list as additions keep it: no empty entry and no two entries equal up to case. */
  predicate IsCleanNameList(names: seq<string>)
  {
    DistinctIgnoringCase(names) && forall i :: 0 <= i < |names| ==> names[i] != ""
  }

  // ---- categories and statuses ----

  /**
   * The add rule shared by categories and statuses: a non-empty name that matches no entry up
   * to case goes at the end; anything else leaves the list as it was.
   */
  function AddName(names: seq<string>, name: string): (r: seq<string>)
    ensures |names| <= |r| <= |names| + 1 && r[..|names|] == names
    ensures |r| == |names| + 1 <==> name != "" && !ContainsIgnoringCase(names, name)
    ensures |r| == |names| + 1 ==> r[|names|] == name
  {
    if name != "" && !ContainsIgnoringCase(names, name) then names + [name] else names
  }

  /** Adding keeps a name list clean, and adding the same name twice is adding it once. */
  lemma AddNameKeepsListClean(names: seq<string>, name: string)
    requires IsCleanNameList(names)
    ensures IsCleanNameList(AddName(names, name))
    ensures AddName(AddName(names, name), name) == AddName(names, name)
  {
    var r := AddName(names, name);
    if |r| == |names| + 1 {
      forall i, j | 0 <= i < j < |r|
        ensures !SameIgnoringCase(r[i], r[j])
      {
        if j == |names| {
          assert r[i] == names[i];
        }
      }
      assert SameIgnoringCase(r[|names|], name);
    }
  }

  function HandleAddCategory(s: AppState, name: string): (r: AppState)
    ensures r.tasks == s.tasks && r.statuses == s.statuses
    ensures r.categories == AddName(s.categories, name)
  {
    s.(categories := AddName(s.categories, name))
  }

  function HandleAddStatus(s: AppState, name: string): (r: AppState)
    ensures r.tasks == s.tasks && r.categories == s.categories
    ensures r.statuses == AddName(s.statuses, name)
  {
    s.(statuses := AddName(s.statuses, name))
  }

  /** The list without every entry exactly equal to `name`; entries differing in case stay. */
  function RemoveName(names: seq<string>, name: string): (r: seq<string>)
    ensures name !in r
    ensures forall x :: x != name ==> multiset(r)[x] == multiset(names)[x]
  {
    FilterCounts(x => x != name, names);
    Filter(x => x != name, names)
  }

  /** Removal keeps the order of what it keeps: it distributes over concatenation. */
  lemma RemoveNameKeepsOrder(a: seq<string>, b: seq<string>, name: string)
    ensures RemoveName(a + b, name) == RemoveName(a, name) + RemoveName(b, name)
  {
    FilterConcat(x => x != name, a, b);
  }

  /** The outcome of a category or status deletion: `refused` is the in-use notice. */
  datatype DeleteResult = DeleteResult(state: AppState, refused: bool)

  /**
   * `handleDeleteCategory`: refused, changing nothing, while some task's category equals the
   * name exactly; otherwise every entry equal to the name goes.
   */
  function HandleDeleteCategory(s: AppState, name: string): (r: DeleteResult)
    ensures r.refused <==> exists i :: 0 <= i < |s.tasks| && s.tasks[i].category == name
    ensures r.state.tasks == s.tasks && r.state.statuses == s.statuses
    ensures r.refused ==> r.state.categories == s.categories
    ensures !r.refused ==> r.state.categories == RemoveName(s.categories, name)
  {
    if Settings.IsItemInUse(s.tasks, CategoryItem, name) then DeleteResult(s, true)
    else DeleteResult(s.(categories := RemoveName(s.categories, name)), false)
  }

  /** `handleDeleteStatus`: the same rule over task statuses. */
  function HandleDeleteStatus(s: AppState, name: string): (r: DeleteResult)
    ensures r.refused <==> exists i :: 0 <= i < |s.tasks| && s.tasks[i].status == name
    ensures r.state.tasks == s.tasks && r.state.categories == s.categories
    ensures r.refused ==> r.state.statuses == s.statuses
    ensures !r.refused ==> r.state.statuses == RemoveName(s.statuses, name)
  {
    if Settings.IsItemInUse(s.tasks, StatusItem, name) then DeleteResult(s, true)
    else DeleteResult(s.(statuses := RemoveName(s.statuses, name)), false)
  }

  /** No deletion ever takes away a category or status a task still names. */
  lemma DeleteKeepsReferencesResolved(s: AppState, name: string)
    requires ReferencesResolve(s)
    ensures ReferencesResolve(HandleDeleteCategory(s, name).state)
    ensures ReferencesResolve(HandleDeleteStatus(s, name).state)
  {
    var c := HandleDeleteCategory(s, name).state;
    forall i | 0 <= i < |s.tasks|
      ensures s.tasks[i].category in c.categories
    {
      var x := s.tasks[i].category;
      if x != name {
        assert multiset(c.categories)[x] == multiset(s.categories)[x];
      }
    }
    var t := HandleDeleteStatus(s, name).state;
    forall i | 0 <= i < |s.tasks|
      ensures s.tasks[i].status in t.statuses
    {
      var x := s.tasks[i].status;
      if x != name {
        assert multiset(t.statuses)[x] == multiset(s.statuses)[x];
      }
    }
  }

  /** A name the settings section hands on is appended to its list. */
  lemma SettingsAddIsAppended(input: string, names: seq<string>)
    requires Settings.HandleAddItem(input, names).added.Some?
    ensures AddName(names, Settings.HandleAddItem(input, names).added.value)
         == names + [Settings.HandleAddItem(input, names).added.value]
  {
    var name := Settings.HandleAddItem(input, names).added.value;
    Settings.AddedNameIsClean(input, names);
    var r := AddName(names, name);
    assert r == r[..|names|] + [r[|names|]];
  }

  /** A section's delete button is disabled exactly when the deletion would be refused. */
  lemma DisabledDeleteMatchesRefusal(s: AppState, name: string)
    requires name in s.categories || name in s.statuses
    ensures name in s.categories ==>
      (Settings.IsItemInUse(s.tasks, CategoryItem, name) <==> HandleDeleteCategory(s, name).refused)
    ensures name in s.statuses ==>
      (Settings.IsItemInUse(s.tasks, StatusItem, name) <==> HandleDeleteStatus(s, name).refused)
  {
  }

  // ---- tasks ----

  predicate HasId(tasks: seq<Task>, id: string)
  {
    exists i :: 0 <= i < |tasks| && tasks[i].id == id
  }

  /** The tasks' ids, in order: what the form is given to check a new id against. */
  function TaskIds(tasks: seq<Task>): (ids: seq<string>)
    ensures |ids| == |tasks|
    ensures forall i :: 0 <= i < |tasks| ==> ids[i] == tasks[i].id
  {
    seq(|tasks|, i requires 0 <= i < |tasks| => tasks[i].id)
  }

  /** No two tasks share an id. */
  predicate UniqueIds(tasks: seq<Task>)
  {
    forall i, j :: 0 <= i < j < |tasks| ==> tasks[i].id != tasks[j].id
  }

  /**
   * A new task as it is stored: an empty category or status becomes the first entry of its
   * list, or stays empty when the list is.
   */
  function WithDefaults(task: Task, categories: seq<string>, statuses: seq<string>): (t: Task)
    ensures t.(category := task.category, status := task.status) == task
    ensures task.category != "" ==> t.category == task.category
    ensures task.category == "" ==> t.category == FirstOr(categories)
    ensures task.status != "" ==> t.status == task.status
    ensures task.status == "" ==> t.status == FirstOr(statuses)
  {
    task.(category := if task.category != "" then task.category else FirstOr(categories),
          status := if task.status != "" then task.status else FirstOr(statuses))
  }

  /**
   * `handleSaveTask`: a task whose id is already present replaces every task with that id in
   * place; a task with a new id is appended with its defaults filled in.
   */
  function HandleSaveTask(s: AppState, task: Task): (r: AppState)
    ensures r.categories == s.categories && r.statuses == s.statuses
    ensures HasId(s.tasks, task.id) ==>
      && |r.tasks| == |s.tasks|
      && forall i :: 0 <= i < |s.tasks| ==>
           r.tasks[i] == if s.tasks[i].id == task.id then task else s.tasks[i]
    ensures !HasId(s.tasks, task.id) ==>
      r.tasks == s.tasks + [WithDefaults(task, s.categories, s.statuses)]
  {
    if HasId(s.tasks, task.id) then
      s.(tasks := seq(|s.tasks|, i requires 0 <= i < |s.tasks| =>
                       if s.tasks[i].id == task.id then task else s.tasks[i]))
    else
      s.(tasks := s.tasks + [WithDefaults(task, s.categories, s.statuses)])
  }

  /** Saving keeps ids unique, and afterwards the saved id is present. */
  lemma SaveKeepsIdsUnique(s: AppState, task: Task)
    requires UniqueIds(s.tasks)
    ensures UniqueIds(HandleSaveTask(s, task).tasks)
    ensures HasId(HandleSaveTask(s, task).tasks, task.id)
  {
    var r := HandleSaveTask(s, task);
    if HasId(s.tasks, task.id) {
      var k :| 0 <= k < |s.tasks| && s.tasks[k].id == task.id;
      assert r.tasks[k].id == task.id;
    } else {
      assert r.tasks[|s.tasks|].id == task.id;
    }
  }

  /** Editing leaves the list of ids exactly as it was. */
  lemma SaveExistingKeepsIds(s: AppState, task: Task)
    requires HasId(s.tasks, task.id)
    ensures var r := HandleSaveTask(s, task).tasks;
      forall i :: 0 <= i < |r| ==> r[i].id == s.tasks[i].id
  {
  }

  /** The tasks without those carrying `id`, the rest in their order. */
  function RemoveTask(tasks: seq<Task>, id: string): (r: seq<Task>)
    ensures !HasId(r, id)
    ensures forall t: Task :: t.id != id ==> multiset(r)[t] == multiset(tasks)[t]
  {
    var p := (t: Task) => t.id != id;
    FilterCounts(p, tasks);
    var r := Filter(p, tasks);
    assert forall i :: 0 <= i < |r| ==> r[i] in r;
    r
  }

  /** Removing a task keeps the other tasks in their order: it distributes over concatenation. */
  lemma RemoveTaskKeepsOrder(a: seq<Task>, b: seq<Task>, id: string)
    ensures RemoveTask(a + b, id) == RemoveTask(a, id) + RemoveTask(b, id)
  {
    FilterConcat((t: Task) => t.id != id, a, b);
  }

  /** `handleDeleteTask`: with no task selected nothing changes; otherwise its id goes. */
  function HandleDeleteTask(s: AppState, selected: Option<Task>): (r: AppState)
    ensures r.categories == s.categories && r.statuses == s.statuses
    ensures selected.None? ==> r == s
    ensures selected.Some? ==> r.tasks == RemoveTask(s.tasks, selected.value.id)
  {
    match selected
    case None => s
    case Some(t) => s.(tasks := RemoveTask(s.tasks, t.id))
  }

  /** Deleting what was just created by saving a task with a new id gives the old tasks back. */
  lemma SaveNewThenDelete(s: AppState, task: Task)
    requires !HasId(s.tasks, task.id)
    ensures HandleDeleteTask(HandleSaveTask(s, task), Some(task)) == s
  {
    var saved := WithDefaults(task, s.categories, s.statuses);
    FilterConcat((t: Task) => t.id != task.id, s.tasks, [saved]);
    FilterAll((t: Task) => t.id != task.id, s.tasks);
  }

  /**
   * `isAddTaskDisabled`: a task needs a category and a status, so "add task" is off while
   * either list is empty. When it is on, a new task's defaults are the lists' first entries.
   */
  function IsAddTaskDisabled(s: AppState): (disabled: bool)
    ensures disabled <==> s.categories == [] || s.statuses == []
    ensures !disabled ==> FirstOr(s.categories) == s.categories[0] && FirstOr(s.statuses) == s.statuses[0]
  {
    |s.categories| == 0 || |s.statuses| == 0
  }

  /**
   * With clean name lists, "add task" is enabled exactly when a new task gets a non-empty
   * default category and status.
   */
  lemma AddTaskEnabledIffDefaultsExist(s: AppState)
    requires IsCleanNameList(s.categories) && IsCleanNameList(s.statuses)
    ensures !IsAddTaskDisabled(s) <==> FirstOr(s.categories) != "" && FirstOr(s.statuses) != ""
  {
    if |s.categories| > 0 {
      assert s.categories[0] != "";
    }
    if |s.statuses| > 0 {
      assert s.statuses[0] != "";
    }
  }
}
