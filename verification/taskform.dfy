/** The task form: the values it opens with, its validation, and the submit gate. */
module TaskForm {
  import opened Types
  import opened Text
  import DateUtils
  import App

  /** The id field's two messages, of which at most one is shown. */
  datatype IdError = IdRequired | IdNotUnique

  /**
   * The form's error record, one entry per field: the id's message if any, and for every other
   * field whether it carries its message.
   */
  datatype FormErrors = FormErrors(
    id: Option<IdError>,
    description: bool,
    deadlineHours: bool,
    startDate: bool,
    category: bool,
    status: bool)

  /** No field carries a message: the condition under which `validate` passes. */
  predicate NoErrors(e: FormErrors)
  {
    e.id.None? && !e.description && !e.deadlineHours && !e.startDate && !e.category && !e.status
  }

  /** The id field's message, given whether the id counts as taken: blankness is checked first. */
  function IdCheck(id: string, taken: bool): (e: Option<IdError>)
    ensures e == Some(IdRequired) <==> IsBlank(id)
    ensures e == Some(IdNotUnique) <==> !IsBlank(id) && taken
  {
    if Trim(id) == "" then Some(IdRequired) else if taken then Some(IdNotUnique) else None
  }

  /**
   * `validate`. When creating (no `existingTask`), the trimmed id is looked up among the
   * existing ids as they are stored; when editing the lookup is skipped.
   */
  function Validate(task: Task, existingIds: seq<string>, existingTask: Option<Task>): (errors: FormErrors)
    ensures errors.id == Some(IdRequired) <==> IsBlank(task.id)
    ensures errors.id == Some(IdNotUnique) <==>
      !IsBlank(task.id) && existingTask.None? && Trim(task.id) in existingIds
    ensures errors.description <==> IsBlank(task.description)
    ensures errors.deadlineHours <==> task.deadlineHours <= 0
    ensures errors.startDate <==> task.startDate.None?
    ensures errors.category <==> task.category == ""
    ensures errors.status <==> task.status == ""
  {
    FormErrors(
      IdCheck(task.id, existingTask.None? && Trim(task.id) in existingIds),
      Trim(task.description) == "",
      task.deadlineHours <= 0,
      task.startDate.None?,
      task.category == "",
      task.status == "")
  }

  /** What a task must be for the form to accept it. */
  predicate Acceptable(task: Task, existingIds: seq<string>, existingTask: Option<Task>)
  {
    && !IsBlank(task.id)
    && (existingTask.Some? || Trim(task.id) !in existingIds)
    && !IsBlank(task.description)
    && task.deadlineHours > 0
    && task.startDate.Some?
    && task.category != ""
    && task.status != ""
  }

  /** The form records no message exactly for acceptable tasks. */
  lemma ValidateAcceptsExactly(task: Task, existingIds: seq<string>, existingTask: Option<Task>)
    ensures NoErrors(Validate(task, existingIds, existingTask)) <==> Acceptable(task, existingIds, existingTask)
  {
    var errors := Validate(task, existingIds, existingTask);
    if !IsBlank(task.id) && (existingTask.Some? || Trim(task.id) !in existingIds) {
      assert errors.id.None?;
    }
  }

  /** `handleSubmit`: the task goes to `onSave` as entered, untrimmed, exactly when it validates. */
  function HandleSubmit(task: Task, existingIds: seq<string>, existingTask: Option<Task>): (saved: Option<Task>)
    ensures saved.Some? <==> Acceptable(task, existingIds, existingTask)
    ensures saved.Some? ==> saved.value == task
  {
    ValidateAcceptsExactly(task, existingIds, existingTask);
    if NoErrors(Validate(task, existingIds, existingTask)) then Some(task) else None
  }

  /** A task the form accepts ends on a workday no earlier than its start. */
  lemma AcceptedTaskEndsOnWorkday(task: Task, existingIds: seq<string>, existingTask: Option<Task>)
    requires HandleSubmit(task, existingIds, existingTask).Some?
    ensures var end := DateUtils.EndDate(task.startDate, task.deadlineHours);
      end.Some? && task.startDate.value <= end.value && !DateUtils.IsWeekend(end.value)
  {
  }

  /**
   * The form's contents when it opens: the task being edited, or a blank task on the first
   * category and status, one workday's hours, today's date (in UTC), no flags, no completion.
   */
  function FormOnOpen(existingTask: Option<Task>, categories: seq<string>, statuses: seq<string>, today: Day): (t: Task)
    ensures existingTask.Some? ==> t == existingTask.value
    ensures existingTask.None? ==>
      && t.id == "" && t.description == ""
      && t.category == FirstOr(categories) && t.status == FirstOr(statuses)
      && !t.isUrgent && !t.isImportant
      && t.deadlineHours == DateUtils.WorkHoursPerDay
      && t.startDate == Some(today) && t.completionDate.None?
  {
    match existingTask
    case Some(t) => t
    case None => Task("", "", FirstOr(categories), FirstOr(statuses), false, false, 6, Some(today), None)
  }

  /**
   * With clean name lists, "add task" is enabled exactly when a freshly opened form lacks
   * nothing but an id and a description.
   */
  lemma FreshFormNeedsOnlyIdAndDescription(s: App.AppState, today: Day)
    requires App.IsCleanNameList(s.categories) && App.IsCleanNameList(s.statuses)
    ensures !App.IsAddTaskDisabled(s) <==>
      Validate(FormOnOpen(None, s.categories, s.statuses, today), App.TaskIds(s.tasks), None)
        == FormErrors(Some(IdRequired), true, false, false, false, false)
  {
    App.AddTaskEnabledIffDefaultsExist(s);
  }

  // ---- new-task ids: the uniqueness check as evidently intended ----

  /** An id counts as taken when it matches a stored id once both are trimmed. */
  predicate IdTaken(id: string, existingIds: seq<string>)
  {
    exists i :: 0 <= i < |existingIds| && Trim(existingIds[i]) == Trim(id)
  }

  /** `validate` with the uniqueness check comparing trimmed ids on both sides. */
  function ValidateIntended(task: Task, existingIds: seq<string>, existingTask: Option<Task>): (errors: FormErrors)
    ensures errors.id == Some(IdNotUnique) <==>
      !IsBlank(task.id) && existingTask.None? && IdTaken(task.id, existingIds)
    ensures errors.id == Some(IdRequired) <==> IsBlank(task.id)
    ensures errors.(id := None) == Validate(task, existingIds, existingTask).(id := None)
  {
    Validate(task, existingIds, existingTask).(id := IdCheck(task.id, existingTask.None? && IdTaken(task.id, existingIds)))
  }

  /** A new task that passes the intended check is appended: it never replaces a stored task. */
  lemma IntendedCheckNeverOverwrites(s: App.AppState, task: Task)
    requires NoErrors(ValidateIntended(task, App.TaskIds(s.tasks), None))
    ensures !App.HasId(s.tasks, task.id)
    ensures |App.HandleSaveTask(s, task).tasks| == |s.tasks| + 1
    ensures App.HandleSaveTask(s, task).tasks[..|s.tasks|] == s.tasks
  {
  }

  /**
   * The check as written: with a task " A" stored, a new task " A" passes validation (its
   * trimmed id "A" is not stored) and saving it replaces the stored task instead of adding one.
   */
  lemma PaddedIdOverwritesStoredTask()
    ensures NoErrors(Validate(PaddedTask("second"), App.TaskIds(PaddedStore().tasks), None))
    ensures App.HandleSaveTask(PaddedStore(), PaddedTask("second")).tasks == [PaddedTask("second")]
    ensures ValidateIntended(PaddedTask("second"), App.TaskIds(PaddedStore().tasks), None).id == Some(IdNotUnique)
  {
    PaddedStoreIds();
    PaddedTaskValidates(App.TaskIds(PaddedStore().tasks));
    PaddedSaveReplaces();
    PaddedIdIsTaken(App.TaskIds(PaddedStore().tasks));
  }

  lemma PaddedStoreIds()
    ensures App.TaskIds(PaddedStore().tasks) == [" A"]
  {
    var ids := App.TaskIds(PaddedStore().tasks);
    assert |ids| == 1 && ids[0] == " A";
  }

  lemma PaddedSaveReplaces()
    ensures App.HandleSaveTask(PaddedStore(), PaddedTask("second")).tasks == [PaddedTask("second")]
  {
    assert App.HasId(PaddedStore().tasks, " A") by { assert PaddedStore().tasks[0].id == " A"; }
    var r := App.HandleSaveTask(PaddedStore(), PaddedTask("second")).tasks;
    assert |r| == 1 && r[0] == PaddedTask("second");
  }

  lemma PaddedIdIsTaken(ids: seq<string>)
    requires ids == [" A"]
    ensures ValidateIntended(PaddedTask("second"), ids, None).id == Some(IdNotUnique)
  {
    PaddedIdTrimsToA();
    assert Trim(ids[0]) == Trim(" A");
  }

  /** A store holding one task, " A". */
  function PaddedStore(): App.AppState
  {
    App.AppState([PaddedTask("first")], ["Work"], ["Todo"])
  }

  lemma PaddedTaskValidates(ids: seq<string>)
    requires ids == [" A"]
    ensures NoErrors(Validate(PaddedTask("second"), ids, None))
  {
    PaddedIdTrimsToA();
    PaddedDescriptionsNotBlank();
  }

  /** A complete task whose id " A" carries a leading space. */
  function PaddedTask(description: string): Task
  {
    Task(" A", description, "Work", "Todo", false, false, 6, Some(0), None)
  }

  /** The example's id " A" is not blank, and trims to "A". */
  lemma PaddedIdTrimsToA()
    ensures Trim(" A") == "A" && !IsBlank(" A")
  {
    assert !IsWhitespace("A"[0]);
    assert " A"[1..] == "A";
    assert LeadingWhitespace(" A") == 1;
    assert !IsWhitespace(" A"[1]);
  }

  /** The example tasks' descriptions are not blank. */
  lemma PaddedDescriptionsNotBlank()
    ensures !IsBlank("first") && !IsBlank("second")
  {
    assert !IsWhitespace("first"[0]);
    assert !IsWhitespace("second"[0]);
  }
}
