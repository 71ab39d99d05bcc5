# Task tracker core in Dafny

A model of the logic inside a single-user task tracker. Tasks are grouped under user-defined
categories and statuses. The model covers:

- the workday calendar: which days are weekends, the end date of a task with an hours budget
  (six work-hours per weekday), and the workdays left from today to a target date;
- the category and status lists: case-insensitive duplicate checks on add, and a guard that
  refuses to delete a name some task still uses;
- the task collection: save as upsert by id, delete by id, and the rule that disables "add task";
- the task form: the values it opens with, field validation, and the submit gate;
- the task table: the empty state, and a stable sort by start date.

Dates are day numbers. Day 0 is Thursday 1970-01-01, and `DayOfWeek` numbers days the way
`getDay` does (0 = Sunday). A blank date field is `None`. "Today" is a parameter. Every
component is a pure function over immutable sequences. The application state is the record
`App.AppState`. The form's error object, keyed by field name, is the record
`TaskForm.FormErrors`: the id's message if any, and for every other field whether it has one.

Files and modules follow the source:

- `types.dfy` (`Types`): the task record.
- `text.dfy` (`Text`): `trim` and case folding.
- `seqs.dfy` (`Seqs`): `filter`.
- `dateutils.dfy` (`DateUtils`): `utils/dateUtils.ts`.
- `settings.dfy` (`Settings`): `components/SettingsSection.tsx`.
- `app.dfy` (`App`): `App.tsx`.
- `taskform.dfy` (`TaskForm`): `components/TaskFormModal.tsx`.
- `tasklist.dfy` (`TaskList`): `components/TaskList.tsx`.

Both loops of `calculateEndDate` and the loop of `calculateRemainingWorkdays` are methods.
Their invariants tie them to two reference definitions:

- `CountWorkdays`: the number of Monday-to-Friday days in an inclusive range;
- `NthWorkday`: the n-th workday counted from a given workday.

Two behaviours of the code worth knowing:

- A six-hour task that starts on Saturday 2024-06-08 ends on Tuesday 2024-06-11 (see Findings).
- When today is the target date and a weekday, one workday remains.

## Model

| member | source | states |
|---|---|---|
| DateUtils.WeekendDays | utils/dateUtils.ts:5-8 | `isWeekend` holds exactly for the days `getDay` numbers 0 and 6: Sundays and Saturdays, which are the day numbers congruent to 3 and 2 modulo 7 |
| DateUtils.WorkdaysNeeded | utils/dateUtils.ts:24 | the workdays needed are the ceiling of hours over six: at least one, with (n-1)*6 < hours <= n*6 |
| DateUtils.FirstWorkday | utils/dateUtils.ts:33-36 | the weekend-skipping loop stops on the first workday at or after the start, at most two days later; every day it passes is a weekend day |
| DateUtils.NthWorkday | utils/dateUtils.ts:38-43 | the n-th workday counted from a workday is a workday no earlier than that workday, and [that workday, it] holds exactly n workdays |
| DateUtils.EndDate | utils/dateUtils.ts:17-46 | an empty start stays invalid; a budget of zero hours or less returns the start unchanged; otherwise the end is a workday on or after the start |
| DateUtils.CalculateEndDate | utils/dateUtils.ts:17-46 | the two day-by-day loops return exactly the end date that EndDate defines |
| DateUtils.EndDateFromWeekday | utils/dateUtils.ts:24-43 | from a weekday start, [start, end] holds exactly ceil(hours/6) workdays, and every earlier day holds fewer |
| DateUtils.EndDateWithinOneDay | utils/dateUtils.ts:28-31 | from a weekday start, a budget of at most six hours ends on the start day |
| DateUtils.EndDateFromWeekend | utils/dateUtils.ts:29-43 | from a weekend start, [start, end] holds ceil(hours/6) + 1 workdays, every earlier day holds fewer, and the end falls after the Monday reached first |
| DateUtils.EndDateMonotone | utils/dateUtils.ts:24-43 | for a fixed start, more hours never give an earlier end date |
| DateUtils.RemainingWorkdays | utils/dateUtils.ts:54-78 | the count `calculateRemainingWorkdays` returns: 0 for an invalid target or one before today, and otherwise at most the number of days from today to the target, both counted |
| DateUtils.CalculateRemainingWorkdays | utils/dateUtils.ts:54-78 | the loop returns the number of workdays in [today, target]: 0 for an invalid target or a past target, and 1 when the target is today and today is a weekday |
| DateUtils.RemainingOnStartDay | utils/dateUtils.ts:65-77 | on a weekday start date, the remaining workdays up to the task's end date equal ceil(hours/6) |
| DateUtils.RemainingMonotone | utils/dateUtils.ts:65-77 | the remaining workdays never decrease as the target moves later |
| DateUtils.RemainingNextDay | utils/dateUtils.ts:68-73 | each workday that passes before the target takes one off the remaining count; a weekend day takes nothing |
| DateUtils.FiveWorkdaysPerWeek | utils/dateUtils.ts:5-8 | any seven consecutive days hold exactly five non-weekend days |
| DateUtils.WorkedDateWeekdays | utils/dateUtils.ts:5-8 | 2024-06-03 is a Monday, 2024-06-07 a Friday and 2024-06-08 a Saturday |
| DateUtils.WorkedDateMondaySixHours | utils/dateUtils.ts:17-46 | Monday 2024-06-03 with 6 hours ends the same day |
| DateUtils.WorkedDateMondayTwelveHours | utils/dateUtils.ts:17-46 | Monday 2024-06-03 with 12 hours ends on Tuesday 2024-06-04 |
| DateUtils.WorkedDateFridayTwelveHours | utils/dateUtils.ts:17-46 | Friday 2024-06-07 with 12 hours ends on Monday 2024-06-10 |
| DateUtils.WorkedDateOverdue | utils/dateUtils.ts:61-63 | a target of yesterday leaves no remaining workdays |
| DateUtils.IntendedEndDate | utils/dateUtils.ts:28-36 | the corrected end date: empty start and non-positive budget as before, otherwise a workday on or after the start |
| DateUtils.IntendedEndDateCountsFromStart | utils/dateUtils.ts:28-43 | with the correction, [start, end] holds exactly ceil(hours/6) workdays from any start day, and every earlier day holds fewer |
| DateUtils.IntendedEndDateOnWeekdays | utils/dateUtils.ts:28-31 | the correction changes nothing for weekday starts |
| DateUtils.WeekendStartOvershoots | utils/dateUtils.ts:29-43 | as written, Saturday 2024-06-08 with 6 hours ends on Tuesday 2024-06-11; that range holds two workdays for a one-workday budget, and the correction ends on Monday |
| Text.Trim | components/SettingsSection.tsx:24-32 | `trim` gives a string that neither starts nor ends with whitespace; what it cuts on either side is whitespace; it is empty exactly when the input is blank |
| Text.TrimIdempotent | components/SettingsSection.tsx:32 | trimming twice equals trimming once, and trimming leaves a string unchanged exactly when it is already trimmed |
| Seqs.FilterCounts | App.tsx:34 | `filter` keeps every occurrence of an element that passes the test and none of one that fails it |
| Seqs.FilterConcat | App.tsx:93 | `filter` distributes over concatenation, so what it keeps stays in its order |
| Settings.IsItemInUse | components/SettingsSection.tsx:37-39 | an item is in use exactly when some task's category (or status) equals it, with an exact, case-sensitive match |
| Settings.HandleAddItem | components/SettingsSection.tsx:23-35 | a blank input gives the empty-name error; otherwise a case-insensitive duplicate gives the duplicate error; only one error at a time; otherwise the trimmed name is passed on and input and error are cleared; on an error the input is kept |
| Settings.AddedNameIsClean | components/SettingsSection.tsx:23-32 | any name passed on is non-empty, has no leading or trailing whitespace, and is no case-insensitive duplicate of an item |
| Settings.RenderItems | components/SettingsSection.tsx:66-83 | no items give the placeholder; otherwise there is one chip per item, in order, and its delete button is disabled exactly when some task uses the item |
| App.AddName | App.tsx:22-26 | the list grows by exactly one, at the end, keeping the old prefix, exactly when the name is non-empty and matches no entry up to case; otherwise it is unchanged |
| App.AddNameKeepsListClean | App.tsx:22-26 | adding keeps a list free of empty names and of case-insensitive duplicates, and adding the same name twice is the same as adding it once |
| App.HandleAddCategory | App.tsx:22-26 | only the category list changes, by the add rule |
| App.HandleAddStatus | App.tsx:38-42 | only the status list changes, by the add rule |
| App.RemoveName | App.tsx:34 | removal drops every entry exactly equal to the name, and keeps every other entry with its multiplicity, including entries that differ only in case |
| App.RemoveNameKeepsOrder | App.tsx:34 | removal distributes over concatenation, so the entries kept stay in their order |
| App.HandleDeleteCategory | App.tsx:28-35 | the delete is refused exactly when some task's category equals the name; a refused delete changes nothing; otherwise only the category list changes, by removal |
| App.HandleDeleteStatus | App.tsx:44-51 | the delete is refused exactly when some task's status equals the name; a refused delete changes nothing; otherwise only the status list changes, by removal |
| App.DeleteKeepsReferencesResolved | App.tsx:28-51 | if every task's category and status is listed before a delete, it still is afterwards |
| App.SettingsAddIsAppended | App.tsx:22-26 | a name that the settings section passes on is appended to the list |
| App.DisabledDeleteMatchesRefusal | components/SettingsSection.tsx:68-74 | for a listed item, the delete button is disabled exactly when the app would refuse the delete |
| App.TaskIds | App.tsx:131 | the ids passed to the form are the tasks' ids, one per task, in order |
| App.WithDefaults | App.tsx:73-77 | a new task keeps every field except an empty category or status, which becomes the first list entry, or '' when the list is empty |
| App.HandleSaveTask | App.tsx:68-81 | a task whose id is present replaces, in place, every task with that id; the length and all other tasks stay the same; a task with a new id is appended with its defaults; the lists are untouched |
| App.SaveKeepsIdsUnique | App.tsx:68-79 | saving keeps task ids unique, and the saved id is present afterwards |
| App.SaveExistingKeepsIds | App.tsx:69-71 | saving under an existing id keeps the sequence of ids unchanged |
| App.RemoveTask | App.tsx:93 | no task with the id remains, and every other task keeps its multiplicity |
| App.RemoveTaskKeepsOrder | App.tsx:93 | removing a task distributes over concatenation, so the other tasks stay in their order |
| App.HandleDeleteTask | App.tsx:91-96 | with no task selected nothing changes; otherwise only the tasks with the selected id are removed |
| App.SaveNewThenDelete | App.tsx:68-96 | deleting a task just created with a new id gives back the previous tasks |
| App.IsAddTaskDisabled | App.tsx:98 | "add task" is disabled exactly when the category list or the status list is empty; when it is enabled, a new task's defaults are the first entries of the lists |
| App.AddTaskEnabledIffDefaultsExist | App.tsx:98 | with clean lists, "add task" is enabled exactly when a new task gets a non-empty default category and status |
| TaskForm.IdCheck | components/TaskFormModal.tsx:47-50 | the id field says "required" exactly when the id is blank, and "not unique" exactly when it is not blank and taken; it never shows both |
| TaskForm.Validate | components/TaskFormModal.tsx:45-59 | each field carries its message exactly under its condition (a blank description, hours <= 0, an empty start date, an empty category, an empty status); when creating, the trimmed id is looked up among the stored ids; when editing, that lookup is skipped |
| TaskForm.ValidateAcceptsExactly | components/TaskFormModal.tsx:45-58 | no error is recorded exactly when the task is acceptable |
| TaskForm.HandleSubmit | components/TaskFormModal.tsx:61-66 | the task is passed on exactly when it is acceptable, and it is passed on as entered, without trimming |
| TaskForm.AcceptedTaskEndsOnWorkday | components/TaskFormModal.tsx:52-53 | a task the form accepts has an end date that is a workday on or after its start |
| TaskForm.FormOnOpen | components/TaskFormModal.tsx:16-41 | when editing, the form opens on that task; when creating, it opens blank, on the first category and status (or ''), with 6 hours, not urgent, not important, starting today, with no completion date |
| TaskForm.FreshFormNeedsOnlyIdAndDescription | components/TaskFormModal.tsx:16-59 | with clean lists, "add task" is enabled exactly when a new form lacks only an id and a description |
| TaskForm.ValidateIntended | components/TaskFormModal.tsx:47-50 | the corrected check: an id is taken when it matches a stored id after both are trimmed; every other error is as in Validate |
| TaskForm.IntendedCheckNeverOverwrites | components/TaskFormModal.tsx:47-50 | a new task that passes the corrected check has a new id, so saving appends it and never replaces a stored task |
| TaskForm.PaddedIdOverwritesStoredTask | components/TaskFormModal.tsx:47-50 | as written, with a task " A" stored, a new task " A" passes validation and saving it replaces the stored task; the corrected check rejects it |
| TaskList.Insert | components/TaskList.tsx:21 | inserting adds the task to the multiset of tasks and keeps a sorted list sorted |
| TaskList.InsertIsStable | components/TaskList.tsx:21 | insertion keeps the new task ahead of the tasks that share its start date |
| TaskList.SortByStart | components/TaskList.tsx:21 | the sorted rows are a permutation of the tasks, in non-decreasing start-date order |
| TaskList.SortIsStable | components/TaskList.tsx:21 | tasks that share a start date keep their relative order |
| TaskList.Render | components/TaskList.tsx:12-43 | no tasks give the empty-state message; otherwise the rows are a permutation of the tasks in non-decreasing start-date order |

## Findings

| source | as written | input that shows it | evidently intended | confidence | as-written member | corrected member |
|---|---|---|---|---|---|---|
| utils/dateUtils.ts:29-43 | from a weekend start, the skip loop stops on Monday with the counter still at 0, and the main loop steps past Monday before it counts | start Saturday 2024-06-08, 6 hours: ends Tuesday 2024-06-11, two workdays for a one-workday budget | the first workday reached counts as day 1, as a weekday start counts itself, so the task ends Monday 2024-06-10 | medium, not executed | DateUtils.WeekendStartOvershoots | DateUtils.IntendedEndDate |
| components/TaskFormModal.tsx:48 | a new id is trimmed and then looked up among the stored ids, which are not trimmed; App.tsx:69 then matches the untrimmed id | a task " A" is stored; a new task " A" passes validation, and saving it replaces the stored task | a new task never takes the id of a stored one | high, not executed | TaskForm.PaddedIdOverwritesStoredTask | TaskForm.ValidateIntended |

`DateUtils.IntendedEndDateCountsFromStart` proves the corrected end date counts ceil(hours/6)
workdays from any start. `DateUtils.IntendedEndDateOnWeekdays` proves it agrees with the code on
weekday starts. `TaskForm.IntendedCheckNeverOverwrites` proves the corrected id check never lets
a save replace a stored task. The end date as written (`DateUtils.EndDate`,
`DateUtils.CalculateEndDate`) and the id check as written (`TaskForm.Validate`,
`TaskForm.HandleSubmit`) remain the models of the code. The corrected definitions sit beside
them and nothing else depends on either choice.

## Left out

- Persistence through `useLocalStorage` (App.tsx:12-14) is I/O. The state is the explicit
  record `App.AppState`.
- Rendering is left out: JSX, CSS, the `alert` notices (the `refused` flag of
  `App.DeleteResult` stands for them), modal and view state, `closeModal` and the delete
  confirmation dialog.
- The form's `handleChange` and the settings input's clear-on-typing are left out. They are
  field editing.
- `TaskItem.tsx`, `Header.tsx` and `SettingsPage.tsx` are not part of this model. They hold
  display formatting and prop wiring.
- Dates are whole day numbers. The JavaScript `Date` quirks are not modelled:
  - the degenerate branch of `calculateEndDate` parses the string as UTC midnight, so it can
    show the previous day west of UTC;
  - daylight-saving steps of `setDate`;
  - invalid dates from malformed strings. Only the empty string, the invalid date it produces
    and the false comparisons that follow are modelled.
- `new Date()` is replaced by a `today` parameter. The form's default start date is the UTC
  date.
- DateUtils.CalculateEndDate: hours are whole numbers, so fractional budgets and the form's
  string-typed hours are not modelled.
- Case folding is ASCII only, not Unicode `toLowerCase`. `trim` strips exactly the JavaScript
  WhiteSpace and LineTerminator code points.
- TaskList.SortByStart: a blank start date sorts first. In the source, its comparator yields
  NaN for a blank date, and the engine chooses that order. That the sort leaves the input
  untouched holds trivially, because sequences are values.
