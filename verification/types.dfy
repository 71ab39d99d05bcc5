/** The task record and the small vocabulary shared by every component. */
module Types {

  /** An optional value: `None` stands for JavaScript's `null`, `undefined` and the empty string. */
  datatype Option<+T> = None | Some(value: T)

  /** A calendar date without a time component, as a day number: day 0 is Thursday 1970-01-01. */
  type Day = int

  /**
   * A task. `startDate` is `None` when the form's date field is empty; `completionDate` is
   * `None` when it is absent or null. Hours are whole hours.
   */
  datatype Task = Task(
    id: string,
    description: string,
    category: string,
    status: string,
    isUrgent: bool,
    isImportant: bool,
    deadlineHours: int,
    startDate: Option<Day>,
    completionDate: Option<Day>)

  /** Which of the two user-maintained name lists a settings section or a deletion is about. */
  datatype ItemKind = CategoryItem | StatusItem

  /** The task field that names an item of the given kind. */
  function ItemOf(t: Task, kind: ItemKind): string
  {
    match kind
    case CategoryItem => t.category
    case StatusItem => t.status
  }

  /** The first name of a list, or the empty string for an empty list (`list[0] || ''`). */
  function FirstOr(names: seq<string>): (r: string)
    ensures |names| > 0 ==> r == names[0]
    ensures |names| == 0 ==> r == ""
  {
    if |names| > 0 then names[0] else ""
  }
}
