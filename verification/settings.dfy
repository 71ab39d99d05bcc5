/** One settings section: the add box with its validation, and the list of items with delete buttons. */
module Settings {
  import opened Types
  import opened Text

  /**
   * `isItemInUse`: some task names the item as its category (or status). The match is exact and
   * case-sensitive.
   */
  function IsItemInUse(tasks: seq<Task>, kind: ItemKind, item: string): (inUse: bool)
    ensures inUse <==> exists i :: 0 <= i < |tasks| && ItemOf(tasks[i], kind) == item
  {
    if |tasks| == 0 then false
    else if ItemOf(tasks[0], kind) == item then true
    else
      var rest := IsItemInUse(tasks[1..], kind, item);
      assert forall i :: 1 <= i < |tasks| ==> tasks[i] == tasks[1..][i - 1];
      rest
  }

  /** The inline messages of the add box. */
  datatype AddError = EmptyName | DuplicateName

  /**
   * The section's state after the add button: the text left in the box, the message shown,
   * and the name handed to `onAddItem`, if any.
   */
  datatype AddResult = AddResult(input: string, error: Option<AddError>, added: Option<string>)

  /**
   * `handleAddItem`: a blank input is refused first, then a case-insensitive duplicate of an
   * existing item; otherwise the trimmed name is handed on and box and message are cleared.
   * A refusal leaves the box as typed.
   */
  function HandleAddItem(input: string, items: seq<string>): (r: AddResult)
    ensures r.error == Some(EmptyName) <==> IsBlank(input)
    ensures r.error == Some(DuplicateName) <==> !IsBlank(input) && ContainsIgnoringCase(items, Trim(input))
    ensures r.added.Some? <==> r.error.None?
    ensures r.added.Some? ==> r.added.value == Trim(input) && r.input == ""
    ensures r.error.Some? ==> r.input == input
  {
    if Trim(input) == "" then AddResult(input, Some(EmptyName), None)
    else if ContainsIgnoringCase(items, Trim(input)) then AddResult(input, Some(DuplicateName), None)
    else AddResult("", None, Some(Trim(input)))
  }

  /** Whatever the section hands on is non-empty, trimmed, and new up to case. */
  lemma AddedNameIsClean(input: string, items: seq<string>)
    requires HandleAddItem(input, items).added.Some?
    ensures var name := HandleAddItem(input, items).added.value;
      name != "" && IsTrimmed(name) && !ContainsIgnoringCase(items, name)
  {
  }

  /** A chip of the item list, with whether its delete button is disabled. */
  datatype Chip = Chip(name: string, deleteDisabled: bool)

  /** The item list: a placeholder when there are no items, otherwise one chip per item, in order. */
  datatype ItemsView = NoItems | Chips(chips: seq<Chip>)

  /** The rendered item list of a section: a delete button is disabled exactly when its item is in use. */
  function RenderItems(items: seq<string>, tasks: seq<Task>, kind: ItemKind): (v: ItemsView)
    ensures v.NoItems? <==> |items| == 0
    ensures v.Chips? ==> |v.chips| == |items|
    ensures v.Chips? ==> forall i :: 0 <= i < |items| ==>
      v.chips[i].name == items[i] &&
      (v.chips[i].deleteDisabled <==> exists j :: 0 <= j < |tasks| && ItemOf(tasks[j], kind) == items[i])
  {
    if |items| == 0 then NoItems
    else Chips(seq(|items|, i requires 0 <= i < |items| => Chip(items[i], IsItemInUse(tasks, kind, items[i]))))
  }
}
