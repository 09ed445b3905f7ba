/**
 * The drag payloads of the board (src/components/kanban/utils.ts): dnd-kit hands the
 * handlers an `Active`/`Over` entry whose `data.current` is whatever the sortable item
 * attached; columns attach `{ type: "Column", column }`, task cards `{ type: "Task", task }`.
 */
module DraggableData {
  import opened Wrappers
  import opened Entities

  /**
   * `data.current`: the `type` tag and the record stored beside it. A payload without a
   * `type` compares unequal to both tags everywhere the source looks at it, so it is
   * written here as any tag other than "Column" and "Task".
   */
  datatype DragData = DragData(tag: string, column: Option<Column>, task: Task?)

  /** An `Active` or `Over` entry: its id and its `data.current`, which may be absent. */
  datatype Entry = Entry(id: UniqueIdentifier, current: Option<DragData>)

  /** `entry.data.current?.type`. */
  function TagOf(e: Entry): (tag: Option<string>)
    ensures tag.Some? <==> e.current.Some?
  {
    match e.current
    case None => None
    case Some(data) => Some(data.tag)
  }

  /** `hasDraggableData(entry)`; `None` stands for a null or undefined entry. */
  function HasDraggableData(entry: Option<Entry>): (r: bool)
    ensures entry.None? ==> !r
    ensures entry.Some? && TagOf(entry.value) == Some("Column") ==> r
    ensures entry.Some? && TagOf(entry.value) == Some("Task") ==> r
    ensures entry.Some? && entry.value.current.None? ==> !r
    ensures entry.Some? && TagOf(entry.value) !in {Some("Column"), Some("Task")} ==> !r
  {
    if entry.None? then
      false
    else
      var data := entry.value.current;
      data.Some? && (data.value.tag == "Column" || data.value.tag == "Task")
  }

  /** Only the tag decides: neither the id nor the carried column or task is inspected. */
  lemma HasDraggableDataReadsOnlyTag(e1: Entry, e2: Entry)
    requires TagOf(e1) == TagOf(e2)
    ensures HasDraggableData(Some(e1)) == HasDraggableData(Some(e2))
  {
  }
}
