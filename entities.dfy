/**
 * The records the kanban board works on: Prisma's `Column` and `Task` rows as the
 * client holds them, and dnd-kit's `UniqueIdentifier` for drag ids.
 */
module Entities {

  /** dnd-kit's `UniqueIdentifier` (`string | number`); `===` on two of them is `==` here. */
  datatype UniqueIdentifier = Num(n: int) | Str(s: string)

  /** A column row. The board never changes a column in place, so it is a value. */
  datatype Column = Column(id: string, name: string, boardId: string)

  /** The value of a task row at one moment: what a batch sync carries and what a column shows. */
  datatype TaskRecord = TaskRecord(id: int, boardId: string, columnId: string, content: string)

  /**
   * A task row as a client-side object. The board writes `columnId` in place on an
   * object that the last server snapshot shares, so a task is a class with that one
   * mutable field; its id, board and content never change on the board.
   */
  class Task {
    const id: int
    const boardId: string
    const content: string
    var columnId: string

    constructor (id: int, boardId: string, columnId: string, content: string)
      ensures this.id == id && this.boardId == boardId
      ensures this.columnId == columnId && this.content == content
    {
      this.id := id;
      this.boardId := boardId;
      this.columnId := columnId;
      this.content := content;
    }

    function Record(): TaskRecord
      reads this
    {
      TaskRecord(id, boardId, columnId, content)
    }
  }

  /** The current value of every task object of a sequence, in order. */
  function Records(objs: seq<Task>): (rs: seq<TaskRecord>)
    reads objs
    ensures |rs| == |objs|
  {
    seq(|objs|, i requires 0 <= i < |objs| reads objs => objs[i].Record())
  }

  /** The ids of a sequence of task objects; ids never change, so this reads nothing. */
  function Ids(objs: seq<Task>): (ids: seq<int>)
    ensures |ids| == |objs|
  {
    seq(|objs|, i requires 0 <= i < |objs| => objs[i].id)
  }

  /** The ids of a sequence of task values. */
  function RecordIds(ts: seq<TaskRecord>): (ids: seq<int>)
    ensures |ids| == |ts|
  {
    seq(|ts|, i requires 0 <= i < |ts| => ts[i].id)
  }

  /** The ids of task objects are the ids of their current values. */
  lemma IdsOfRecords(objs: seq<Task>)
    ensures Ids(objs) == RecordIds(Records(objs))
  {
  }
}
