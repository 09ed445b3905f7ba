/**
 * The board component of src/components/kanban/board.tsx as a stateful object: the
 * query's last snapshot, the local task and column state seeded from it, the entity
 * being dragged, and the three drag handlers that change them.
 */
module KanbanBoard {
  import opened Wrappers
  import opened Entities
  import opened DraggableData
  import opened ArrayMoves
  import opened BoardOrder

  /** What `onDragEnd` does about persisting the board. */
  datatype Commit =
    | NoSync
      /** one `updateTasksPositionOnBoard` call carrying the whole local sequence */
    | Sync(boardId: string, tasks: seq<TaskRecord>)
      /** the error toast raised instead of a call when there is no local sequence */
    | SyncError(title: string, description: string)

  lemma RecordsOfMove(objs: seq<Task>, from: int, to: int)
    requires ValidMove(|objs|, from, to)
    ensures Records(ArrayMove(objs, from, to)) == ArrayMove(Records(objs), from, to)
  {
    forall k | 0 <= k < |objs|
      ensures Records(ArrayMove(objs, from, to))[k] == ArrayMove(Records(objs), from, to)[k]
    {
      ArrayMoveAt(objs, from, to, k);
      ArrayMoveAt(Records(objs), from, to, k);
    }
  }

  lemma IdsOfMove(objs: seq<Task>, from: int, to: int)
    requires ValidMove(|objs|, from, to)
    ensures Ids(ArrayMove(objs, from, to)) == ArrayMove(Ids(objs), from, to)
  {
    forall k | 0 <= k < |objs|
      ensures Ids(ArrayMove(objs, from, to))[k] == ArrayMove(Ids(objs), from, to)[k]
    {
      ArrayMoveAt(objs, from, to, k);
      ArrayMoveAt(Ids(objs), from, to, k);
    }
  }

  /** What the fresh array of a move holds, seen through the task objects. */
  lemma MovedTasks(objs: seq<Task>, from: int, to: int)
    requires ValidMove(|objs|, from, to) && Distinct(Ids(objs))
    ensures Records(ArrayMove(objs, from, to)) == ArrayMove(Records(objs), from, to)
    ensures Distinct(Ids(ArrayMove(objs, from, to)))
    ensures multiset(ArrayMove(objs, from, to)) == multiset(objs)
  {
    RecordsOfMove(objs, from, to);
    IdsOfMove(objs, from, to);
    ArrayMoveKeepsDistinct(Ids(objs), from, to);
    ArrayMovePermutes(objs, from, to);
  }

  /**
   * `activeTask.columnId = columnId` on the task at `i`: the object is shared, so every
   * array holding it sees the write, and no other task changes.
   */
  method Retag(ts: array<Task>, i: int, columnId: string)
    requires 0 <= i < ts.Length && Distinct(Ids(ts[..]))
    modifies ts[i]
    ensures Records(ts[..]) == Reassign(old(Records(ts[..])), i, columnId)
  {
    ts[i].columnId := columnId;
    forall k | 0 <= k < ts.Length && k != i
      ensures ts[k] != ts[i]
    {
      assert Ids(ts[..])[k] != Ids(ts[..])[i];
    }
  }

  /**
   * The first half of `onDragOver` once it has found the dragged task: the in-place
   * column write, if any, and the slot `arrayMove` is then called with.
   */
  method RetagDragged(ts: array<Task>, active: Entry, over: Option<Entry>) returns (a: int, to: int)
    requires Distinct(Ids(ts[..]))
    requires Resolvable(Records(ts[..]), active, over) && Classify(active, over) != Ignored
    modifies set t | t in ts[..]
    ensures 0 <= a < ts.Length && Num(ts[a].id) == active.id && ValidMove(ts.Length, a, to)
    ensures Records(ts[..]) == Retagged(old(Records(ts[..])), active, over)
    ensures DragOver(old(Records(ts[..])), active, over) == Some(ArrayMove(Records(ts[..]), a, to))
    ensures forall t :: t in ts[..] && t != ts[a] ==> t.columnId == old(t.columnId)
  {
    ghost var before := Records(ts[..]);
    ghost var retagged, _, _ := DragOverAsMove(before, active, over);
    a := FindIndex(Records(ts[..]), active.id);
    to := a;
    if Classify(active, over) == TaskOverTask {
      var o := FindIndex(Records(ts[..]), over.value.id);
      if ts[a].columnId != ts[o].columnId {
        Retag(ts, a, ts[o].columnId);
        to := o - 1;
      } else {
        to := o;
      }
    } else {
      Retag(ts, a, IdToString(over.value.id));
    }
  }

  /**
   * The updater `onDragOver` hands to `setTasks` once the guards have passed: write
   * the dragged task's new column into its shared object, then return the fresh array
   * `arrayMove` builds.
   */
  method ReorderTasks(ts: array<Task>, active: Entry, over: Option<Entry>) returns (moved: array<Task>)
    requires Distinct(Ids(ts[..]))
    requires Resolvable(Records(ts[..]), active, over) && Classify(active, over) != Ignored
    modifies set t | t in ts[..]
    ensures fresh(moved) && Distinct(Ids(moved[..]))
    ensures Records(moved[..]) == DragOver(old(Records(ts[..])), active, over).value
    ensures multiset(moved[..]) == multiset(ts[..])
    ensures Records(ts[..]) == Retagged(old(Records(ts[..])), active, over)
    ensures forall t :: t in ts[..] && Num(t.id) != active.id ==> t.columnId == old(t.columnId)
  {
    var a, to := RetagDragged(ts, active, over);
    moved := ArrayMoveCopy(ts, a, to);
    MovedTasks(ts[..], a, to);
  }

  class Board {
    const boardId: string
    /** The data of the two queries: the last server snapshot. */
    var initialTasks: array?<Task>
    var initialColumns: Option<seq<Column>>
    /** The component's local state; `null` and `None` are `undefined`. */
    var tasks: array?<Task>
    var columns: Option<seq<Column>>
    var activeColumn: Option<Column>
    var activeTask: Task?

    /** Task ids are unique on a board, so no task object sits twice in the sequence. */
    ghost predicate Valid()
      reads this, tasks
    {
      tasks != null ==> Distinct(Ids(tasks[..]))
    }

    /** The task objects of the local sequence. */
    ghost function Objects(): set<Task>
      reads this, tasks
    {
      if tasks == null then {} else set t | t in tasks[..]
    }

    /** `useState(initialTasks)`, `useState(initialColumns)` and two `useState(null)`. */
    constructor (boardId: string, queriedTasks: array?<Task>, queriedColumns: Option<seq<Column>>)
      requires queriedTasks != null ==> Distinct(Ids(queriedTasks[..]))
      ensures Valid() && this.boardId == boardId
      ensures initialTasks == queriedTasks && tasks == queriedTasks
      ensures initialColumns == queriedColumns && columns == queriedColumns
      ensures activeColumn == None && activeTask == null
    {
      this.boardId := boardId;
      initialTasks, tasks := queriedTasks, queriedTasks;
      initialColumns, columns := queriedColumns, queriedColumns;
      activeColumn, activeTask := None, null;
    }

    /**
     * A new query result and one run of the effect it triggers: a defined snapshot
     * replaces the local state outright, with no merge of local edits; an undefined
     * one keeps it. React runs the effect only when a snapshot changes by reference;
     * the caller stands for that check.
     */
    method ReceiveSnapshot(queriedTasks: array?<Task>, queriedColumns: Option<seq<Column>>)
      requires Valid()
      requires queriedTasks != null ==> Distinct(Ids(queriedTasks[..]))
      modifies this`initialTasks, this`initialColumns, this`tasks, this`columns
      ensures Valid()
      ensures initialTasks == queriedTasks && initialColumns == queriedColumns
      ensures tasks == if queriedTasks != null then queriedTasks else old(tasks)
      ensures columns == if queriedColumns.Some? then queriedColumns else old(columns)
    {
      initialTasks, initialColumns := queriedTasks, queriedColumns;
      if queriedTasks != null {
        tasks := queriedTasks;
      }
      if queriedColumns.Some? {
        columns := queriedColumns;
      }
    }

    /** The tasks a column renders, in the order of the local sequence. */
    function VisibleTasks(column: Column): (v: seq<TaskRecord>)
      requires tasks != null
      reads this, tasks, Objects()
      ensures forall x :: x in v <==> x in Records(tasks[..]) && x.columnId == column.id
    {
      ColumnViewMembers(Records(tasks[..]), column.id);
      ColumnView(Records(tasks[..]), column.id)
    }

    /**
     * `onDragStart`: remember the dragged column or task; an entry without draggable
     * data is ignored. Neither handler ever clears what it set.
     */
    method OnDragStart(active: Entry)
      requires Valid()
      modifies this`activeColumn, this`activeTask
      ensures Valid()
      ensures !HasDraggableData(Some(active)) ==>
        activeColumn == old(activeColumn) && activeTask == old(activeTask)
      ensures TagOf(active) == Some("Column") ==>
        activeColumn == active.current.value.column && activeTask == old(activeTask)
      ensures TagOf(active) == Some("Task") ==>
        activeTask == active.current.value.task && activeColumn == old(activeColumn)
    {
      if !HasDraggableData(Some(active)) {
        return;
      }
      var data := active.current;
      if data.Some? && data.value.tag == "Column" {
        activeColumn := data.value.column;
        return;
      }
      if data.Some? && data.value.tag == "Task" {
        activeTask := data.value.task;
        return;
      }
    }

    /**
     * `onDragOver`: store the sequence `DragOver` describes, as a fresh array, after
     * writing the dragged task's new column into the shared task object.
     */
    method OnDragOver(active: Entry, over: Option<Entry>)
      requires Valid()
      requires tasks != null ==> Resolvable(Records(tasks[..]), active, over)
      modifies this`tasks, Objects()
      ensures Valid()
      ensures old(tasks) == null ==> tasks == null
      ensures old(tasks) != null && DragOver(old(Records(tasks[..])), active, over).None? ==>
        tasks == old(tasks) && Records(tasks[..]) == old(Records(tasks[..]))
      ensures old(tasks) != null && DragOver(old(Records(tasks[..])), active, over).Some? ==>
        && fresh(tasks) && tasks != initialTasks
        && Records(tasks[..]) == DragOver(old(Records(tasks[..])), active, over).value
        && multiset(tasks[..]) == multiset(old(tasks[..]))
      ensures old(tasks) != null ==>
        Records(old(tasks[..])) == Retagged(old(Records(tasks[..])), active, over)
      ensures forall t :: t in old(Objects()) && Num(t.id) != active.id ==> t.columnId == old(t.columnId)
    {
      if tasks == null {
        return;
      }
      var ts := tasks;
      if Classify(active, over) == Ignored {
        return;
      }
      tasks := ReorderTasks(ts, active, over);
    }

    /**
     * `onDragEnd`: a local sequence that is not the snapshot itself (by reference) is
     * sent whole in one batch call; an undefined one raises an error instead.
     */
    method OnDragEnd() returns (c: Commit)
      ensures c == NoSync <==> tasks == initialTasks
      ensures c.Sync? <==> tasks != initialTasks && tasks != null
      ensures c.Sync? ==> c.boardId == boardId && c.tasks == Records(tasks[..])
      ensures c.SyncError? ==> c == SyncError("Error updating tasks", "No tasks found")
    {
      c := NoSync;
      if initialTasks != tasks {
        if tasks == null {
          c := SyncError("Error updating tasks", "No tasks found");
        } else {
          c := Sync(boardId, Records(tasks[..]));
        }
      }
    }
  }

  /** The record-level half of the worked case below: T1 dropped on column c2's body. */
  lemma DropOnColumnExample(task: Task?)
    ensures var ts := [TaskRecord(1, "b", "c1", "T1"), TaskRecord(2, "b", "c1", "T2")];
      var moved := [TaskRecord(1, "b", "c2", "T1"), TaskRecord(2, "b", "c1", "T2")];
      var dragged := Entry(Num(1), Some(DragData("Task", None, task)));
      var target := Some(Entry(Str("c2"), Some(DragData("Column", Some(Column("c2", "Done", "b")), null))));
      && Resolvable(ts, dragged, target)
      && Retagged(ts, dragged, target) == moved
      && DragOver(ts, dragged, target) == Some(moved)
  {
    var ts := [TaskRecord(1, "b", "c1", "T1"), TaskRecord(2, "b", "c1", "T2")];
    var moved := [TaskRecord(1, "b", "c2", "T1"), TaskRecord(2, "b", "c1", "T2")];
    var dragged := Entry(Num(1), Some(DragData("Task", None, task)));
    var target := Some(Entry(Str("c2"), Some(DragData("Column", Some(Column("c2", "Done", "b")), null))));
    assert FindIndex(ts, Num(1)) == 0;
    assert Classify(dragged, target) == TaskOverColumn && IdToString(Str("c2")) == "c2";
    assert Retagged(ts, dragged, target) == moved;
    TaskOverColumnMove(ts, dragged, target);
    var r := DragOver(ts, dragged, target).value;
    assert r[0] == moved[0] && r[1] == moved[1];
    assert r == moved;
  }

  /** The board of the worked case below, fresh from a snapshot of T1 and T2 in column c1. */
  method ExampleBoard() returns (board: Board, snapshot: array<Task>)
    ensures fresh(board) && fresh(snapshot) && snapshot.Length == 2
    ensures fresh(snapshot[0]) && fresh(snapshot[1])
    ensures board.Valid() && board.boardId == "b"
    ensures board.tasks == snapshot && board.initialTasks == snapshot
    ensures Records(snapshot[..]) == [TaskRecord(1, "b", "c1", "T1"), TaskRecord(2, "b", "c1", "T2")]
  {
    var t1 := new Task(1, "b", "c1", "T1");
    var t2 := new Task(2, "b", "c1", "T2");
    snapshot := new Task[2][t1, t2];
    assert snapshot[..] == [t1, t2] && Ids(snapshot[..]) == [1, 2];
    board := new Board("b", snapshot, Some([Column("c1", "To do", "b"), Column("c2", "Done", "b")]));
  }

  /**
   * A worked case: column c1 holds T1 and T2. Ending a gesture on the fresh snapshot
   * syncs nothing. Dragging T1 onto the body of column c2 keeps the order, but the
   * snapshot array, which shares the task objects, shows T1 in c2 as well, and the
   * next drag end syncs the whole sequence because it is a new array.
   */
  method DragIntoColumnExample() returns (before: Commit, seen: string, after: Commit)
    ensures before == NoSync
    ensures seen == "c2"
    ensures after == Sync("b", [TaskRecord(1, "b", "c2", "T1"), TaskRecord(2, "b", "c1", "T2")])
  {
    var board, snapshot := ExampleBoard();
    before := board.OnDragEnd();
    var dragged := Entry(Num(1), Some(DragData("Task", None, snapshot[0])));
    var target := Some(Entry(Str("c2"), Some(DragData("Column", Some(Column("c2", "Done", "b")), null))));
    DropOnColumnExample(snapshot[0]);
    board.OnDragOver(dragged, target);
    assert Records(snapshot[..])[0] == snapshot[0].Record();
    seen := snapshot[0].columnId;
    after := board.OnDragEnd();
  }
}
