/**
 * What the drag handlers of src/components/kanban/board.tsx do to the board's task
 * sequence, stated on task values: which gestures reorder, where the dragged task
 * lands, which column it ends up in, and what every column then shows.
 */
module BoardOrder {
  import opened Wrappers
  import opened Entities
  import opened DraggableData
  import opened ArrayMoves

  /** `tasks.findIndex((t) => t.id === id)`: the first task whose id is `id`, or -1. */
  function FindIndex(ts: seq<TaskRecord>, id: UniqueIdentifier): (k: int)
    ensures -1 <= k < |ts|
    ensures 0 <= k ==> Num(ts[k].id) == id && forall j :: 0 <= j < k ==> Num(ts[j].id) != id
    ensures k == -1 ==> forall j :: 0 <= j < |ts| ==> Num(ts[j].id) != id
  {
    if ts == [] then -1
    else if Num(ts[0].id) == id then 0
    else
      var k := FindIndex(ts[1..], id);
      if k == -1 then -1 else k + 1
  }

  function DigitChar(d: int): (c: char)
    requires 0 <= d < 10
    ensures '0' <= c <= '9' && c as int - '0' as int == d
  {
    ('0' as int + d) as char
  }

  /** A decimal numeral as JavaScript prints a non-negative integer: digits, no leading zero. */
  predicate IsDecimal(s: string)
  {
    && |s| > 0
    && (forall i :: 0 <= i < |s| ==> '0' <= s[i] <= '9')
    && (|s| > 1 ==> s[0] != '0')
  }

  /** The number a string of digits denotes, read most significant digit first. */
  function DecimalValue(s: string): nat
    requires forall i :: 0 <= i < |s| ==> '0' <= s[i] <= '9'
  {
    if s == [] then 0
    else DecimalValue(s[..|s| - 1]) * 10 + (s[|s| - 1] as int - '0' as int)
  }

  /** A numeral without a leading zero denotes a positive number. */
  lemma {:induction false} DecimalPositive(s: string)
    requires IsDecimal(s) && s[0] != '0'
    ensures DecimalValue(s) > 0
  {
    var p := s[..|s| - 1];
    if |s| > 1 {
      assert p[0] == s[0];
      DecimalPositive(p);
    } else {
      assert p == [];
    }
  }

  /** Two numerals with the same value are the same string: `DecimalValue` fixes the numeral. */
  lemma {:induction false} DecimalUnique(s: string, t: string)
    requires IsDecimal(s) && IsDecimal(t) && DecimalValue(s) == DecimalValue(t)
    ensures s == t
  {
    var ps, pt := s[..|s| - 1], t[..|t| - 1];
    assert s == ps + [s[|s| - 1]] && t == pt + [t[|t| - 1]];
    assert DecimalValue(ps) == DecimalValue(pt) && s[|s| - 1] == t[|t| - 1];
    if |s| > 1 && |t| > 1 {
      assert ps[0] == s[0] && pt[0] == t[0];
      DecimalUnique(ps, pt);
    } else if |s| > 1 {
      assert ps[0] == s[0] && pt == [];
      DecimalPositive(ps);
    } else if |t| > 1 {
      assert pt[0] == t[0] && ps == [];
      DecimalPositive(pt);
    }
  }

  /** `n.toString()` for a non-negative integer: the decimal numeral that denotes `n`. */
  function NatToString(n: nat): (s: string)
    ensures IsDecimal(s) && DecimalValue(s) == n
  {
    if n < 10 then
      [DigitChar(n)]
    else
      var t := NatToString(n / 10);
      var r := t + [DigitChar(n % 10)];
      assert r[..|r| - 1] == t && r[0] == t[0];
      r
  }

  /** `overId.toString()`: a string id as it is, a numeric id in decimal with its sign. */
  function IdToString(id: UniqueIdentifier): (s: string)
    ensures id.Str? ==> s == id.s
    ensures id.Num? && id.n >= 0 ==> IsDecimal(s) && DecimalValue(s) == id.n
    ensures id.Num? && id.n < 0 ==>
      && |s| > 1 && s[0] == '-'
      && IsDecimal(s[1..]) && DecimalValue(s[1..]) == -id.n
  {
    match id
    case Str(s) => s
    case Num(n) =>
      if n < 0 then
        var t := NatToString(-n);
        assert ("-" + t)[1..] == t;
        "-" + t
      else
        NatToString(n)
  }

  /** Which branch of `onDragOver` an event reaches. */
  datatype OverCase = Ignored | TaskOverTask | TaskOverColumn

  /**
   * The guards of `onDragOver`: no `over`, the same id on both sides, an active entry
   * that is not a task, or an entry without draggable data all leave the board alone.
   */
  function Classify(active: Entry, over: Option<Entry>): (c: OverCase)
    ensures over.None? ==> c == Ignored
    ensures over.Some? && over.value.id == active.id ==> c == Ignored
    ensures TagOf(active) != Some("Task") ==> c == Ignored
    ensures c == TaskOverTask <==>
      over.Some? && over.value.id != active.id &&
      TagOf(active) == Some("Task") && TagOf(over.value) == Some("Task")
    ensures c == TaskOverColumn <==>
      over.Some? && over.value.id != active.id &&
      TagOf(active) == Some("Task") && TagOf(over.value) == Some("Column")
  {
    if over.None? then Ignored
    else if active.id == over.value.id then Ignored
    else
      var isActiveATask := TagOf(active) == Some("Task");
      var isOverATask := TagOf(over.value) == Some("Task");
      var isOverAColumn := TagOf(over.value) == Some("Column");
      if !isActiveATask then Ignored
      else if !HasDraggableData(Some(active)) || !HasDraggableData(over) then Ignored
      else if isOverATask then TaskOverTask
      else if isOverAColumn then TaskOverColumn
      else Ignored
  }

  /** The ids the handler looks up are on the board whenever it looks them up. */
  predicate Resolvable(ts: seq<TaskRecord>, active: Entry, over: Option<Entry>)
  {
    match Classify(active, over)
    case Ignored => true
    case TaskOverTask => 0 <= FindIndex(ts, active.id) && 0 <= FindIndex(ts, over.value.id)
    case TaskOverColumn => 0 <= FindIndex(ts, active.id)
  }

  /** `ts` after the write `activeTask.columnId = columnId` on the task at `i`. */
  function Reassign(ts: seq<TaskRecord>, i: int, columnId: string): (r: seq<TaskRecord>)
    requires 0 <= i < |ts|
    ensures |r| == |ts| && r[i] == ts[i].(columnId := columnId)
    ensures forall k :: 0 <= k < |ts| && k != i ==> r[k] == ts[k]
  {
    ts[i := ts[i].(columnId := columnId)]
  }

  /**
   * The task sequence that `onDragOver` stores, or `None` when it keeps the one it had.
   * A task over a task of another column takes that column and moves to `overIndex - 1`;
   * over a task of its own column it moves to `overIndex`; over a column it takes the
   * column's id and moves to its own index.
   */
  function DragOver(ts: seq<TaskRecord>, active: Entry, over: Option<Entry>): (r: Option<seq<TaskRecord>>)
    requires Resolvable(ts, active, over)
    ensures r.None? <==> Classify(active, over) == Ignored
    ensures r.Some? ==> |r.value| == |ts|
  {
    match Classify(active, over)
    case Ignored => None
    case TaskOverTask =>
      var a := FindIndex(ts, active.id);
      var o := FindIndex(ts, over.value.id);
      if ts[a].columnId != ts[o].columnId then
        Some(ArrayMove(Reassign(ts, a, ts[o].columnId), a, o - 1))
      else
        Some(ArrayMove(ts, a, o))
    case TaskOverColumn =>
      var a := FindIndex(ts, active.id);
      Some(ArrayMove(Reassign(ts, a, IdToString(over.value.id)), a, a))
  }

  /**
   * The task values after the handler's in-place write and before its `arrayMove`:
   * what every array sharing the task objects (the last server snapshot among them)
   * shows once `onDragOver` has run.
   */
  function Retagged(ts: seq<TaskRecord>, active: Entry, over: Option<Entry>): (r: seq<TaskRecord>)
    requires Resolvable(ts, active, over)
    ensures |r| == |ts|
    ensures forall k :: 0 <= k < |ts| && Num(ts[k].id) != active.id ==> r[k] == ts[k]
  {
    match Classify(active, over)
    case Ignored => ts
    case TaskOverTask =>
      var a := FindIndex(ts, active.id);
      var o := FindIndex(ts, over.value.id);
      if ts[a].columnId != ts[o].columnId then Reassign(ts, a, ts[o].columnId) else ts
    case TaskOverColumn =>
      Reassign(ts, FindIndex(ts, active.id), IdToString(over.value.id))
  }

  /** `tasks.filter((task) => task.columnId === columnId)`: what one column shows. */
  function ColumnView(ts: seq<TaskRecord>, columnId: string): (v: seq<TaskRecord>)
    ensures |v| <= |ts|
  {
    if ts == [] then []
    else (if ts[0].columnId == columnId then [ts[0]] else []) + ColumnView(ts[1..], columnId)
  }

  // ---------------------------------------------------------------------------
  // The per-column view

  /** The view of a concatenation is the concatenation of the views: the filter is stable. */
  lemma {:induction false} ColumnViewAppend(a: seq<TaskRecord>, b: seq<TaskRecord>, columnId: string)
    ensures ColumnView(a + b, columnId) == ColumnView(a, columnId) + ColumnView(b, columnId)
  {
    if a == [] {
      assert a + b == b;
    } else {
      var head := if a[0].columnId == columnId then [a[0]] else [];
      assert (a + b)[0] == a[0] && (a + b)[1..] == a[1..] + b;
      ColumnViewAppend(a[1..], b, columnId);
      assert head + (ColumnView(a[1..], columnId) + ColumnView(b, columnId))
          == (head + ColumnView(a[1..], columnId)) + ColumnView(b, columnId);
    }
  }

  /** A column shows exactly the tasks of the sequence that name it. */
  lemma {:induction false} ColumnViewMembers(ts: seq<TaskRecord>, columnId: string)
    ensures forall x :: x in ColumnView(ts, columnId) <==> x in ts && x.columnId == columnId
  {
    if ts != [] {
      ColumnViewMembers(ts[1..], columnId);
      assert ts == [ts[0]] + ts[1..];
    }
  }

  /** Splicing out a task of another column does not change what a column shows. */
  lemma ColumnViewWithout(ts: seq<TaskRecord>, i: int, columnId: string)
    requires 0 <= i < |ts| && ts[i].columnId != columnId
    ensures ColumnView(Without(ts, i), columnId) == ColumnView(ts, columnId)
  {
    assert ts == ts[..i] + ([ts[i]] + ts[i + 1..]);
    ColumnViewAppend(ts[..i], [ts[i]] + ts[i + 1..], columnId);
    ColumnViewAppend([ts[i]], ts[i + 1..], columnId);
    ColumnViewAppend(ts[..i], ts[i + 1..], columnId);
  }

  /** Moving a task of another column does not change what a column shows. */
  lemma ColumnViewOfMove(ts: seq<TaskRecord>, from: int, to: int, columnId: string)
    requires ValidMove(|ts|, from, to) && ts[from].columnId != columnId
    ensures ColumnView(ArrayMove(ts, from, to), columnId) == ColumnView(ts, columnId)
  {
    var rest, t := Without(ts, from), Target(|ts|, to);
    assert rest == rest[..t] + rest[t..];
    ColumnViewAppend(rest[..t] + [ts[from]], rest[t..], columnId);
    ColumnViewAppend(rest[..t], [ts[from]], columnId);
    ColumnViewAppend(rest[..t], rest[t..], columnId);
    ColumnViewWithout(ts, from, columnId);
  }

  // ---------------------------------------------------------------------------
  // The drag-over policy

  /** No `over`, the same id on both sides, or a dragged column: the sequence is kept. */
  lemma DragOverIgnored(ts: seq<TaskRecord>, active: Entry, over: Option<Entry>)
    requires over.None? || over.value.id == active.id || TagOf(active) != Some("Task")
    ensures Resolvable(ts, active, over) && DragOver(ts, active, over).None?
  {
  }

  lemma RecordIdsOfMove(ts: seq<TaskRecord>, from: int, to: int)
    requires ValidMove(|ts|, from, to)
    ensures RecordIds(ArrayMove(ts, from, to)) == ArrayMove(RecordIds(ts), from, to)
  {
    forall k | 0 <= k < |ts|
      ensures RecordIds(ArrayMove(ts, from, to))[k] == ArrayMove(RecordIds(ts), from, to)[k]
    {
      ArrayMoveAt(ts, from, to, k);
      ArrayMoveAt(RecordIds(ts), from, to, k);
    }
  }

  /**
   * Every reorder has one shape: the dragged task, at `a`, may get a new column, and is
   * then moved by `arrayMove` to `to`.
   */
  lemma DragOverAsMove(ts: seq<TaskRecord>, active: Entry, over: Option<Entry>)
    returns (s: seq<TaskRecord>, a: int, to: int)
    requires Resolvable(ts, active, over) && DragOver(ts, active, over).Some?
    ensures 0 <= a < |ts| && Num(ts[a].id) == active.id
    ensures |s| == |ts| && s[a].id == ts[a].id && ValidMove(|s|, a, to)
    ensures forall k :: 0 <= k < |ts| && k != a ==> s[k] == ts[k]
    ensures s == Retagged(ts, active, over)
    ensures to == if Classify(active, over) == TaskOverColumn then a
      else if ts[a].columnId != ts[FindIndex(ts, over.value.id)].columnId then FindIndex(ts, over.value.id) - 1
      else FindIndex(ts, over.value.id)
    ensures DragOver(ts, active, over).value == ArrayMove(s, a, to)
  {
    a := FindIndex(ts, active.id);
    if Classify(active, over) == TaskOverColumn {
      s, to := Reassign(ts, a, IdToString(over.value.id)), a;
    } else {
      var o := FindIndex(ts, over.value.id);
      if ts[a].columnId != ts[o].columnId {
        s, to := Reassign(ts, a, ts[o].columnId), o - 1;
      } else {
        s, to := ts, o;
      }
    }
  }

  /**
   * Every reorder is a permutation of the board's tasks: the same ids, none created or
   * dropped, and ids that were unique stay unique.
   */
  lemma DragOverPermutes(ts: seq<TaskRecord>, active: Entry, over: Option<Entry>)
    requires Resolvable(ts, active, over) && DragOver(ts, active, over).Some?
    ensures var r := DragOver(ts, active, over).value;
      && |r| == |ts|
      && multiset(RecordIds(r)) == multiset(RecordIds(ts))
      && (Distinct(RecordIds(ts)) ==> Distinct(RecordIds(r)))
  {
    var s, a, to := DragOverAsMove(ts, active, over);
    assert RecordIds(s) == RecordIds(ts);
    RecordIdsOfMove(s, a, to);
    ArrayMovePermutes(RecordIds(s), a, to);
    if Distinct(RecordIds(ts)) {
      ArrayMoveKeepsDistinct(RecordIds(s), a, to);
    }
  }

  /** Every task other than the dragged one keeps all its fields. */
  lemma DragOverChangesOnlyActive(ts: seq<TaskRecord>, active: Entry, over: Option<Entry>)
    requires Resolvable(ts, active, over) && DragOver(ts, active, over).Some?
    ensures var r := DragOver(ts, active, over).value;
      && (forall x :: x in r && Num(x.id) != active.id ==> x in ts)
      && (forall x :: x in ts && Num(x.id) != active.id ==> x in r)
  {
    var s, a, to := DragOverAsMove(ts, active, over);
    ArrayMoveMembers(s, a, to);
    forall x | x in s && Num(x.id) != active.id
      ensures x in ts
    {
      var k :| 0 <= k < |s| && s[k] == x;
      assert k != a;
    }
    forall x | x in ts && Num(x.id) != active.id
      ensures x in s
    {
      var k :| 0 <= k < |ts| && ts[k] == x;
      assert k != a && s[k] == x;
    }
  }

  /**
   * A task over a task of its own column: the result is `arrayMove(tasks, activeIndex,
   * overIndex)`, the dragged task sits at `overIndex`, no task changes, the others keep
   * their order, and every other column shows what it showed.
   */
  lemma SameColumnMove(ts: seq<TaskRecord>, active: Entry, over: Option<Entry>)
    requires Resolvable(ts, active, over) && Classify(active, over) == TaskOverTask
    requires ts[FindIndex(ts, active.id)].columnId == ts[FindIndex(ts, over.value.id)].columnId
    ensures var a, o := FindIndex(ts, active.id), FindIndex(ts, over.value.id);
      var r := DragOver(ts, active, over).value;
      && r == ArrayMove(ts, a, o)
      && r[o] == ts[a]
      && multiset(r) == multiset(ts)
      && Without(r, o) == Without(ts, a)
      && forall c :: c != ts[a].columnId ==> ColumnView(r, c) == ColumnView(ts, c)
  {
    var a, o := FindIndex(ts, active.id), FindIndex(ts, over.value.id);
    ArrayMovePlaces(ts, a, o);
    ArrayMovePermutes(ts, a, o);
    ArrayMoveKeepsOthersInOrder(ts, a, o);
    forall c | c != ts[a].columnId
      ensures ColumnView(ArrayMove(ts, a, o), c) == ColumnView(ts, c)
    {
      ColumnViewOfMove(ts, a, o, c);
    }
  }

  /**
   * A task over a task of another column: the dragged task takes the hovered task's
   * column and is spliced in at `overIndex - 1`; the rest keep their order, its old
   * column loses it, its new column shows it, and every other column is untouched.
   */
  lemma CrossColumnMove(ts: seq<TaskRecord>, active: Entry, over: Option<Entry>)
    requires Resolvable(ts, active, over) && Classify(active, over) == TaskOverTask
    requires ts[FindIndex(ts, active.id)].columnId != ts[FindIndex(ts, over.value.id)].columnId
    ensures var a, o := FindIndex(ts, active.id), FindIndex(ts, over.value.id);
      var moved := ts[a].(columnId := ts[o].columnId);
      var t := Target(|ts|, o - 1);
      var r := DragOver(ts, active, over).value;
      && 0 <= t < |r|
      && r[t] == moved
      && Without(r, t) == Without(ts, a)
      && ColumnView(r, ts[a].columnId) == ColumnView(Without(ts, a), ts[a].columnId)
      && moved in ColumnView(r, ts[o].columnId)
      && forall c :: c != ts[a].columnId && c != ts[o].columnId ==> ColumnView(r, c) == ColumnView(ts, c)
  {
    var a, o := FindIndex(ts, active.id), FindIndex(ts, over.value.id);
    var s := Reassign(ts, a, ts[o].columnId);
    var r := ArrayMove(s, a, o - 1);
    assert Without(s, a) == Without(ts, a);
    ArrayMovePlaces(s, a, o - 1);
    ArrayMoveKeepsOthersInOrder(s, a, o - 1);
    ColumnViewOfMove(s, a, o - 1, ts[a].columnId);
    ColumnViewWithout(s, a, ts[a].columnId);
    ColumnViewMembers(r, ts[o].columnId);
    forall c | c != ts[a].columnId && c != ts[o].columnId
      ensures ColumnView(r, c) == ColumnView(ts, c)
    {
      ColumnViewOfMove(s, a, o - 1, c);
      ColumnViewWithout(s, a, c);
      ColumnViewWithout(ts, a, c);
    }
  }

  /** A task over a task of another column is a retag followed by a move to `overIndex - 1`. */
  lemma CrossColumnIsMove(ts: seq<TaskRecord>, active: Entry, over: Option<Entry>)
    requires Resolvable(ts, active, over) && Classify(active, over) == TaskOverTask
    requires ts[FindIndex(ts, active.id)].columnId != ts[FindIndex(ts, over.value.id)].columnId
    ensures FindIndex(ts, active.id) != FindIndex(ts, over.value.id)
    ensures var a, o := FindIndex(ts, active.id), FindIndex(ts, over.value.id);
      DragOver(ts, active, over).value == ArrayMove(Reassign(ts, a, ts[o].columnId), a, o - 1)
  {
    var a, o := FindIndex(ts, active.id), FindIndex(ts, over.value.id);
    assert Num(ts[a].id) == active.id && Num(ts[o].id) == over.value.id;
  }

  /**
   * Where `overIndex - 1` puts the dragged task: just before the hovered task when it
   * came from a lower index; one task earlier still when it came from a higher index;
   * and at the very end of the sequence when the hovered task is the first one.
   */
  lemma CrossColumnPlacement(ts: seq<TaskRecord>, active: Entry, over: Option<Entry>)
    requires Resolvable(ts, active, over) && Classify(active, over) == TaskOverTask
    requires ts[FindIndex(ts, active.id)].columnId != ts[FindIndex(ts, over.value.id)].columnId
    ensures var a, o := FindIndex(ts, active.id), FindIndex(ts, over.value.id);
      var r := DragOver(ts, active, over).value;
      o == 0 ==> r[|ts| - 1] == ts[a].(columnId := ts[o].columnId)
    ensures var a, o := FindIndex(ts, active.id), FindIndex(ts, over.value.id);
      var r := DragOver(ts, active, over).value;
      a < o ==> r[o - 1] == ts[a].(columnId := ts[o].columnId) && r[o] == ts[o]
    ensures var a, o := FindIndex(ts, active.id), FindIndex(ts, over.value.id);
      var r := DragOver(ts, active, over).value;
      0 < o < a ==> r[o - 1] == ts[a].(columnId := ts[o].columnId) && r[o] == ts[o - 1] && r[o + 1] == ts[o]
  {
    var a, o := FindIndex(ts, active.id), FindIndex(ts, over.value.id);
    CrossColumnIsMove(ts, active, over);
    var s := Reassign(ts, a, ts[o].columnId);
    ArrayMoveBefore(s, a, o);
    assert s[o] == ts[o];
    if 0 < o < a {
      assert s[o - 1] == ts[o - 1];
    }
  }

  /**
   * A task over a column: only the dragged task's column changes, to the column's id,
   * and every task keeps its place.
   */
  lemma TaskOverColumnMove(ts: seq<TaskRecord>, active: Entry, over: Option<Entry>)
    requires Resolvable(ts, active, over) && Classify(active, over) == TaskOverColumn
    ensures var a := FindIndex(ts, active.id);
      var r := DragOver(ts, active, over).value;
      && |r| == |ts|
      && r[a] == ts[a].(columnId := IdToString(over.value.id))
      && forall k :: 0 <= k < |ts| && k != a ==> r[k] == ts[k]
  {
    var a := FindIndex(ts, active.id);
    ArrayMoveInPlace(Reassign(ts, a, IdToString(over.value.id)), a);
  }

  /**
   * A worked case: column c1 holds T1, T2 and column c2 holds T3. Dragging T1 over T3
   * leaves c1 = [T2] and c2 = [T1, T3], T1 at index `indexOf(T3) - 1`.
   */
  lemma CrossColumnExample()
    ensures var t1, t2, t3 := TaskRecord(1, "b", "c1", "T1"), TaskRecord(2, "b", "c1", "T2"), TaskRecord(3, "b", "c2", "T3");
      var active := Entry(Num(1), Some(DragData("Task", None, null)));
      var over := Some(Entry(Num(3), Some(DragData("Task", None, null))));
      && Resolvable([t1, t2, t3], active, over)
      && DragOver([t1, t2, t3], active, over) == Some([t2, t1.(columnId := "c2"), t3])
      && ColumnView([t2, t1.(columnId := "c2"), t3], "c1") == [t2]
      && ColumnView([t2, t1.(columnId := "c2"), t3], "c2") == [t1.(columnId := "c2"), t3]
  {
    var t1, t2, t3 := TaskRecord(1, "b", "c1", "T1"), TaskRecord(2, "b", "c1", "T2"), TaskRecord(3, "b", "c2", "T3");
    var ts := [t1, t2, t3];
    assert ts[1..] == [t2, t3] && ts[1..][1..] == [t3];
    assert FindIndex(ts, Num(1)) == 0;
    assert FindIndex(ts[1..][1..], Num(3)) == 0;
    assert FindIndex(ts, Num(3)) == 2;
    var r := ArrayMove(Reassign(ts, 0, "c2"), 0, 1);
    assert r == [t2, t1.(columnId := "c2"), t3];
    assert r[1..] == [t1.(columnId := "c2"), t3] && r[1..][1..] == [t3] && r[1..][1..][1..] == [];
    assert ColumnView(r[1..][1..], "c1") == [] && ColumnView(r[1..][1..], "c2") == [t3];
    assert ColumnView(r[1..], "c1") == [] && ColumnView(r[1..], "c2") == [t1.(columnId := "c2"), t3];
  }
}
