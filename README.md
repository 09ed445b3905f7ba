# Kanban board drag-and-drop, in Dafny

This project models the reorder and reassignment engine of the kanban board in
`src/components/kanban/board.tsx`, together with the payload check `hasDraggableData`
of `src/components/kanban/utils.ts`, and proves what the board's three drag handlers
do to its task sequence.

The board (`KanbanBoard.Board`) holds the following state:

- the last server snapshot of tasks and columns;
- the local `tasks` and `columns` seeded from that snapshot;
- the column or task being dragged.

Tasks are objects (`Entities.Task`) whose `columnId` field changes in place. The local
sequence and the snapshot share those objects, so the write that `onDragOver` makes to
the dragged task is visible through the snapshot too. Sequences are Dafny arrays, so
the reference check of `onDragEnd` is reference equality.

`Board.OnDragOver` (with the `setTasks` updater `ReorderTasks`) is proved against two
pure definitions in `BoardOrder`:

- `DragOver` gives the sequence a drag-over stores.
- `Retagged` gives the values of the shared task objects after the in-place write.

`Board.VisibleTasks` is proved against `ColumnView`, the per-column filter.
`Board.OnDragStart`, `Board.OnDragEnd`, `Board.ReceiveSnapshot` and the constructor
state their effect on the board's fields directly in their own `ensures`.

The lemmas beside these definitions state the policy:

- a same-column move;
- a cross-column move to `overIndex - 1`, with the off-by-one kept as written;
- a drop on a column body;
- that every reorder is a permutation;
- that only the dragged task changes.

`arrayMove` comes from `@dnd-kit/sortable` and its source is not part of this model.
`ArrayMoves` states its commonly documented behaviour and proves it:

- copy the array;
- remove the element at `from`;
- insert it at `to`, where a negative `to` counts back from the original length.

Modules (one per file):

- `Wrappers` (`wrappers.dfy`): `Option`.
- `Entities` (`entities.dfy`): ids, columns, task records, and the `Task` class.
- `DraggableData` (`utils.dfy`): drag payloads and `hasDraggableData`.
- `ArrayMoves` (`array_move.dfy`): `arrayMove`.
- `BoardOrder` (`board_order.dfy`): the drag-over policy and the column filter, on values.
- `KanbanBoard` (`board.dfy`): the board's state and handlers.

## Model

| member | source | states |
|---|---|---|
| DraggableData.HasDraggableData | src/components/kanban/utils.ts:16-32 | A null or undefined entry yields false. A `"Column"` or `"Task"` payload yields true. A missing `data.current` or any other tag yields false. |
| DraggableData.HasDraggableDataReadsOnlyTag | src/components/kanban/utils.ts:25-27 | Two entries with the same `type` tag get the same answer. Neither the id nor the carried payload is inspected. |
| DraggableData.TagOf | src/components/kanban/utils.ts:25 | `data.current?.type` is defined exactly when `data.current` is. |
| Entities.IdsOfRecords | src/components/kanban/board.tsx:252-253 | The ids of task objects are the ids of their current values, so id facts proved on values hold for the board's objects. |
| ArrayMoves.ArrayMove | src/components/kanban/board.tsx:8 | `arrayMove` keeps the length of the sequence. |
| ArrayMoves.ArrayMoveAt | src/components/kanban/board.tsx:8 | Element-wise description of `arrayMove`: slot `k` of the result holds the element at `Source(k)` of the input. |
| ArrayMoves.SourceInjective | src/components/kanban/board.tsx:8 | No two slots of the result come from the same input element. |
| ArrayMoves.ArrayMovePermutes | src/components/kanban/board.tsx:8 | `arrayMove` is a permutation: the multiset of elements is unchanged. |
| ArrayMoves.ArrayMoveMembers | src/components/kanban/board.tsx:8 | The result of `arrayMove` holds exactly the elements of its input. |
| ArrayMoves.ArrayMovePlaces | src/components/kanban/board.tsx:8 | The moved element lands exactly at the target slot; a negative `to` is read from the original length. |
| ArrayMoves.ArrayMoveKeepsOthersInOrder | src/components/kanban/board.tsx:8 | Removing the moved element from the result gives the input without it: the others keep their relative order. |
| ArrayMoves.ArrayMoveInPlace | src/components/kanban/board.tsx:277 | `arrayMove(tasks, i, i)` rebuilds the same sequence. |
| ArrayMoves.ArrayMoveToEnd | src/components/kanban/board.tsx:263 | `to == -1` appends the element after all the others. |
| ArrayMoves.ArrayMoveBefore | src/components/kanban/board.tsx:263 | Where a move to `over - 1` puts the element. Coming from a lower index than `over`, it ends right before the element that was at `over`. Coming from a higher index, it ends one element earlier still. With `over == 0`, it ends last. |
| ArrayMoves.ArrayMoveKeepsDistinct | src/components/kanban/board.tsx:263-266 | A move keeps a duplicate-free sequence duplicate-free. |
| ArrayMoves.ArrayMoveCopy | src/components/kanban/board.tsx:263 | The library call returns a fresh array holding the moved sequence. |
| ArrayMoves.Without | src/components/kanban/board.tsx:8 | Splicing out one element shortens the sequence by one. |
| BoardOrder.FindIndex | src/components/kanban/board.tsx:252-253 | `findIndex` by id: the first task with that id, or -1 exactly when no task has it. |
| BoardOrder.IdToString | src/components/kanban/board.tsx:276 | `overId.toString()`: a string id is returned as is. A numeric id, modelled as an integer, gives the decimal numeral whose value is the id, with a leading `-` when it is negative. This matches JavaScript for integers of magnitude at most 2^53 (`Number.MAX_SAFE_INTEGER`). |
| BoardOrder.NatToString | src/components/kanban/board.tsx:276 | For an integer `n`, the result is a numeral (non-empty digits, no leading zero) whose value `DecimalValue` is `n`. This is JavaScript's `toString` for integers up to 2^53 (`Number.MAX_SAFE_INTEGER`). |
| BoardOrder.DecimalPositive | src/components/kanban/board.tsx:276 | A numeral that does not start with `0` has a positive value. |
| BoardOrder.DecimalUnique | src/components/kanban/board.tsx:276 | Two numerals with the same value are the same string, so the contract of `NatToString` fixes its result. |
| BoardOrder.Classify | src/components/kanban/board.tsx:231-247 | A drag-over reaches a branch only when `over` is present, the ids differ, the active payload is a task, and the over payload is a task or a column. No `over`, the same id, or a non-task active entry is always ignored. |
| BoardOrder.Reassign | src/components/kanban/board.tsx:262 | The column write gives the task at `i` the new `columnId` with its other fields kept. Every other task is unchanged. |
| BoardOrder.DragOver | src/components/kanban/board.tsx:230-281 | `onDragOver` stores a new sequence exactly when the guards let the event through (`Classify` is not `Ignored`). That sequence has as many tasks as before. |
| BoardOrder.Retagged | src/components/kanban/board.tsx:262-276 | The in-place column write leaves every task whose id is not the dragged id as it was, and keeps the length. |
| BoardOrder.ColumnView | src/components/kanban/board.tsx:166 | The per-column filter is no longer than the sequence it filters. |
| BoardOrder.ColumnViewAppend | src/components/kanban/board.tsx:166 | The filter of a concatenation is the concatenation of the filters, so the filter is stable and keeps sequence order. |
| BoardOrder.ColumnViewMembers | src/components/kanban/board.tsx:166 | A column shows exactly the tasks whose `columnId` is its id. |
| BoardOrder.ColumnViewWithout | src/components/kanban/board.tsx:166 | Removing a task of another column does not change what a column shows. |
| BoardOrder.ColumnViewOfMove | src/components/kanban/board.tsx:166 | Moving a task of another column does not change what a column shows. |
| BoardOrder.DragOverIgnored | src/components/kanban/board.tsx:231-245 | With no `over`, equal ids, or a non-task active entry, `onDragOver` leaves the sequence as it was. |
| BoardOrder.RecordIdsOfMove | src/components/kanban/board.tsx:263-266 | Moving tasks moves their ids the same way. |
| BoardOrder.DragOverAsMove | src/components/kanban/board.tsx:249-281 | Every reorder writes at most the dragged task's column (the values `Retagged` describes), then calls `arrayMove` from its index. The target is its own index over a column, `overIndex - 1` across columns, and `overIndex` within a column. |
| BoardOrder.DragOverPermutes | src/components/kanban/board.tsx:250-281 | Every reorder keeps the length and the multiset of task ids. Unique ids stay unique. |
| BoardOrder.DragOverChangesOnlyActive | src/components/kanban/board.tsx:250-281 | Every task other than the dragged one appears unchanged in the result, and the result holds no other changed task. |
| BoardOrder.SameColumnMove | src/components/kanban/board.tsx:249-266 | Within one column the result is `arrayMove(tasks, activeIndex, overIndex)`. The dragged task sits at `overIndex` and no task changes. The others keep their order, and every other column shows what it showed. |
| BoardOrder.CrossColumnIsMove | src/components/kanban/board.tsx:257-263 | Across columns the result is the column write followed by `arrayMove(tasks, activeIndex, overIndex - 1)`. |
| BoardOrder.CrossColumnMove | src/components/kanban/board.tsx:257-263 | Across columns the dragged task takes the hovered task's column and lands at slot `overIndex - 1`, with the others in order. Its old column loses it and its new column shows it. Every third column is untouched. |
| BoardOrder.CrossColumnPlacement | src/components/kanban/board.tsx:263 | Across columns the dragged task lands right before the hovered task when it came from a lower index, and one task earlier still when it came from a higher index. It lands last when the hovered task is first. |
| BoardOrder.TaskOverColumnMove | src/components/kanban/board.tsx:270-280 | Over a column, only the dragged task's `columnId` changes, to the column's id, and every task keeps its slot. |
| BoardOrder.CrossColumnExample | src/components/kanban/board.tsx:257-263 | Columns c1=[T1,T2] and c2=[T3]: dragging T1 over T3 gives the sequence [T2,T1,T3], so c1=[T2] and c2=[T1,T3]. |
| KanbanBoard.RecordsOfMove | src/components/kanban/board.tsx:263-277 | Moving task objects moves their values the same way. |
| KanbanBoard.IdsOfMove | src/components/kanban/board.tsx:263-277 | Moving task objects moves their ids the same way. |
| KanbanBoard.MovedTasks | src/components/kanban/board.tsx:263-277 | The fresh array of a move holds the moved values and the same objects, with ids still unique. |
| KanbanBoard.Retag | src/components/kanban/board.tsx:262 | The in-place write changes the dragged task's column in every array that shares it, and no other task. |
| KanbanBoard.RetagDragged | src/components/kanban/board.tsx:252-263 | The updater's write and the slot it passes to `arrayMove`. Moving to that slot gives the sequence `DragOver` describes, and only the dragged object's column may change. |
| KanbanBoard.ReorderTasks | src/components/kanban/board.tsx:250-281 | The `setTasks` updater returns a fresh array holding the `DragOver` sequence, built from the same objects. The old array's objects now hold the `Retagged` values. |
| KanbanBoard.Board.constructor | src/components/kanban/board.tsx:135-138 | Local tasks and columns start as the snapshot itself, and nothing is being dragged. |
| KanbanBoard.Board.ReceiveSnapshot | src/components/kanban/board.tsx:140-147 | A defined snapshot replaces the local tasks or columns outright, and an undefined one keeps them. |
| KanbanBoard.Board.VisibleTasks | src/components/kanban/board.tsx:166 | A column renders exactly the local tasks whose `columnId` is its id. |
| KanbanBoard.Board.OnDragStart | src/components/kanban/board.tsx:192-205 | An entry without a recognised payload changes nothing. A column payload sets `activeColumn`, a task payload sets `activeTask`, and the other field keeps its value. |
| KanbanBoard.Board.OnDragOver | src/components/kanban/board.tsx:230-282 | An ignored event or undefined tasks leave the board as it was. Otherwise `tasks` becomes a fresh array, never the snapshot, holding the `DragOver` sequence of the same objects. The old array shows the `Retagged` values. Every array holding the old task objects, the snapshot included, sees the write. No other task object changes. |
| KanbanBoard.Board.OnDragEnd | src/components/kanban/board.tsx:207-219 | No call when `tasks` is the snapshot by reference. One batch call with the board id and the whole sequence when they differ and `tasks` is defined. Otherwise the error "Error updating tasks" / "No tasks found". Each case holds exactly when its condition does. |
| KanbanBoard.DropOnColumnExample | src/components/kanban/board.tsx:270-280 | Dropping T1 of c1=[T1,T2] on column c2 gives [T1 in c2, T2 in c1], with the order unchanged. |
| KanbanBoard.ExampleBoard | src/components/kanban/board.tsx:135-147 | A board fresh from a snapshot of two tasks holds that snapshot as both its initial and its local tasks. |
| KanbanBoard.DragIntoColumnExample | src/components/kanban/board.tsx:207-280 | On a fresh board, a drag end syncs nothing. After T1 is dropped on column c2, the snapshot's own T1 object reads c2. The next drag end syncs the whole sequence. |

## Left out

- Network and asynchrony are not modelled. This covers `updateTasks.mutateAsync`, `createColumn`, the `onSuccess` refetch, error toasts and query invalidation. `onDragEnd` returns a `Commit` value describing the call or the error toast instead of performing it.
- Rendering is left out: JSX, the loading screen, `DragOverlay`, `SortableContext`, column ids for sorting (`columnItems`), and the column and task cards.
- Column reordering is left out. The handlers never reorder columns: a column drag is ignored by `onDragOver`. `onDragEnd` makes the same sync decision whatever was dragged and never changes `columns`. `columns` only changes through a new snapshot.
- OnDragEnd: lines 221-227 read the event and return without any effect, so the method takes no event.
- BoardOrder.DragOver: requires that the ids it looks up are in `tasks` (`Resolvable`). When one is missing, `findIndex` gives -1 and `tasks[-1]` is undefined, so the column write is skipped and the source goes on as follows:
  - The dragged id is missing over a task: line 266 calls `arrayMove(tasks, -1, overIndex)`, which moves the last task of the sequence to `overIndex`.
  - The hovered id is missing: line 266 calls `arrayMove(tasks, activeIndex, -1)`, which moves the dragged task to the end.
  - The dragged id is missing over a column: line 279 returns the same array, so nothing changes.
  These paths are not modelled. dnd-kit only reports ids of rendered items, and every rendered task is in `tasks`.
- KanbanBoard.Board.OnDragOver: requires unique task ids in the local sequence, and `Valid` keeps that invariant. Task ids are unique per database row, and the model needs this so that a task object does not appear twice.
- KanbanBoard.Board.constructor and KanbanBoard.Board.ReceiveSnapshot: require unique task ids in the snapshot, for the same reason.
- KanbanBoard.Board.ReceiveSnapshot: stands for one run of the effect at board.tsx:140-147. React runs that effect only when `initialTasks` or `initialColumns` changes by reference. The method does not model that dependency check, so calling it twice with the same snapshot resets `tasks`, which the source would not do.
- BoardOrder.IdToString and BoardOrder.NatToString: numeric ids are modelled as unbounded integers and printed in full. The following JavaScript behaviour is not modelled:
  - Above 2^53, a `number` no longer holds every integer, and `toString` prints the shortest digits that read back to the same number, padded with zeros (`"18446744073709552000"` for 2^64).
  - From 10^21 on, `toString` uses exponent form (`"1e+21"`).
  - Fractional numbers are printed with their fraction.
  Only a column's id reaches this call (board.tsx:276), and column ids are strings, so the numeric branch is never taken in the source.
- React's state batching and re-rendering are not modelled. Each handler runs its `setTasks` updater at once on the current state.
- A payload without a `type` field is modelled as a payload with some tag other than "Column" and "Task". It compares unequal to both in every check the source makes.
- `arrayMove` is modelled from its documented behaviour, because its source is not part of this model.
- An `Option` of the column and a possibly null task stand for the payload's typed `column` and `task` fields. The handlers never inspect them beyond the tag.

## Behaviour worth knowing

- Nothing clears the dragged entity. `onDragEnd` (board.tsx:207-228) never resets `activeColumn` or `activeTask`, and no other handler does either. `Board.OnDragEnd` changes no field.
- Dragging T1 over T3, with c1=[T1,T2] and c2=[T3], gives the sequence [T2,T1,T3], so c1=[T2] and c2=[T1,T3]. `BoardOrder.CrossColumnExample` proves this.
- The cross-column target `overIndex - 1` (board.tsx:263) is kept as written. `BoardOrder.CrossColumnPlacement` proves where it puts the task. Coming from a lower index, it lands right before the hovered task. Coming from a higher index, it lands one task earlier still. When the hovered task is first, it lands last.
