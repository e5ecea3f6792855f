/** The three flat files together and the delete cascade that simulates a
    foreign key: the board store's `deleteById` notifies its listeners in the
    order they were registered, then removes the board's rows. The
    application registers the task store first and the column store second,
    and the order matters: the task store finds a board's tasks through their
    columns, so it has to run while those columns still exist. */
module FileDatabase {
  import opened JavaText
  import opened Domain
  import opened FileUtils
  import FileBoards
  import FileColumns
  import FileTasks

  datatype Files = Files(boards: seq<Line>, columns: seq<Line>, tasks: seq<Line>)

  /** Every file is well formed and every reference resolves: the state in
      which no store operation throws. */
  predicate Consistent(db: Files) {
    && FileTasks.StoresOk(db.boards, db.columns)
    && FileTasks.FileOk(db.tasks)
    && FileTasks.RefsOk(db.columns, db.tasks)
  }

  /** The stores registered on the board store. */
  datatype Listener = ColumnStore | TaskStore

  /** The registration order the application uses. */
  const CascadeOrder: seq<Listener> := [TaskStore, ColumnStore]

  /** What a listener needs to run its step without an exception: the column
      store only parses its own rows; the task store reads every task, and
      each task read resolves its column and that column's board. */
  predicate Ready(db: Files, l: Listener) {
    match l
    case ColumnStore => FileColumns.FileOk(db.columns)
    case TaskStore =>
      && FileTasks.StoresOk(db.boards, db.columns)
      && FileTasks.FileOk(db.tasks)
      && FileTasks.RefsOk(db.columns, db.tasks)
  }

  /** One listener's `onEntityDeleted(boardId)`. */
  function Notify(db: Files, l: Listener, boardId: Long, now: Timestamp): (r: Files)
    requires Ready(db, l)
    ensures r.boards == db.boards
    ensures l == ColumnStore ==> r.tasks == db.tasks && FileColumns.FileOk(r.columns)
    ensures l == TaskStore ==> r.columns == db.columns && FileTasks.FileOk(r.tasks)
  {
    match l
    case ColumnStore => db.(columns := FileColumns.DeleteByBoardId(db.columns, boardId))
    case TaskStore => db.(tasks := FileTasks.OnBoardDeleted(db.boards, db.columns, db.tasks, boardId, now))
  }

  /** Every listener, run in turn, finds the files in a state it can handle. */
  predicate CanNotify(db: Files, ls: seq<Listener>, boardId: Long, now: Timestamp)
    decreases |ls|
  {
    |ls| == 0 || (Ready(db, ls[0]) && CanNotify(Notify(db, ls[0], boardId, now), ls[1..], boardId, now))
  }

  /** `listeners.forEach(l -> l.onEntityDeleted(id))`. */
  function NotifyAll(db: Files, ls: seq<Listener>, boardId: Long, now: Timestamp): (r: Files)
    requires CanNotify(db, ls, boardId, now)
    ensures r.boards == db.boards
    decreases |ls|
  {
    if |ls| == 0 then db else NotifyAll(Notify(db, ls[0], boardId, now), ls[1..], boardId, now)
  }

  /** The file store's `deleteById` for a board: the listeners run first, then
      the board's rows are removed. */
  function DeleteBoard(db: Files, boardId: Long, now: Timestamp): (r: Files)
    requires FileBoards.FileOk(db.boards) && CanNotify(db, CascadeOrder, boardId, now)
    ensures FileBoards.FileOk(r.boards) && !FileBoards.ExistsById(r.boards, boardId)
  {
    var notified := NotifyAll(db, CascadeOrder, boardId, now);
    notified.(boards := FileBoards.RemoveRows(notified.boards, boardId))
  }

  // ---------------------------------------------------------------------
  // Properties
  // ---------------------------------------------------------------------

  /** In the application's order the cascade always runs to the end from a
      consistent state, and leaves a consistent state in which the board, its
      columns and its tasks are gone while every other board still exists. */
  lemma CascadeDeleteConsistent(db: Files, boardId: Long, now: Timestamp)
    requires Consistent(db)
    ensures CanNotify(db, CascadeOrder, boardId, now)
    ensures Consistent(DeleteBoard(db, boardId, now))
    ensures !FileBoards.ExistsById(DeleteBoard(db, boardId, now).boards, boardId)
    ensures forall b: Long :: b != boardId ==>
      (FileBoards.ExistsById(DeleteBoard(db, boardId, now).boards, b) <==> FileBoards.ExistsById(db.boards, b))
    ensures FileColumns.FindAllByBoardId(DeleteBoard(db, boardId, now).boards,
                                         DeleteBoard(db, boardId, now).columns, boardId, now) == []
    ensures FileTasks.FindAllByBoardId(DeleteBoard(db, boardId, now).boards, DeleteBoard(db, boardId, now).columns,
                                       DeleteBoard(db, boardId, now).tasks, boardId, now) == []
  {
    var afterTasks := Notify(db, TaskStore, boardId, now);
    FileTasks.OnBoardDeletedClearsBoard(db.boards, db.columns, db.tasks, boardId, now);
    assert Ready(afterTasks, ColumnStore);
    var afterColumns := Notify(afterTasks, ColumnStore, boardId, now);
    assert CanNotify(afterColumns, [], boardId, now);
    assert CascadeOrder[1..][1..] == [];
    assert NotifyAll(db, CascadeOrder, boardId, now) == afterColumns;
    var r := DeleteBoard(db, boardId, now);
    assert r == afterColumns.(boards := FileBoards.RemoveRows(db.boards, boardId));
    ColumnsAfterCascade(db.boards, db.columns, boardId);
    TasksAfterCascade(db, afterTasks.tasks, boardId, now);
    FileColumns.DeleteByBoardIdEmptiesBoard(r.boards, r.columns, boardId, now);
    FileColumns.DeleteByBoardIdEmptiesBoard(db.boards, db.columns, boardId, now);
    NoTaskOnBoard(r, boardId, now);
  }

  /** The columns left by the cascade refer only to boards that survive it. */
  lemma ColumnsAfterCascade(boards: seq<Line>, columns: seq<Line>, boardId: Long)
    requires FileBoards.FileOk(boards) && FileColumns.FileOk(columns) && FileColumns.RefsOk(boards, columns)
    ensures FileColumns.RefsOk(FileBoards.RemoveRows(boards, boardId), FileColumns.DeleteByBoardId(columns, boardId))
  {
    var left := ReadAllRows(FileColumns.DeleteByBoardId(columns, boardId));
    forall i | 0 <= i < |left|
      ensures FileBoards.ExistsById(FileBoards.RemoveRows(boards, boardId), LongAt(left[i], 1))
    {
      KeptColumnKeepsBoard(boards, columns, boardId, i);
    }
  }

  /** One column row kept by the cascade: its board survives. */
  lemma KeptColumnKeepsBoard(boards: seq<Line>, columns: seq<Line>, boardId: Long, i: nat)
    requires FileBoards.FileOk(boards) && FileColumns.FileOk(columns) && FileColumns.RefsOk(boards, columns)
    requires i < |ReadAllRows(FileColumns.DeleteByBoardId(columns, boardId))|
    ensures FileBoards.ExistsById(FileBoards.RemoveRows(boards, boardId),
                                  LongAt(ReadAllRows(FileColumns.DeleteByBoardId(columns, boardId))[i], 1))
  {
    var row := ReadAllRows(FileColumns.DeleteByBoardId(columns, boardId))[i];
    var rows := ReadAllRows(columns);
    assert row in rows;
    var j :| 0 <= j < |rows| && rows[j] == row;
    assert FileBoards.ExistsById(boards, LongAt(rows[j], 1));
  }

  /** The tasks left by the cascade refer only to columns that survive it. */
  lemma TasksAfterCascade(db: Files, tasks: seq<Line>, boardId: Long, now: Timestamp)
    requires Consistent(db)
    requires tasks == FileTasks.OnBoardDeleted(db.boards, db.columns, db.tasks, boardId, now)
    ensures FileTasks.FileOk(tasks)
    ensures FileTasks.RefsOk(FileColumns.DeleteByBoardId(db.columns, boardId), tasks)
    ensures forall i :: 0 <= i < |ReadAllRows(tasks)| ==>
      FileColumns.BoardIdOf(FileColumns.DeleteByBoardId(db.columns, boardId), LongAt(ReadAllRows(tasks)[i], 6))
      != boardId
  {
    FileTasks.OnBoardDeletedClearsBoard(db.boards, db.columns, db.tasks, boardId, now);
    var left := ReadAllRows(tasks);
    var cols := FileColumns.DeleteByBoardId(db.columns, boardId);
    forall i | 0 <= i < |left|
      ensures FileColumns.ExistsById(cols, LongAt(left[i], 6))
      ensures FileColumns.BoardIdOf(cols, LongAt(left[i], 6)) != boardId
    {
      FileColumns.DeleteKeepsOtherColumn(db.columns, boardId, LongAt(left[i], 6));
    }
  }

  /** In a consistent state whose task rows all resolve to other boards, no
      task is listed for the board. */
  lemma NoTaskOnBoard(db: Files, boardId: Long, now: Timestamp)
    requires Consistent(db)
    requires forall i :: 0 <= i < |ReadAllRows(db.tasks)| ==>
      FileColumns.BoardIdOf(db.columns, LongAt(ReadAllRows(db.tasks)[i], 6)) != boardId
    ensures FileTasks.FindAllByBoardId(db.boards, db.columns, db.tasks, boardId, now) == []
  {
    NoneOnBoard(FileTasks.FindAll(db.boards, db.columns, db.tasks, now), boardId);
  }

  /** Registered the other way round the cascade breaks: once the column
      store has dropped the board's columns, a task of that board whose
      column id no other board uses can no longer be read, so the task
      store's `findAll` fails before deleting anything. */
  lemma ColumnsFirstFails(db: Files, boardId: Long, now: Timestamp, t: nat)
    requires Consistent(db)
    requires t < |ReadAllRows(db.tasks)|
    requires forall i :: 0 <= i < |ReadAllRows(db.columns)| ==>
      (LongAt(ReadAllRows(db.columns)[i], 0) == LongAt(ReadAllRows(db.tasks)[t], 6) ==>
       LongAt(ReadAllRows(db.columns)[i], 1) == boardId)
    ensures !CanNotify(db, [ColumnStore, TaskStore], boardId, now)
  {
    var c := LongAt(ReadAllRows(db.tasks)[t], 6);
    var afterColumns := Notify(db, ColumnStore, boardId, now);
    FileColumns.DeleteDropsBoardColumn(db.columns, boardId, c);
    assert !Ready(afterColumns, TaskStore);
    assert [ColumnStore, TaskStore][1..] == [TaskStore];
  }
}
