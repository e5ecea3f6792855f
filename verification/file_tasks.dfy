/** The flat-file task store (`InFileTaskRepository`): one line per task,
    `ID;TITLE;DESCRIPTION;DUE_DATE;BLOCKED;CREATED_AT;COLUMN_ID`. A task read
    back carries the column the column store finds for its column id. The
    store listens for board deletions and deletes, one id at a time, every
    task listed for the deleted board. */
module FileTasks {
  import opened Wrappers
  import opened JavaText
  import opened Domain
  import opened FileUtils
  import FileBoards
  import FileColumns

  const Header: Line := "ID;TITLE;" + "DESCRIPTION;DUE_DATE;" + "BLOCKED;CREATED_AT;" + "COLUMN_ID"

  /** Seven fields, with a parseable due date (field 3) and creation time
      (field 5). */
  predicate ShapeOk(row: Row) {
    |row| >= 7 && ParseDate(row[3]).Some? && ParseTimestamp(row[5]).Some?
  }

  /** The rows the readers can parse: numeric id and column id, and the shape
      above. */
  predicate RowsOk(rows: seq<Row>) {
    && AllHaveLong(rows, 0)
    && AllHaveLong(rows, 6)
    && forall i :: 0 <= i < |rows| ==> ShapeOk(rows[i])
  }

  /** The header is one line: none of its field names holds a line break. */
  lemma HeaderOk()
    ensures NoLineBreak(Header)
  {
    var a, b, c, d := "ID;TITLE;", "DESCRIPTION;DUE_DATE;", "BLOCKED;CREATED_AT;", "COLUMN_ID";
    assert NoLineBreak(a);
    assert NoLineBreak(b);
    assert NoLineBreak(c);
    assert NoLineBreak(d);
    NoLineBreakConcat(a, b);
    NoLineBreakConcat(a + b, c);
    NoLineBreakConcat(a + b + c, d);
  }

  predicate FileOk(file: seq<Line>) {
    |file| >= 1 && LinesOk(file) && RowsOk(ReadAllRows(file))
  }

  /** The board and column files a task read resolves its column through. */
  predicate StoresOk(boards: seq<Line>, columns: seq<Line>) {
    && FileBoards.FileOk(boards)
    && FileColumns.FileOk(columns)
    && FileColumns.RefsOk(boards, columns)
  }

  /** Every row's column id names a column of the column store. */
  predicate ColumnsExist(columns: seq<Line>, rows: seq<Row>)
    requires FileColumns.FileOk(columns) && RowsOk(rows)
  {
    forall i :: 0 <= i < |rows| ==> FileColumns.ExistsById(columns, LongAt(rows[i], 6))
  }

  /** The task file refers only to columns that exist. */
  predicate RefsOk(columns: seq<Line>, file: seq<Line>)
    requires FileColumns.FileOk(columns) && FileOk(file)
  {
    ColumnsExist(columns, ReadAllRows(file))
  }

  /** A selection of rows keeps well-formedness and column references. */
  lemma RowsOkAmong(columns: seq<Line>, sub: seq<Row>, rows: seq<Row>)
    requires FileColumns.FileOk(columns) && RowsOk(rows) && ColumnsExist(columns, rows)
    requires forall i :: 0 <= i < |sub| ==> sub[i] in rows
    ensures RowsOk(sub) && ColumnsExist(columns, sub)
  {
    forall i | 0 <= i < |sub|
      ensures HasLong(sub[i], 0) && HasLong(sub[i], 6) && ShapeOk(sub[i])
      ensures FileColumns.ExistsById(columns, LongAt(sub[i], 6))
    {
      var j :| 0 <= j < |rows| && rows[j] == sub[i];
    }
  }

  /** The fields `save` writes for a task whose id is `id`. */
  function RowOf(id: Long, t: Task): (row: Row)
    ensures |row| == 7 && row[1] == t.title && row[2] == t.description
  {
    [LongToString(id), t.title, t.description, FormatDate(t.dueDate), BoolText(t.blocked),
     FormatTimestamp(t.createdAt), IdText(t.column.id)]
  }

  lemma RowOfStable(id: Long, t: Task)
    requires FieldOk(t.title) && FieldOk(t.description) && t.column.id.Some?
    ensures SplitStable(RowOf(id, t)) && ShapeOk(RowOf(id, t))
    ensures HasLong(RowOf(id, t), 0) && LongAt(RowOf(id, t), 0) == id
    ensures HasLong(RowOf(id, t), 6) && LongAt(RowOf(id, t), 6) == t.column.id.value
    ensures ParseDate(RowOf(id, t)[3]) == Some(t.dueDate)
    ensures ParseTimestamp(RowOf(id, t)[5]) == Some(t.createdAt)
    ensures BooleanValueOf(RowOf(id, t)[4]) == t.blocked
  {
    var row := RowOf(id, t);
    LongRoundTrip(id);
    DateCodecRoundTrip(t.dueDate, t.createdAt);
    BoolRoundTrip(t.blocked);
    assert FieldOk(IntToString(id)) by {
      var s := IntToString(id);
      assert forall i :: 0 <= i < |s| ==> s[i] != Delimiter;
    }
    assert FieldOk(IdText(t.column.id)) by {
      var s := IdText(t.column.id);
      assert forall i :: 0 <= i < |s| ==> s[i] != Delimiter;
    }
    assert forall i :: 0 <= i < |row| ==> Delimiter !in row[i];
    assert row[6] != "" by {
      IntRoundTrip(t.column.id.value);
    }
  }

  /** The rows `save` keeps before appending the new row: all of them for a
      new task, all but those carrying the task's id otherwise. */
  function KeptRows(file: seq<Line>, id: Option<Long>): (rows: seq<Row>)
    requires FileOk(file)
    ensures RowsOk(rows) && AllStable(rows)
    ensures forall i :: 0 <= i < |rows| ==> rows[i] in ReadAllRows(file)
    ensures id.None? ==> rows == ReadAllRows(file)
    ensures id.Some? ==> forall i :: 0 <= i < |rows| ==> LongAt(rows[i], 0) != id.value
  {
    ReadRowsStable(file);
    var all := ReadAllRows(file);
    match id
    case None => all
    case Some(v) =>
      var kept := FilterByField(all, 0, v, false);
      forall i | 0 <= i < |kept|
        ensures HasLong(kept[i], 6) && ShapeOk(kept[i]) && SplitStable(kept[i])
      {
        var j :| 0 <= j < |all| && all[j] == kept[i];
      }
      kept
  }

  /** `save`: a task without an id takes `getNextId`; a task with one replaces
      every row carrying that id. The task's row goes last. */
  function Save(file: seq<Line>, t: Task): (s: Saved<Task>)
    requires FileOk(file)
    ensures s.entity.id.Some? && s.entity == t.(id := s.entity.id)
    ensures t.id.Some? ==> s.entity == t
    ensures t.id.None? ==> s.entity.id == Some(GetNextId(file))
    ensures |s.file| >= 1 && s.file[0] == Header
  {
    var id: Long := if t.id.Some? then t.id.value else GetNextId(file);
    var saved := t.(id := Some(id));
    Saved(Rewrite(Header, KeptRows(file, t.id) + [RowOf(id, saved)]), saved)
  }

  // ---------------------------------------------------------------------
  // Reading
  // ---------------------------------------------------------------------

  /** The task the readers build from a row: every stored field is parsed
      back, and the column is what the column store's `findById` returns. */
  function TaskOfRow(boards: seq<Line>, columns: seq<Line>, row: Row, now: Timestamp): (t: Task)
    requires StoresOk(boards, columns)
    requires ShapeOk(row) && HasLong(row, 0) && HasLong(row, 6)
    requires FileColumns.ExistsById(columns, LongAt(row, 6))
    ensures t.id == Some(LongAt(row, 0)) && t.title == row[1] && t.description == row[2]
    ensures ParseDate(row[3]) == Some(t.dueDate) && ParseTimestamp(row[5]) == Some(t.createdAt)
    ensures t.blocked == BooleanValueOf(row[4])
    ensures t.column == FileColumns.FindById(boards, columns, LongAt(row, 6), now).value
    ensures t.column.id == Some(LongAt(row, 6))
    ensures t.column.board.id == Some(FileColumns.BoardIdOf(columns, LongAt(row, 6)))
  {
    Task(Some(LongAt(row, 0)), row[1], row[2], ParseDate(row[3]).value, BooleanValueOf(row[4]),
         ParseTimestamp(row[5]).value, FileColumns.FindById(boards, columns, LongAt(row, 6), now).value)
  }

  function TasksOf(boards: seq<Line>, columns: seq<Line>, rows: seq<Row>, now: Timestamp): (ts: seq<Task>)
    requires StoresOk(boards, columns) && RowsOk(rows) && ColumnsExist(columns, rows)
    ensures |ts| == |rows|
    ensures forall i :: 0 <= i < |rows| ==> ts[i] == TaskOfRow(boards, columns, rows[i], now)
  {
    if |rows| == 0 then []
    else [TaskOfRow(boards, columns, rows[0], now)] + TasksOf(boards, columns, rows[1..], now)
  }

  /** `findAll`: one task per row, in file order. */
  function FindAll(boards: seq<Line>, columns: seq<Line>, file: seq<Line>, now: Timestamp): (ts: seq<Task>)
    requires StoresOk(boards, columns) && FileOk(file) && RefsOk(columns, file)
    ensures |ts| == |ReadAllRows(file)|
    ensures forall i :: 0 <= i < |ts| ==> ts[i] == TaskOfRow(boards, columns, ReadAllRows(file)[i], now)
  {
    TasksOf(boards, columns, ReadAllRows(file), now)
  }

  /** `existsById`: some row carries `id`. */
  predicate ExistsById(file: seq<Line>, id: Long)
    requires FileOk(file)
  {
    FirstIndex(ReadAllRows(file), 0, id) < |ReadAllRows(file)|
  }

  /** `findById` maps only the first row carrying `id`, so only that row's
      column has to exist. */
  predicate FoundRowRefOk(columns: seq<Line>, file: seq<Line>, id: Long)
    requires FileColumns.FileOk(columns) && FileOk(file)
  {
    var rows := ReadAllRows(file);
    FirstIndex(rows, 0, id) < |rows| ==>
      FileColumns.ExistsById(columns, LongAt(rows[FirstIndex(rows, 0, id)], 6))
  }

  /** `findById`: the first row carrying `id`, as a task. */
  function FindById(boards: seq<Line>, columns: seq<Line>, file: seq<Line>, id: Long, now: Timestamp)
    : (r: Option<Task>)
    requires StoresOk(boards, columns) && FileOk(file) && FoundRowRefOk(columns, file, id)
    ensures r.Some? <==> ExistsById(file, id)
    ensures r.Some? ==> r.value.id == Some(id)
    ensures r.Some? ==>
      var rows := ReadAllRows(file);
      var i := FirstIndex(rows, 0, id);
      && i < |rows|
      && FileColumns.ExistsById(columns, LongAt(rows[i], 6))
      && r.value == TaskOfRow(boards, columns, rows[i], now)
  {
    var rows := ReadAllRows(file);
    var i := FirstIndex(rows, 0, id);
    if i < |rows| then Some(TaskOfRow(boards, columns, rows[i], now)) else None
  }

  /** `findAllByBoardId`: every task read from the file whose column belongs
      to board `boardId`. */
  function FindAllByBoardId(boards: seq<Line>, columns: seq<Line>, file: seq<Line>, boardId: Long,
                            now: Timestamp): (r: seq<Task>)
    requires StoresOk(boards, columns) && FileOk(file) && RefsOk(columns, file)
    ensures forall i :: 0 <= i < |r| ==> r[i].id.Some?
    ensures forall t :: t in r <==> t in FindAll(boards, columns, file, now) && t.column.board.id == Some(boardId)
  {
    TasksOnBoard(FindAll(boards, columns, file, now), boardId)
  }

  /** `findAllByColumnId`: every task read from the file whose column has id
      `columnId`. */
  function FindAllByColumnId(boards: seq<Line>, columns: seq<Line>, file: seq<Line>, columnId: Long,
                             now: Timestamp): (r: seq<Task>)
    requires StoresOk(boards, columns) && FileOk(file) && RefsOk(columns, file)
    ensures forall i :: 0 <= i < |r| ==> r[i].id.Some? && r[i].column.id == Some(columnId)
    ensures forall t :: t in r <==> t in FindAll(boards, columns, file, now) && t.column.id == Some(columnId)
  {
    TasksInColumn(FindAll(boards, columns, file, now), columnId)
  }

  /** `existsByTitleInBoard`: some task of the board has the title, ignoring
      case. */
  predicate ExistsByTitleInBoard(boards: seq<Line>, columns: seq<Line>, file: seq<Line>,
                                 title: string, boardId: Long, now: Timestamp)
    requires StoresOk(boards, columns) && FileOk(file) && RefsOk(columns, file)
  {
    var ts := FindAllByBoardId(boards, columns, file, boardId, now);
    exists i :: 0 <= i < |ts| && EqualsIgnoreCase(ts[i].title, title)
  }

  /** `existsByTitleInBoardAndIdNot`: another task of the board has the title. */
  predicate ExistsByTitleInBoardAndIdNot(boards: seq<Line>, columns: seq<Line>, file: seq<Line>,
                                         title: string, boardId: Long, id: Long, now: Timestamp)
    requires StoresOk(boards, columns) && FileOk(file) && RefsOk(columns, file)
  {
    var ts := FindAllByBoardId(boards, columns, file, boardId, now);
    exists i :: 0 <= i < |ts| && EqualsIgnoreCase(ts[i].title, title) && ts[i].id != Some(id)
  }

  // ---------------------------------------------------------------------
  // Deleting
  // ---------------------------------------------------------------------

  /** `deleteById`: every row carrying `id` is dropped; the others are written
      back in order. */
  function DeleteById(file: seq<Line>, id: Long): (r: seq<Line>)
    requires FileOk(file)
    ensures FileOk(r) && r[0] == Header
    ensures ReadAllRows(r) == FilterByField(ReadAllRows(file), 0, id, false)
    ensures !ExistsById(r, id)
    ensures forall v: Long :: v != id ==> (ExistsById(r, v) <==> ExistsById(file, v))
  {
    var rows := ReadAllRows(file);
    var kept := FilterByField(rows, 0, id, false);
    HeaderOk();
    ReadRewriteAmong(file, Header, kept);
    ShapeAmong(kept, rows);
    FilterDropsAll(rows, 0, id);
    forall v: Long | v != id
      ensures FirstIndex(kept, 0, v) < |kept| <==> FirstIndex(rows, 0, v) < |rows|
    {
      FilterKeepsOthers(rows, 0, id, v);
    }
    Rewrite(Header, kept)
  }

  /** Rows drawn from well-formed rows are well formed. */
  lemma ShapeAmong(sub: seq<Row>, rows: seq<Row>)
    requires RowsOk(rows)
    requires forall i :: 0 <= i < |sub| ==> sub[i] in rows
    ensures RowsOk(sub)
  {
    forall i | 0 <= i < |sub|
      ensures HasLong(sub[i], 0) && HasLong(sub[i], 6) && ShapeOk(sub[i])
    {
      var j :| 0 <= j < |rows| && rows[j] == sub[i];
    }
  }

  /** `deleteById` for each id in turn. */
  function DeleteAll(file: seq<Line>, ids: seq<Long>): (r: seq<Line>)
    requires FileOk(file)
    ensures FileOk(r)
    ensures ReadAllRows(r) == DropValues(ReadAllRows(file), 0, ids)
    decreases |ids|
  {
    if |ids| == 0 then
      DropNoValues(ReadAllRows(file), 0);
      file
    else
      var next := DeleteById(file, ids[0]);
      var r := DeleteAll(next, ids[1..]);
      DropValuesStep(ReadAllRows(file), 0, ids[0], ids[1..]);
      assert [ids[0]] + ids[1..] == ids;
      r
  }

  function IdsOf(ts: seq<Task>): (ids: seq<Long>)
    requires forall i :: 0 <= i < |ts| ==> ts[i].id.Some?
    ensures |ids| == |ts|
    ensures forall i :: 0 <= i < |ts| ==> ids[i] == ts[i].id.value
  {
    if |ts| == 0 then [] else [ts[0].id.value] + IdsOf(ts[1..])
  }

  /** `onEntityDeleted` for a board: `deleteAllByBoardId` lists the board's
      tasks and deletes each by id. */
  function OnBoardDeleted(boards: seq<Line>, columns: seq<Line>, file: seq<Line>, boardId: Long,
                          now: Timestamp): (r: seq<Line>)
    requires StoresOk(boards, columns) && FileOk(file) && RefsOk(columns, file)
    ensures FileOk(r)
  {
    DeleteAll(file, IdsOf(FindAllByBoardId(boards, columns, file, boardId, now)))
  }

  // ---------------------------------------------------------------------
  // Properties
  // ---------------------------------------------------------------------

  /** A save rewrites the file so that it reads back as the kept rows
      followed by the task's row, and the file stays well formed. */
  lemma SaveReadsBack(file: seq<Line>, t: Task)
    requires FileOk(file) && FieldOk(t.title) && FieldOk(t.description) && t.column.id.Some?
    ensures ReadAllRows(Save(file, t).file)
         == KeptRows(file, t.id) + [RowOf(Save(file, t).entity.id.value, Save(file, t).entity)]
    ensures FileOk(Save(file, t).file)
  {
    var s := Save(file, t);
    var kept := KeptRows(file, t.id);
    var row := RowOf(s.entity.id.value, s.entity);
    RowOfStable(s.entity.id.value, s.entity);
    HeaderOk();
    ReadRewriteAppend(Header, kept, row);
    RowsOkAppend(kept, row);
  }

  lemma RowsOkAppend(rows: seq<Row>, row: Row)
    requires RowsOk(rows) && HasLong(row, 0) && HasLong(row, 6) && ShapeOk(row)
    ensures RowsOk(rows + [row])
  {
    assert forall i :: 0 <= i < |rows + [row]| ==> (rows + [row])[i] == if i < |rows| then rows[i] else row;
  }

  /** Saving a task whose column exists keeps the file's column references
      intact. */
  lemma SaveKeepsRefs(columns: seq<Line>, file: seq<Line>, t: Task)
    requires FileColumns.FileOk(columns) && FileOk(file) && RefsOk(columns, file)
    requires FieldOk(t.title) && FieldOk(t.description)
    requires t.column.id.Some? && FileColumns.ExistsById(columns, t.column.id.value)
    ensures FileOk(Save(file, t).file) && RefsOk(columns, Save(file, t).file)
  {
    var s := Save(file, t);
    var kept := KeptRows(file, t.id);
    var row := RowOf(s.entity.id.value, s.entity);
    SaveReadsBack(file, t);
    RowOfStable(s.entity.id.value, s.entity);
    RowsOkAmong(columns, kept, ReadAllRows(file));
    var rows := kept + [row];
    forall i | 0 <= i < |rows|
      ensures FileColumns.ExistsById(columns, LongAt(rows[i], 6))
    {
      if i < |kept| {
        assert rows[i] == kept[i];
      } else {
        assert rows[i] == row;
      }
    }
  }

  /** A saved task is found again under its id with every stored field as
      saved; its column is the column store's answer for the column id. Needs
      the id to be fresh, which a new task's id is unless `getNextId` has
      wrapped around. */
  lemma SaveThenFind(boards: seq<Line>, columns: seq<Line>, file: seq<Line>, t: Task, now: Timestamp)
    requires StoresOk(boards, columns) && FileOk(file)
    requires FieldOk(t.title) && FieldOk(t.description)
    requires t.column.id.Some? && FileColumns.ExistsById(columns, t.column.id.value)
    requires t.id.Some? || MaxId(DataLines(file)) < LongMax
    ensures FileOk(Save(file, t).file)
    ensures FoundRowRefOk(columns, Save(file, t).file, Save(file, t).entity.id.value)
    ensures FindById(boards, columns, Save(file, t).file, Save(file, t).entity.id.value, now)
         == Some(Save(file, t).entity.(column := FileColumns.FindById(boards, columns, t.column.id.value, now).value))
  {
    var s := Save(file, t);
    var id := s.entity.id.value;
    var kept := KeptRows(file, t.id);
    var row := RowOf(id, s.entity);
    SaveReadsBack(file, t);
    RowOfStable(id, s.entity);
    if t.id.None? {
      NextIdIsFresh(file);
    }
    FindLastRow(boards, columns, s.file, kept, row, id, now);
  }

  /** In a file whose last row alone carries `id`, `findById` returns that
      row's task. */
  lemma FindLastRow(boards: seq<Line>, columns: seq<Line>, file: seq<Line>, kept: seq<Row>, row: Row,
                    id: Long, now: Timestamp)
    requires StoresOk(boards, columns) && FileOk(file) && ReadAllRows(file) == kept + [row]
    requires AllHaveLong(kept, 0) && HasLong(row, 0) && LongAt(row, 0) == id
    requires HasLong(row, 6) && ShapeOk(row) && FileColumns.ExistsById(columns, LongAt(row, 6))
    requires forall i :: 0 <= i < |kept| ==> LongAt(kept[i], 0) != id
    ensures FoundRowRefOk(columns, file, id)
    ensures FindById(boards, columns, file, id, now) == Some(TaskOfRow(boards, columns, row, now))
  {
    var rows := kept + [row];
    assert rows[|kept|] == row;
    assert FirstIndex(rows, 0, id) == |kept|;
  }

  /** Deleting the listed ids leaves exactly the rows whose id is not listed. */
  lemma DeleteAllKeeps(file: seq<Line>, ids: seq<Long>)
    requires FileOk(file)
    ensures forall i :: 0 <= i < |ReadAllRows(DeleteAll(file, ids))| ==>
      ReadAllRows(DeleteAll(file, ids))[i] in ReadAllRows(file)
      && LongAt(ReadAllRows(DeleteAll(file, ids))[i], 0) !in ids
    ensures forall i :: 0 <= i < |ReadAllRows(file)| && LongAt(ReadAllRows(file)[i], 0) !in ids ==>
      ReadAllRows(file)[i] in ReadAllRows(DeleteAll(file, ids))
  {
  }

  /** Every row is listed for its column's board. */
  lemma RowListedForBoard(boards: seq<Line>, columns: seq<Line>, file: seq<Line>, i: nat, now: Timestamp)
    requires StoresOk(boards, columns) && FileOk(file) && RefsOk(columns, file)
    requires i < |ReadAllRows(file)|
    ensures LongAt(ReadAllRows(file)[i], 0) in
      IdsOf(FindAllByBoardId(boards, columns, file,
                             FileColumns.BoardIdOf(columns, LongAt(ReadAllRows(file)[i], 6)), now))
  {
    var rows := ReadAllRows(file);
    var b := FileColumns.BoardIdOf(columns, LongAt(rows[i], 6));
    var all := FindAll(boards, columns, file, now);
    var ts := FindAllByBoardId(boards, columns, file, b, now);
    assert all[i] in all;
    assert all[i] in ts;
    var k :| 0 <= k < |ts| && ts[k] == all[i];
    assert IdsOf(ts)[k] == LongAt(rows[i], 0);
  }

  /** After the cascade step every remaining row was there before and its
      column is not on the deleted board, the remaining rows still refer to
      existing columns, and every task of another board stays unless it shares
      its id with a task of the deleted board. */
  lemma OnBoardDeletedClearsBoard(boards: seq<Line>, columns: seq<Line>, file: seq<Line>, boardId: Long,
                                  now: Timestamp)
    requires StoresOk(boards, columns) && FileOk(file) && RefsOk(columns, file)
    ensures RefsOk(columns, OnBoardDeleted(boards, columns, file, boardId, now))
    ensures forall i :: 0 <= i < |ReadAllRows(OnBoardDeleted(boards, columns, file, boardId, now))| ==>
      var row := ReadAllRows(OnBoardDeleted(boards, columns, file, boardId, now))[i];
      row in ReadAllRows(file) && FileColumns.BoardIdOf(columns, LongAt(row, 6)) != boardId
    ensures forall i :: 0 <= i < |ReadAllRows(file)| ==>
      (&& FileColumns.BoardIdOf(columns, LongAt(ReadAllRows(file)[i], 6)) != boardId
       && LongAt(ReadAllRows(file)[i], 0) !in IdsOf(FindAllByBoardId(boards, columns, file, boardId, now)))
      ==> ReadAllRows(file)[i] in ReadAllRows(OnBoardDeleted(boards, columns, file, boardId, now))
  {
    var ids := IdsOf(FindAllByBoardId(boards, columns, file, boardId, now));
    var r := OnBoardDeleted(boards, columns, file, boardId, now);
    DeleteAllKeeps(file, ids);
    LeftRowsOffBoard(boards, columns, file, r, boardId, now);
  }

  /** Rows left after deleting the listed ids of a board are off that board. */
  lemma LeftRowsOffBoard(boards: seq<Line>, columns: seq<Line>, file: seq<Line>, r: seq<Line>,
                         boardId: Long, now: Timestamp)
    requires StoresOk(boards, columns) && FileOk(file) && RefsOk(columns, file) && FileOk(r)
    requires forall i :: 0 <= i < |ReadAllRows(r)| ==>
      ReadAllRows(r)[i] in ReadAllRows(file)
      && LongAt(ReadAllRows(r)[i], 0) !in IdsOf(FindAllByBoardId(boards, columns, file, boardId, now))
    ensures RefsOk(columns, r)
    ensures forall i :: 0 <= i < |ReadAllRows(r)| ==>
      FileColumns.BoardIdOf(columns, LongAt(ReadAllRows(r)[i], 6)) != boardId
  {
    var rows := ReadAllRows(file);
    var left := ReadAllRows(r);
    RowsOkAmong(columns, left, rows);
    forall i | 0 <= i < |left|
      ensures FileColumns.BoardIdOf(columns, LongAt(left[i], 6)) != boardId
    {
      assert left[i] in rows;
      var j :| 0 <= j < |rows| && rows[j] == left[i];
      RowListedForBoard(boards, columns, file, j, now);
    }
  }

  /** The tasks listed for a column are among those listed for the column's
      board. */
  lemma ColumnTasksOnBoard(boards: seq<Line>, columns: seq<Line>, file: seq<Line>, columnId: Long,
                           now: Timestamp)
    requires StoresOk(boards, columns) && FileOk(file) && RefsOk(columns, file)
    requires FileColumns.ExistsById(columns, columnId)
    ensures forall t :: t in FindAllByColumnId(boards, columns, file, columnId, now) ==>
      t in FindAllByBoardId(boards, columns, file, FileColumns.BoardIdOf(columns, columnId), now)
  {
    var all := FindAll(boards, columns, file, now);
    var rows := ReadAllRows(file);
    forall t | t in FindAllByColumnId(boards, columns, file, columnId, now)
      ensures t.column.board.id == Some(FileColumns.BoardIdOf(columns, columnId))
    {
      var i :| 0 <= i < |all| && all[i] == t;
      assert all[i] == TaskOfRow(boards, columns, rows[i], now);
    }
  }

  /** The update check ignores the task's own row: a clash with another task
      is a clash, and when the only holder of the title is the task itself
      the plain check still sees it. */
  lemma TitleCheckIgnoresOwnTask(boards: seq<Line>, columns: seq<Line>, file: seq<Line>,
                                 title: string, boardId: Long, id: Long, now: Timestamp)
    requires StoresOk(boards, columns) && FileOk(file) && RefsOk(columns, file)
    ensures ExistsByTitleInBoardAndIdNot(boards, columns, file, title, boardId, id, now) ==>
      ExistsByTitleInBoard(boards, columns, file, title, boardId, now)
    ensures (ExistsByTitleInBoard(boards, columns, file, title, boardId, now)
             && !ExistsByTitleInBoardAndIdNot(boards, columns, file, title, boardId, id, now))
            ==> ExistsById(file, id)
  {
    var ts := FindAllByBoardId(boards, columns, file, boardId, now);
    if ExistsByTitleInBoard(boards, columns, file, title, boardId, now)
      && !ExistsByTitleInBoardAndIdNot(boards, columns, file, title, boardId, id, now) {
      var k :| 0 <= k < |ts| && EqualsIgnoreCase(ts[k].title, title);
      assert ts[k].id == Some(id);
      ListedTaskExists(boards, columns, file, boardId, now, k);
    }
  }

  /** Every listed task of a board is stored under its id. */
  lemma ListedTaskExists(boards: seq<Line>, columns: seq<Line>, file: seq<Line>, boardId: Long,
                         now: Timestamp, k: nat)
    requires StoresOk(boards, columns) && FileOk(file) && RefsOk(columns, file)
    requires k < |FindAllByBoardId(boards, columns, file, boardId, now)|
    ensures ExistsById(file, FindAllByBoardId(boards, columns, file, boardId, now)[k].id.value)
  {
    var ts := FindAllByBoardId(boards, columns, file, boardId, now);
    var all := FindAll(boards, columns, file, now);
    var rows := ReadAllRows(file);
    assert ts[k] in all;
    var i :| 0 <= i < |all| && all[i] == ts[k];
    FirstIndexFinds(rows, 0, ts[k].id.value, i);
  }
}
