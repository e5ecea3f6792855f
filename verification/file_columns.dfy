/** The flat-file column store (`InFileColumnRepository`): one line per column,
    `ID;BOARD_ID;TYPE`. Saving appends a line; a column read back carries the
    board found for its board id in the board store. The store also listens
    for board deletions and drops the columns of the deleted board. */
module FileColumns {
  import opened Wrappers
  import opened JavaText
  import opened Domain
  import opened FileUtils
  import FileBoards

  const Header: Line := "ID;BOARD_ID;" + "TYPE"

  /** Field 2 of a column row names a column type. */
  predicate TypeOk(row: Row) {
    |row| >= 3 && ColumnTypeValueOf(row[2]).Some?
  }

  /** The rows the readers can parse: numeric id and board id, a known type. */
  predicate RowsOk(rows: seq<Row>) {
    && AllHaveLong(rows, 0)
    && AllHaveLong(rows, 1)
    && forall i :: 0 <= i < |rows| ==> TypeOk(rows[i])
  }

  predicate FileOk(file: seq<Line>) {
    |file| >= 1 && LinesOk(file) && RowsOk(ReadAllRows(file))
  }

  /** The header is one line: none of its field names holds a line break. */
  lemma HeaderOk()
    ensures NoLineBreak(Header)
  {
    var a, b := "ID;BOARD_ID;", "TYPE";
    assert NoLineBreak(a);
    assert NoLineBreak(b);
    NoLineBreakConcat(a, b);
  }

  /** Every row's board id names a board of the board store. */
  predicate BoardsExist(boards: seq<Line>, rows: seq<Row>)
    requires FileBoards.FileOk(boards) && RowsOk(rows)
  {
    forall i :: 0 <= i < |rows| ==> FileBoards.ExistsById(boards, LongAt(rows[i], 1))
  }

  /** The column file refers only to boards that exist. */
  predicate RefsOk(boards: seq<Line>, file: seq<Line>)
    requires FileBoards.FileOk(boards) && FileOk(file)
  {
    BoardsExist(boards, ReadAllRows(file))
  }

  /** A selection of well-formed rows is well formed. */
  lemma RowsOkAmong(sub: seq<Row>, rows: seq<Row>)
    requires RowsOk(rows)
    requires forall i :: 0 <= i < |sub| ==> sub[i] in rows
    ensures RowsOk(sub)
  {
    RowsAmong(sub, rows, (row: Row) => HasLong(row, 0));
    RowsAmong(sub, rows, (row: Row) => HasLong(row, 1));
    RowsAmong(sub, rows, TypeOk);
  }

  /** The fields of the line `save` appends. */
  function RowOf(id: Long, c: Column): (row: Row)
    ensures |row| == 3
  {
    [LongToString(id), IdText(c.board.id), ColumnTypeName(c.kind)]
  }

  lemma RowOfStable(id: Long, c: Column)
    ensures SplitStable(RowOf(id, c))
    ensures HasLong(RowOf(id, c), 0) && LongAt(RowOf(id, c), 0) == id
    ensures c.board.id.Some? ==> HasLong(RowOf(id, c), 1) && LongAt(RowOf(id, c), 1) == c.board.id.value
    ensures TypeOk(RowOf(id, c)) && ColumnTypeValueOf(RowOf(id, c)[2]) == Some(c.kind)
  {
    LongRoundTrip(id);
    ColumnTypeRoundTrip(c.kind);
    assert FieldOk(IntToString(id)) by {
      var s := IntToString(id);
      assert forall i :: 0 <= i < |s| ==> s[i] != Delimiter;
    }
    assert FieldOk(IdText(c.board.id)) by {
      var s := IdText(c.board.id);
      if c.board.id.Some? {
        assert forall i :: 0 <= i < |s| ==> s[i] != Delimiter;
      }
    }
  }

  /** `save`: a column without an id takes `getNextId`; the line
      `id;boardId;TYPE` is appended and nothing already in the file changes. */
  function Save(file: seq<Line>, c: Column): (s: Saved<Column>)
    requires |file| >= 1
    ensures s.entity.id.Some? && s.entity == c.(id := s.entity.id)
    ensures c.id.Some? ==> s.entity == c
    ensures c.id.None? ==> s.entity.id == Some(GetNextId(file))
    ensures |s.file| == |file| + 1 && s.file[..|file|] == file
  {
    var id: Long := if c.id.Some? then c.id.value else GetNextId(file);
    Saved(file + [Join(RowOf(id, c))], c.(id := Some(id)))
  }

  // ---------------------------------------------------------------------
  // Reading
  // ---------------------------------------------------------------------

  /** `new Column(id, board, ColumnType.valueOf(type))`, the board being what
      the board store's `findById` returns for the row's board id. */
  function ColumnOfRow(boards: seq<Line>, row: Row, now: Timestamp): (c: Column)
    requires FileBoards.FileOk(boards)
    requires HasLong(row, 0) && HasLong(row, 1) && TypeOk(row)
    requires FileBoards.ExistsById(boards, LongAt(row, 1))
    ensures c.id == Some(LongAt(row, 0))
    ensures c.board.id == Some(LongAt(row, 1)) && c.board.createdAt == now
    ensures ColumnTypeValueOf(row[2]) == Some(c.kind)
  {
    Column(Some(LongAt(row, 0)),
           FileBoards.FindById(boards, LongAt(row, 1), now).value,
           ColumnTypeValueOf(row[2]).value)
  }

  function ColumnsOf(boards: seq<Line>, rows: seq<Row>, now: Timestamp): (cs: seq<Column>)
    requires FileBoards.FileOk(boards) && RowsOk(rows) && BoardsExist(boards, rows)
    ensures |cs| == |rows|
    ensures forall i :: 0 <= i < |rows| ==> cs[i] == ColumnOfRow(boards, rows[i], now)
  {
    if |rows| == 0 then []
    else [ColumnOfRow(boards, rows[0], now)] + ColumnsOf(boards, rows[1..], now)
  }

  lemma RowsOkConcat(a: seq<Row>, b: seq<Row>)
    requires RowsOk(a) && RowsOk(b)
    ensures RowsOk(a + b)
  {
    var ab := a + b;
    forall i | 0 <= i < |ab|
      ensures HasLong(ab[i], 0) && HasLong(ab[i], 1) && TypeOk(ab[i])
    {
      if i >= |a| {
        assert ab[i] == b[i - |a|];
      }
    }
  }

  lemma BoardsExistConcat(boards: seq<Line>, a: seq<Row>, b: seq<Row>)
    requires FileBoards.FileOk(boards) && RowsOk(a) && BoardsExist(boards, a)
    requires RowsOk(b) && BoardsExist(boards, b)
    ensures RowsOk(a + b) && BoardsExist(boards, a + b)
  {
    RowsOkConcat(a, b);
    var ab := a + b;
    forall i | 0 <= i < |ab|
      ensures FileBoards.ExistsById(boards, LongAt(ab[i], 1))
    {
      if i >= |a| {
        assert ab[i] == b[i - |a|];
      }
    }
  }

  lemma {:induction false} ColumnsOfAppend(boards: seq<Line>, a: seq<Row>, b: seq<Row>, now: Timestamp)
    requires FileBoards.FileOk(boards) && RowsOk(a) && BoardsExist(boards, a)
    requires RowsOk(b) && BoardsExist(boards, b)
    ensures RowsOk(a + b) && BoardsExist(boards, a + b)
    ensures ColumnsOf(boards, a + b, now) == ColumnsOf(boards, a, now) + ColumnsOf(boards, b, now)
  {
    BoardsExistConcat(boards, a, b);
    if |a| > 0 {
      assert (a + b)[1..] == a[1..] + b;
      ColumnsOfAppend(boards, a[1..], b, now);
    } else {
      assert a + b == b;
    }
  }

  /** The scan for the first row carrying column id `id` finds one. */
  predicate ExistsById(file: seq<Line>, id: Long)
    requires FileOk(file)
  {
    FirstIndex(ReadAllRows(file), 0, id) < |ReadAllRows(file)|
  }

  /** `findById`: the first line carrying `id`, as a column. */
  function FindById(boards: seq<Line>, file: seq<Line>, id: Long, now: Timestamp): (r: Option<Column>)
    requires FileBoards.FileOk(boards) && FileOk(file) && RefsOk(boards, file)
    ensures r.Some? <==> ExistsById(file, id)
    ensures r.Some? ==> r.value.id == Some(id) && r.value.board.createdAt == now
    ensures r.Some? ==>
      var rows := ReadAllRows(file);
      var i := FirstIndex(rows, 0, id);
      && i < |rows|
      && r.value.board.id == Some(LongAt(rows[i], 1))
      && ColumnTypeValueOf(rows[i][2]) == Some(r.value.kind)
  {
    var rows := ReadAllRows(file);
    var i := FirstIndex(rows, 0, id);
    if i < |rows| then Some(ColumnOfRow(boards, rows[i], now)) else None
  }

  /** The board id field of the first row carrying column id `id`: the board
      a task in that column belongs to. */
  function BoardIdOf(file: seq<Line>, id: Long): (b: Long)
    requires FileOk(file) && ExistsById(file, id)
    ensures forall boards: seq<Line>, now: Timestamp ::
      FileBoards.FileOk(boards) && RefsOk(boards, file) ==>
        FindById(boards, file, id, now).value.board.id == Some(b)
  {
    var rows := ReadAllRows(file);
    LongAt(rows[FirstIndex(rows, 0, id)], 1)
  }

  /** `findAllByBoardId`: the columns whose board id field is `boardId`, in
      file order. */
  function FindAllByBoardId(boards: seq<Line>, file: seq<Line>, boardId: Long, now: Timestamp): (r: seq<Column>)
    requires FileBoards.FileOk(boards) && FileOk(file) && RefsOk(boards, file)
    ensures |r| == CountWhere(ReadAllRows(file), 1, boardId)
    ensures forall i :: 0 <= i < |r| ==> r[i].board.id == Some(boardId)
    ensures r == ColumnsOnBoard(ColumnsOf(boards, ReadAllRows(file), now), boardId)
  {
    var rows := ReadAllRows(file);
    var matching := FilterByField(rows, 1, boardId, true);
    MatchingRowsOk(boards, rows, boardId);
    FilterCount(rows, 1, boardId);
    FilterThenRead(boards, rows, boardId, now);
    ColumnsOf(boards, matching, now)
  }

  /** Keeping the rows of a board and reading them gives the same columns,
      in the same order, as reading every row and keeping the board's columns. */
  lemma {:induction false} FilterThenRead(boards: seq<Line>, rows: seq<Row>, boardId: Long, now: Timestamp)
    requires FileBoards.FileOk(boards) && RowsOk(rows) && BoardsExist(boards, rows)
    ensures RowsOk(FilterByField(rows, 1, boardId, true))
    ensures BoardsExist(boards, FilterByField(rows, 1, boardId, true))
    ensures ColumnsOf(boards, FilterByField(rows, 1, boardId, true), now)
         == ColumnsOnBoard(ColumnsOf(boards, rows, now), boardId)
  {
    MatchingRowsOk(boards, rows, boardId);
    if |rows| > 0 {
      var rest := rows[1..];
      RowsOkAmong(rest, rows);
      assert BoardsExist(boards, rest) by {
        assert forall i :: 0 <= i < |rest| ==> rest[i] == rows[i + 1];
      }
      FilterThenRead(boards, rest, boardId, now);
      var cs := ColumnsOf(boards, rows, now);
      assert cs[1..] == ColumnsOf(boards, rest, now);
    }
  }

  /** Every row of the board yields one of the listed columns. */
  lemma FindAllListsEveryRow(boards: seq<Line>, file: seq<Line>, boardId: Long, now: Timestamp)
    requires FileBoards.FileOk(boards) && FileOk(file) && RefsOk(boards, file)
    ensures forall i :: 0 <= i < |ReadAllRows(file)| && LongAt(ReadAllRows(file)[i], 1) == boardId ==>
      ColumnOfRow(boards, ReadAllRows(file)[i], now) in FindAllByBoardId(boards, file, boardId, now)
  {
    var rows := ReadAllRows(file);
    var matching := FilterByField(rows, 1, boardId, true);
    MatchingRowsOk(boards, rows, boardId);
    var r := FindAllByBoardId(boards, file, boardId, now);
    assert r == ColumnsOf(boards, matching, now);
    forall i | 0 <= i < |rows| && LongAt(rows[i], 1) == boardId
      ensures ColumnOfRow(boards, rows[i], now) in r
    {
      var k :| 0 <= k < |matching| && matching[k] == rows[i];
      assert r[k] == ColumnOfRow(boards, rows[i], now);
    }
  }

  /** The rows of one board are well formed and refer to existing boards. */
  lemma MatchingRowsOk(boards: seq<Line>, rows: seq<Row>, boardId: Long)
    requires FileBoards.FileOk(boards) && RowsOk(rows) && BoardsExist(boards, rows)
    ensures RowsOk(FilterByField(rows, 1, boardId, true))
    ensures BoardsExist(boards, FilterByField(rows, 1, boardId, true))
  {
    var matching := FilterByField(rows, 1, boardId, true);
    RowsOkAmong(matching, rows);
    forall i | 0 <= i < |matching|
      ensures FileBoards.ExistsById(boards, LongAt(matching[i], 1))
    {
      var k :| 0 <= k < |rows| && rows[k] == matching[i];
    }
  }

  /** `deleteColumnsByBoardId`, run by `onEntityDeleted`: the file is rewritten
      without the rows of board `boardId`. */
  function DeleteByBoardId(file: seq<Line>, boardId: Long): (r: seq<Line>)
    requires FileOk(file)
    ensures FileOk(r) && r[0] == Header
    ensures ReadAllRows(r) == FilterByField(ReadAllRows(file), 1, boardId, false)
    ensures forall i :: 0 <= i < |ReadAllRows(r)| ==>
      ReadAllRows(r)[i] in ReadAllRows(file) && LongAt(ReadAllRows(r)[i], 1) != boardId
    ensures forall i :: 0 <= i < |ReadAllRows(file)| && LongAt(ReadAllRows(file)[i], 1) != boardId ==>
      ReadAllRows(file)[i] in ReadAllRows(r)
  {
    var rows := ReadAllRows(file);
    var kept := FilterByField(rows, 1, boardId, false);
    RowsOkAmong(kept, rows);
    ReadRowsStable(file);
    RowsAmong(kept, rows, (row: Row) => |row| >= 1 ==> SplitStable(row));
    HeaderOk();
    ReadRewrite(Header, kept);
    RewriteLinesOk(Header, kept);
    Rewrite(Header, kept)
  }

  // ---------------------------------------------------------------------
  // Properties
  // ---------------------------------------------------------------------

  /** Saving appends exactly one row. Unlike the board and task stores, a
      column that already has an id is not replaced: its id then appears once
      more. */
  lemma SaveAppendsRow(file: seq<Line>, c: Column)
    requires FileOk(file) && c.board.id.Some?
    ensures FileOk(Save(file, c).file)
    ensures ReadAllRows(Save(file, c).file)
         == ReadAllRows(file) + [RowOf(Save(file, c).entity.id.value, c)]
    ensures CountWhere(ReadAllRows(Save(file, c).file), 0, Save(file, c).entity.id.value)
         == CountWhere(ReadAllRows(file), 0, Save(file, c).entity.id.value) + 1
  {
    var s := Save(file, c);
    var id := s.entity.id.value;
    RowOfStable(id, c);
    ReadAppendRow(file, RowOf(id, c));
    AppendLinesOk(file, RowOf(id, c));
    RowsOkAppend(ReadAllRows(file), RowOf(id, c));
    CountWhereAppend(ReadAllRows(file), [RowOf(id, c)], 0, id);
  }

  lemma RowsOkAppend(rows: seq<Row>, row: Row)
    requires RowsOk(rows) && HasLong(row, 0) && HasLong(row, 1) && TypeOk(row)
    ensures RowsOk(rows + [row])
  {
    assert forall i :: 0 <= i < |rows + [row]| ==> (rows + [row])[i] == if i < |rows| then rows[i] else row;
  }

  /** A column saved for an existing board is listed last among that board's
      columns, with the board read back from the board store. */
  lemma SaveThenFindAll(boards: seq<Line>, file: seq<Line>, c: Column, now: Timestamp)
    requires FileBoards.FileOk(boards) && FileOk(file) && RefsOk(boards, file)
    requires c.board.id.Some? && FileBoards.ExistsById(boards, c.board.id.value)
    ensures FileOk(Save(file, c).file) && RefsOk(boards, Save(file, c).file)
    ensures FindAllByBoardId(boards, Save(file, c).file, c.board.id.value, now)
         == FindAllByBoardId(boards, file, c.board.id.value, now)
            + [Column(Save(file, c).entity.id, FileBoards.FindById(boards, c.board.id.value, now).value, c.kind)]
  {
    var s := Save(file, c);
    var id := s.entity.id.value;
    var bid := c.board.id.value;
    var rows := ReadAllRows(file);
    var row := RowOf(id, c);
    SaveAppendsRow(file, c);
    RowOfStable(id, c);
    FindAllAfterAppend(boards, s.file, rows, row, bid, now);
    assert ColumnOfRow(boards, row, now)
        == Column(s.entity.id, FileBoards.FindById(boards, bid, now).value, c.kind);
  }

  /** In a file that reads as `rows` followed by a row of board `bid`, that
      row's column comes last among the board's columns. */
  lemma FindAllAfterAppend(boards: seq<Line>, file: seq<Line>, rows: seq<Row>, row: Row,
                           bid: Long, now: Timestamp)
    requires FileBoards.FileOk(boards) && FileOk(file) && RefsOk(boards, file)
    requires ReadAllRows(file) == rows + [row]
    requires RowsOk(rows) && BoardsExist(boards, rows)
    requires HasLong(row, 0) && HasLong(row, 1) && TypeOk(row) && LongAt(row, 1) == bid
    requires FileBoards.ExistsById(boards, bid)
    ensures RowsOk(FilterByField(rows, 1, bid, true))
    ensures BoardsExist(boards, FilterByField(rows, 1, bid, true))
    ensures FindAllByBoardId(boards, file, bid, now)
         == ColumnsOf(boards, FilterByField(rows, 1, bid, true), now) + [ColumnOfRow(boards, row, now)]
  {
    assert RowsOk([row]) && BoardsExist(boards, [row]);
    FilterByFieldAppend(rows, [row], 1, bid, true);
    assert FilterByField([row], 1, bid, true) == [row] by {
      assert [row][1..] == [];
    }
    var matching := FilterByField(rows, 1, bid, true);
    assert FilterByField(ReadAllRows(file), 1, bid, true) == matching + [row];
    MatchingRowsOk(boards, rows, bid);
    ColumnsOfAppend(boards, matching, [row], now);
    assert ColumnsOf(boards, [row], now) == [ColumnOfRow(boards, row, now)];
    assert FindAllByBoardId(boards, file, bid, now) == ColumnsOf(boards, matching + [row], now);
  }

  /** After the cascade step no column of the deleted board is listed, and
      every other board keeps its columns in order. */
  lemma DeleteByBoardIdEmptiesBoard(boards: seq<Line>, file: seq<Line>, boardId: Long, now: Timestamp)
    requires FileBoards.FileOk(boards) && FileOk(file) && RefsOk(boards, file)
    ensures RefsOk(boards, DeleteByBoardId(file, boardId))
    ensures FindAllByBoardId(boards, DeleteByBoardId(file, boardId), boardId, now) == []
    ensures forall other: Long :: other != boardId ==>
      FindAllByBoardId(boards, DeleteByBoardId(file, boardId), other, now)
      == FindAllByBoardId(boards, file, other, now)
  {
    var rows := ReadAllRows(file);
    var kept := FilterByField(rows, 1, boardId, false);
    var r := DeleteByBoardId(file, boardId);
    assert ReadAllRows(r) == kept;
    forall i | 0 <= i < |kept|
      ensures FileBoards.ExistsById(boards, LongAt(kept[i], 1))
    {
      var k :| 0 <= k < |rows| && rows[k] == kept[i];
    }
    assert CountWhere(kept, 1, boardId) == 0;
    forall other: Long | other != boardId
      ensures FindAllByBoardId(boards, r, other, now) == FindAllByBoardId(boards, file, other, now)
    {
      FilterTwice(rows, boardId, other);
    }
  }

  /** Keeping the rows of `other` after dropping those of `gone` keeps the
      same rows as keeping the rows of `other` directly. */
  lemma {:induction false} FilterTwice(rows: seq<Row>, gone: int, other: int)
    requires AllHaveLong(rows, 1) && gone != other
    ensures FilterByField(FilterByField(rows, 1, gone, false), 1, other, true)
         == FilterByField(rows, 1, other, true)
  {
    if |rows| > 0 {
      FilterTwice(rows[1..], gone, other);
    }
  }

  /** A column whose first row is on another board survives the cascade step
      and still belongs to the same board. */
  lemma DeleteKeepsOtherColumn(file: seq<Line>, boardId: Long, c: Long)
    requires FileOk(file) && ExistsById(file, c) && BoardIdOf(file, c) != boardId
    ensures ExistsById(DeleteByBoardId(file, boardId), c)
    ensures BoardIdOf(DeleteByBoardId(file, boardId), c) == BoardIdOf(file, c)
  {
    FilterKeepsFirst(ReadAllRows(file), 1, boardId, 0, c);
  }

  /** A column all of whose rows are on the deleted board is gone. */
  lemma DeleteDropsBoardColumn(file: seq<Line>, boardId: Long, c: Long)
    requires FileOk(file)
    requires forall i :: 0 <= i < |ReadAllRows(file)| && LongAt(ReadAllRows(file)[i], 0) == c ==>
      LongAt(ReadAllRows(file)[i], 1) == boardId
    ensures !ExistsById(DeleteByBoardId(file, boardId), c)
  {
    var rows := ReadAllRows(file);
    var left := FilterByField(rows, 1, boardId, false);
    assert ReadAllRows(DeleteByBoardId(file, boardId)) == left;
    forall i | 0 <= i < |left|
      ensures LongAt(left[i], 0) != c
    {
      var n :| 0 <= n < |rows| && rows[n] == left[i];
    }
  }
}
