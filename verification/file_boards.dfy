/** The flat-file board store (`InFileBoardRepository`): one line per board,
    `ID;TITLE;CREATED_AT`, under a fixed header. Every operation reads the
    whole file; `save` and the row part of `deleteById` rewrite it whole. */
module FileBoards {
  import opened Wrappers
  import opened JavaText
  import opened Domain
  import opened FileUtils
  import opened Collections

  const Header: Line := "ID;TITLE;" + "CREATED_AT"

  /** The rows the store's own writes produce: a numeric id, then a title. */
  predicate RowsOk(rows: seq<Row>) {
    && AllHaveLong(rows, 0)
    && forall i :: 0 <= i < |rows| ==> |rows[i]| >= 2
  }

  /** A board file: the header line is present, every line is one line as
      `readLine` returns it, and every data line is a row the stream pipelines
      can index without failing. */
  predicate FileOk(file: seq<Line>) {
    |file| >= 1 && LinesOk(file) && RowsOk(ReadAllRows(file))
  }

  /** The header is one line: none of its field names holds a line break. */
  lemma HeaderOk()
    ensures NoLineBreak(Header)
  {
    var a, b := "ID;TITLE;", "CREATED_AT";
    assert NoLineBreak(a);
    assert NoLineBreak(b);
    NoLineBreakConcat(a, b);
  }

  lemma RowsStable(file: seq<Line>)
    requires FileOk(file)
    ensures AllStable(ReadAllRows(file))
  {
    ReadRowsStable(file);
  }

  /** The fields `save` writes for a board whose id is `id`. */
  function RowOf(id: Long, b: Board): (row: Row)
    ensures |row| == 3 && row[1] == b.title
  {
    [LongToString(id), b.title, FormatTimestamp(b.createdAt)]
  }

  lemma RowOfStable(id: Long, b: Board)
    requires FieldOk(b.title)
    ensures SplitStable(RowOf(id, b))
    ensures HasLong(RowOf(id, b), 0) && LongAt(RowOf(id, b), 0) == id
  {
    LongRoundTrip(id);
    DateCodecRoundTrip(Date(0), b.createdAt);
    IntRoundTrip(id);
    assert FieldOk(IntToString(id)) by {
      var s := IntToString(id);
      assert forall i :: 0 <= i < |s| ==> s[i] != Delimiter;
    }
  }

  /** The rows `save` keeps before appending the new row: all of them for a
      new board, all but those carrying the board's id otherwise. */
  function KeptRows(file: seq<Line>, id: Option<Long>): (rows: seq<Row>)
    requires FileOk(file)
    ensures RowsOk(rows) && AllStable(rows)
    ensures id.None? ==> rows == ReadAllRows(file)
    ensures id.Some? ==> forall i :: 0 <= i < |rows| ==> LongAt(rows[i], 0) != id.value
  {
    RowsStable(file);
    match id
    case None => ReadAllRows(file)
    case Some(v) =>
      FilterByFieldStable(ReadAllRows(file), 0, v, false);
      FilterByField(ReadAllRows(file), 0, v, false)
  }

  /** `save`: a board without an id takes `getNextId`; a board with one
      replaces every row carrying that id. The board's row goes last. */
  function Save(file: seq<Line>, b: Board): (s: Saved<Board>)
    requires FileOk(file)
    ensures s.entity.id.Some? && s.entity == b.(id := s.entity.id)
    ensures b.id.Some? ==> s.entity == b
    ensures b.id.None? ==> s.entity.id == Some(GetNextId(file))
    ensures |s.file| >= 1 && s.file[0] == Header
  {
    var id: Long := if b.id.Some? then b.id.value else GetNextId(file);
    var saved := b.(id := Some(id));
    var rows := KeptRows(file, b.id) + [RowOf(id, saved)];
    var written := Rewrite(Header, rows);
    Saved(written, saved)
  }

  // ---------------------------------------------------------------------
  // Queries
  // ---------------------------------------------------------------------

  /** `existsById`: the scan for the first row carrying `id` finds one. */
  predicate ExistsById(file: seq<Line>, id: Long)
    requires FileOk(file)
  {
    FirstIndex(ReadAllRows(file), 0, id) < |ReadAllRows(file)|
  }

  /** `existsByTitle`: some row's title equals `title` ignoring case. */
  predicate ExistsByTitle(file: seq<Line>, title: string)
    requires FileOk(file)
  {
    var rows := ReadAllRows(file);
    exists i :: 0 <= i < |rows| && EqualsIgnoreCase(rows[i][1], title)
  }

  /** `existsByTitleAndIdNot`: another board already uses the title. */
  predicate ExistsByTitleAndIdNot(file: seq<Line>, title: string, id: Long)
    requires FileOk(file)
  {
    var rows := ReadAllRows(file);
    exists i :: 0 <= i < |rows| && EqualsIgnoreCase(rows[i][1], title) && LongAt(rows[i], 0) != id
  }

  /** `new Board(id, title)` built from a row: the stored creation time is not
      read back, the board gets the clock reading `now`. */
  function BoardOfRow(row: Row, now: Timestamp): (b: Board)
    requires |row| >= 2 && HasLong(row, 0)
    ensures b.id == Some(LongAt(row, 0)) && b.title == row[1] && b.createdAt == now
  {
    NewBoard(Some(LongAt(row, 0)), row[1], now)
  }

  function BoardsOf(rows: seq<Row>, now: Timestamp): (bs: seq<Board>)
    requires RowsOk(rows)
    ensures |bs| == |rows|
    ensures forall i :: 0 <= i < |rows| ==> bs[i] == BoardOfRow(rows[i], now)
  {
    if |rows| == 0 then [] else [BoardOfRow(rows[0], now)] + BoardsOf(rows[1..], now)
  }

  /** `getAll`: one board per row, in ascending id order. */
  function GetAll(file: seq<Line>, now: Timestamp): (r: seq<Board>)
    requires FileOk(file)
    ensures |r| == |ReadAllRows(file)|
    ensures multiset(r) == multiset(BoardsOf(ReadAllRows(file), now))
    ensures forall i :: 0 <= i < |r| ==> r[i].id.Some? && r[i].createdAt == now
    ensures forall i, j :: 0 <= i < j < |r| ==> r[i].id.value <= r[j].id.value
  {
    var bs := BoardsOf(ReadAllRows(file), now);
    var r := SortBy(bs, IdKey);
    PermutationKeeps(bs, r, (b: Board) => b.id.Some? && b.createdAt == now);
    r
  }

  /** `findById`: the first row carrying `id`, as a board read at `now`. */
  function FindById(file: seq<Line>, id: Long, now: Timestamp): (r: Option<Board>)
    requires FileOk(file)
    ensures r.Some? <==> ExistsById(file, id)
    ensures r.Some? ==> r.value.id == Some(id) && r.value.createdAt == now
    ensures r.Some? ==>
      var rows := ReadAllRows(file);
      exists i :: 0 <= i < |rows| && LongAt(rows[i], 0) == id && rows[i][1] == r.value.title
        && forall j :: 0 <= j < i ==> LongAt(rows[j], 0) != id
  {
    var rows := ReadAllRows(file);
    var i := FirstIndex(rows, 0, id);
    if i < |rows| then
      var r := BoardOfRow(rows[i], now);
      assert LongAt(rows[i], 0) == id && forall j :: 0 <= j < i ==> LongAt(rows[j], 0) != id;
      assert 0 <= i < |ReadAllRows(file)| && ReadAllRows(file)[i] == rows[i];
      Some(r)
    else None
  }

  /** The row part of `deleteById`: every row carrying `id` is dropped, all
      other rows are written back unchanged and in order. */
  function RemoveRows(file: seq<Line>, id: Long): (r: seq<Line>)
    requires FileOk(file)
    ensures FileOk(r) && r[0] == Header
    ensures ReadAllRows(r) == KeptRows(file, Some(id))
    ensures !ExistsById(r, id)
    ensures forall v: Long :: v != id ==> (ExistsById(r, v) <==> ExistsById(file, v))
  {
    var kept := KeptRows(file, Some(id));
    HeaderOk();
    ReadRewrite(Header, kept);
    RewriteLinesOk(Header, kept);
    FilterDropsAll(ReadAllRows(file), 0, id);
    forall v: Long | v != id
      ensures FirstIndex(kept, 0, v) < |kept| <==> FirstIndex(ReadAllRows(file), 0, v) < |ReadAllRows(file)|
    {
      FilterKeepsOthers(ReadAllRows(file), 0, id, v);
    }
    Rewrite(Header, kept)
  }

  // ---------------------------------------------------------------------
  // Properties
  // ---------------------------------------------------------------------

  /** A save rewrites the file so that it reads back as the kept rows
      followed by the board's row, and the file stays well formed. */
  lemma SaveReadsBack(file: seq<Line>, b: Board)
    requires FileOk(file) && FieldOk(b.title)
    ensures ReadAllRows(Save(file, b).file)
         == KeptRows(file, b.id) + [RowOf(Save(file, b).entity.id.value, Save(file, b).entity)]
    ensures FileOk(Save(file, b).file)
  {
    var s := Save(file, b);
    var kept := KeptRows(file, b.id);
    var row := RowOf(s.entity.id.value, s.entity);
    RowOfStable(s.entity.id.value, s.entity);
    HeaderOk();
    ReadRewriteAppend(Header, kept, row);
    RowsOkAppend(kept, row);
  }

  lemma RowsOkAppend(rows: seq<Row>, row: Row)
    requires RowsOk(rows) && HasLong(row, 0) && |row| >= 2
    ensures RowsOk(rows + [row])
  {
    assert forall i :: 0 <= i < |rows + [row]| ==> (rows + [row])[i] == if i < |rows| then rows[i] else row;
  }

  /** Saving a new board keeps every earlier row in place and appends one
      row carrying the next id. */
  lemma SaveNewAppends(file: seq<Line>, b: Board)
    requires FileOk(file) && b.id.None? && FieldOk(b.title)
    ensures ReadAllRows(Save(file, b).file)
         == ReadAllRows(file) + [RowOf(GetNextId(file), b.(id := Some(GetNextId(file))))]
  {
    SaveReadsBack(file, b);
  }

  /** Saving a board that has an id leaves exactly one row with that id, and
      every other id keeps as many rows as it had. */
  lemma SaveExistingReplaces(file: seq<Line>, b: Board)
    requires FileOk(file) && b.id.Some? && FieldOk(b.title)
    ensures FileOk(Save(file, b).file)
    ensures CountWhere(ReadAllRows(Save(file, b).file), 0, b.id.value) == 1
    ensures forall v :: v != b.id.value ==>
      CountWhere(ReadAllRows(Save(file, b).file), 0, v) == CountWhere(ReadAllRows(file), 0, v)
  {
    var id := b.id.value;
    var kept := KeptRows(file, b.id);
    var rows := ReadAllRows(file);
    var row := RowOf(id, b);
    SaveReadsBack(file, b);
    RowOfStable(id, b);
    CountWhereAppend(kept, [row], 0, id);
    forall v | v != id
      ensures CountWhere(kept + [row], 0, v) == CountWhere(rows, 0, v)
    {
      CountWhereAppend(kept, [row], 0, v);
      CountFilterOther(rows, id, v);
    }
  }

  /** Dropping the rows of one id does not change the count of another. */
  lemma {:induction false} CountFilterOther(rows: seq<Row>, id: int, v: int)
    requires AllHaveLong(rows, 0) && v != id
    ensures CountWhere(FilterByField(rows, 0, id, false), 0, v) == CountWhere(rows, 0, v)
  {
    if |rows| > 0 {
      CountFilterOther(rows[1..], id, v);
    }
  }

  /** A saved board is found again under its id, with its title; the creation
      time reads as the clock at lookup. Needs the id to be fresh, which a new
      board's id is unless `getNextId` has wrapped around. */
  lemma SaveThenFind(file: seq<Line>, b: Board, now: Timestamp)
    requires FileOk(file) && FieldOk(b.title)
    requires b.id.Some? || MaxId(DataLines(file)) < LongMax
    ensures FileOk(Save(file, b).file)
    ensures FindById(Save(file, b).file, Save(file, b).entity.id.value, now)
         == Some(Save(file, b).entity.(createdAt := now))
  {
    var s := Save(file, b);
    var id := s.entity.id.value;
    var kept := KeptRows(file, b.id);
    SaveReadsBack(file, b);
    RowOfStable(id, s.entity);
    if b.id.None? {
      NextIdIsFresh(file);
    }
    FindLastRow(s.file, kept, RowOf(id, s.entity), id, now);
  }

  /** In a file whose last row alone carries `id`, `findById` returns that
      row's board. */
  lemma FindLastRow(file: seq<Line>, kept: seq<Row>, row: Row, id: Long, now: Timestamp)
    requires FileOk(file) && ReadAllRows(file) == kept + [row]
    requires AllHaveLong(kept, 0) && |row| >= 2 && HasLong(row, 0) && LongAt(row, 0) == id
    requires forall i :: 0 <= i < |kept| ==> LongAt(kept[i], 0) != id
    ensures FindById(file, id, now) == Some(Board(Some(id), row[1], now))
  {
    FirstIndexAfterMisses(kept, row, id);
  }

  /** A search that misses every kept row stops at the appended row. */
  lemma FirstIndexAfterMisses(kept: seq<Row>, row: Row, id: Long)
    requires AllHaveLong(kept, 0) && HasLong(row, 0) && LongAt(row, 0) == id
    requires forall i :: 0 <= i < |kept| ==> LongAt(kept[i], 0) != id
    ensures AllHaveLong(kept + [row], 0)
    ensures FirstIndex(kept + [row], 0, id) == |kept|
  {
    var rows := kept + [row];
    var k := FirstIndex(rows, 0, id);
    assert rows[|kept|] == row;
  }

  /** After a save, the saved title is taken in every letter case and the
      saved id exists. */
  lemma SaveThenTitleTaken(file: seq<Line>, b: Board, title: string)
    requires FileOk(file) && FieldOk(b.title)
    requires EqualsIgnoreCase(b.title, title)
    ensures FileOk(Save(file, b).file)
    ensures ExistsByTitle(Save(file, b).file, title)
    ensures ExistsById(Save(file, b).file, Save(file, b).entity.id.value)
  {
    var s := Save(file, b);
    var id := s.entity.id.value;
    SaveReadsBack(file, b);
    RowOfStable(id, s.entity);
    LastRowExists(s.file, KeptRows(file, b.id), RowOf(id, s.entity), title);
  }

  lemma LastRowExists(file: seq<Line>, kept: seq<Row>, row: Row, title: string)
    requires FileOk(file) && ReadAllRows(file) == kept + [row]
    requires |row| >= 2 && HasLong(row, 0) && EqualsIgnoreCase(row[1], title)
    ensures ExistsByTitle(file, title) && ExistsById(file, LongAt(row, 0))
  {
    assert ReadAllRows(file)[|kept|] == row;
  }

  /** Title lookups do not see letter case. */
  lemma ExistsByTitleIgnoresCase(file: seq<Line>, t1: string, t2: string)
    requires FileOk(file) && EqualsIgnoreCase(t1, t2)
    ensures ExistsByTitle(file, t1) <==> ExistsByTitle(file, t2)
  {
    EqualsIgnoreCaseIsLowerEquality(t1, t2);
    var rows := ReadAllRows(file);
    forall i | 0 <= i < |rows|
      ensures EqualsIgnoreCase(rows[i][1], t1) <==> EqualsIgnoreCase(rows[i][1], t2)
    {
      EqualsIgnoreCaseIsLowerEquality(rows[i][1], t1);
      EqualsIgnoreCaseIsLowerEquality(rows[i][1], t2);
    }
  }

  /** The update check ignores the board's own row: it fails exactly when a
      row with a different id holds the title. */
  lemma TitleCheckIgnoresOwnRow(file: seq<Line>, title: string, id: Long)
    requires FileOk(file)
    ensures ExistsByTitleAndIdNot(file, title, id) ==> ExistsByTitle(file, title)
    ensures ExistsByTitle(file, title) && !ExistsByTitleAndIdNot(file, title, id) ==>
      ExistsById(file, id)
  {
  }
}
