/** Flat-file machinery shared by the three file stores (FileUtils.java plus the
    stream pipelines the stores run over its rows). A file is its sequence of
    lines; line 0 is the header and never holds data. */
module FileUtils {
  import opened Wrappers
  import opened JavaText

  type Line = string

  /** Every line is one `readLine` result: no line holds a line break. */
  predicate LinesOk(file: seq<Line>) {
    forall i :: 0 <= i < |file| ==> NoLineBreak(file[i])
  }

  /** Text made of two line-break-free parts holds no line break. */
  lemma NoLineBreakConcat(a: string, b: string)
    requires NoLineBreak(a) && NoLineBreak(b)
    ensures NoLineBreak(a + b)
  {
    assert forall c :: c in a + b ==> c in a || c in b;
  }

  /** One data line split into its fields. */
  type Row = seq<string>

  /** A store operation that writes a file and hands back the saved entity. */
  datatype Saved<T> = Saved(file: seq<Line>, entity: T)

  /** The lines after the header. */
  function DataLines(file: seq<Line>): (lines: seq<Line>)
    ensures |file| == 0 ==> lines == []
    ensures |file| > 0 ==> lines == file[1..]
  {
    if |file| == 0 then [] else file[1..]
  }

  /** `readAllRows`: one row per data line, in file order, each split on ';';
      the header is skipped. */
  function ReadAllRows(file: seq<Line>): (rows: seq<Row>)
    ensures |file| <= 1 ==> rows == []
    ensures |file| >= 1 ==> |rows| == |file| - 1
  {
    if |file| <= 1 then [] else ReadAllRows(file[..|file| - 1]) + [Split(file[|file| - 1])]
  }

  /** Row `i` is data line `i + 1` split on ';'. */
  lemma {:induction false} ReadAllRowsAt(file: seq<Line>)
    ensures forall i :: 0 <= i < |ReadAllRows(file)| ==> ReadAllRows(file)[i] == Split(file[i + 1])
  {
    if |file| > 1 {
      var prefix := file[..|file| - 1];
      ReadAllRowsAt(prefix);
      assert forall i :: 0 <= i < |prefix| ==> prefix[i] == file[i];
    }
  }

  /** Appending one line to a file with a header appends one row. */
  lemma ReadAppend(file: seq<Line>, line: Line)
    requires |file| >= 1
    ensures ReadAllRows(file + [line]) == ReadAllRows(file) + [Split(line)]
  {
    assert (file + [line])[..|file|] == file;
  }

  /** Whole-file rewrite: the header line, then every row joined with ';'. */
  function Rewrite(header: Line, rows: seq<Row>): (file: seq<Line>)
    ensures |file| == |rows| + 1 && file[0] == header
  {
    if |rows| == 0 then [header] else Rewrite(header, rows[..|rows| - 1]) + [Join(rows[|rows| - 1])]
  }

  predicate AllStable(rows: seq<Row>) {
    forall i :: 0 <= i < |rows| ==> SplitStable(rows[i])
  }

  /** A rewritten file reads back as the rows it was written from. */
  lemma {:induction false} ReadRewrite(header: Line, rows: seq<Row>)
    requires AllStable(rows)
    ensures ReadAllRows(Rewrite(header, rows)) == rows
  {
    if |rows| > 0 {
      var prefix := rows[..|rows| - 1];
      var last := rows[|rows| - 1];
      assert AllStable(prefix) by {
        assert forall i :: 0 <= i < |prefix| ==> prefix[i] == rows[i];
      }
      ReadRewrite(header, prefix);
      ReadAppendRow(Rewrite(header, prefix), last);
      assert Rewrite(header, rows) == Rewrite(header, prefix) + [Join(last)];
      assert prefix + [last] == rows;
    }
  }

  /** A rewrite of stable rows under a one-line header writes one line per row. */
  lemma {:induction false} RewriteLinesOk(header: Line, rows: seq<Row>)
    requires NoLineBreak(header) && AllStable(rows)
    ensures LinesOk(Rewrite(header, rows))
  {
    if |rows| > 0 {
      var prefix := rows[..|rows| - 1];
      var last := rows[|rows| - 1];
      assert AllStable(prefix) by {
        assert forall i :: 0 <= i < |prefix| ==> prefix[i] == rows[i];
      }
      RewriteLinesOk(header, prefix);
      JoinNoLineBreak(last);
      assert Rewrite(header, rows) == Rewrite(header, prefix) + [Join(last)];
    }
  }

  /** Every row read from a file that has at least one field is stable, so
      writing the rows back and reading them again changes nothing. */
  lemma ReadRowsStable(file: seq<Line>)
    requires LinesOk(file)
    ensures forall i :: 0 <= i < |ReadAllRows(file)| && |ReadAllRows(file)[i]| >= 1 ==>
      SplitStable(ReadAllRows(file)[i])
  {
    var rows := ReadAllRows(file);
    ReadAllRowsAt(file);
    forall i | 0 <= i < |rows| && |rows[i]| >= 1
      ensures SplitStable(rows[i])
    {
      SplitIsStable(file[i + 1]);
    }
  }

  /** The whole-file rewrite that ends in one new row reads back as the kept
      rows followed by that row. */
  lemma ReadRewriteAppend(header: Line, rows: seq<Row>, row: Row)
    requires AllStable(rows) && SplitStable(row)
    ensures ReadAllRows(Rewrite(header, rows + [row])) == rows + [row]
    ensures NoLineBreak(header) ==> LinesOk(Rewrite(header, rows + [row]))
  {
    ReadRewrite(header, rows + [row]);
    if NoLineBreak(header) {
      RewriteLinesOk(header, rows + [row]);
    }
  }

  /** Appending the joined text of a stable row appends that row. */
  lemma ReadAppendRow(file: seq<Line>, row: Row)
    requires |file| >= 1 && SplitStable(row)
    ensures ReadAllRows(file + [Join(row)]) == ReadAllRows(file) + [row]
  {
    SplitJoin(row);
    ReadAppend(file, Join(row));
  }
  /** Appending the joined text of a stable row adds one line. */
  lemma AppendLinesOk(file: seq<Line>, row: Row)
    requires LinesOk(file) && SplitStable(row)
    ensures LinesOk(file + [Join(row)])
  {
    JoinNoLineBreak(row);
  }



  // ---------------------------------------------------------------------
  // Numeric fields
  // ---------------------------------------------------------------------

  /** Field `k` exists and parses as a `long`. */
  predicate HasLong(row: Row, k: nat) {
    k < |row| && ParseLong(row[k]).Some?
  }

  function LongAt(row: Row, k: nat): Long
    requires HasLong(row, k)
  {
    ParseLong(row[k]).value
  }

  predicate AllHaveLong(rows: seq<Row>, k: nat) {
    forall i :: 0 <= i < |rows| ==> HasLong(rows[i], k)
  }

  /** Position of the first row whose field `k` equals `v` (`|rows|` if none):
      the `filter(...).findFirst()` scans. */
  function FirstIndex(rows: seq<Row>, k: nat, v: int): (i: nat)
    requires AllHaveLong(rows, k)
    ensures i <= |rows|
    ensures forall j :: 0 <= j < i ==> LongAt(rows[j], k) != v
    ensures i < |rows| ==> LongAt(rows[i], k) == v
  {
    if |rows| == 0 then 0
    else if LongAt(rows[0], k) == v then 0
    else 1 + FirstIndex(rows[1..], k, v)
  }

  /** A search finds a row whenever some row matches. */
  lemma FirstIndexFinds(rows: seq<Row>, k: nat, v: int, i: nat)
    requires AllHaveLong(rows, k) && i < |rows| && LongAt(rows[i], k) == v
    ensures FirstIndex(rows, k, v) <= i
  {
  }

  /** The stream `filter` on field `k`: keeps the rows whose field equals `v`
      when `matching`, and the rows whose field differs otherwise. */
  function FilterByField(rows: seq<Row>, k: nat, v: int, matching: bool): (r: seq<Row>)
    requires AllHaveLong(rows, k)
    ensures |r| <= |rows|
    ensures AllHaveLong(r, k)
    ensures forall i :: 0 <= i < |r| ==> r[i] in rows && (LongAt(r[i], k) == v) == matching
    ensures forall i :: 0 <= i < |rows| && (LongAt(rows[i], k) == v) == matching ==> rows[i] in r
  {
    if |rows| == 0 then []
    else
      var rest := FilterByField(rows[1..], k, v, matching);
      if (LongAt(rows[0], k) == v) == matching then [rows[0]] + rest else rest
  }

  /** A filter keeping the rows that carry `v` keeps as many rows as carry `v`. */
  lemma {:induction false} FilterCount(rows: seq<Row>, k: nat, v: int)
    requires AllHaveLong(rows, k)
    ensures |FilterByField(rows, k, v, true)| == CountWhere(rows, k, v)
  {
    if |rows| > 0 {
      FilterCount(rows[1..], k, v);
    }
  }

  /** The filter keeps file order and multiplicity: it distributes over
      concatenation, and keeps a single row exactly when its field test passes. */
  lemma {:induction false} FilterByFieldAppend(a: seq<Row>, b: seq<Row>, k: nat, v: int, matching: bool)
    requires AllHaveLong(a, k) && AllHaveLong(b, k)
    ensures AllHaveLong(a + b, k)
    ensures FilterByField(a + b, k, v, matching)
         == FilterByField(a, k, v, matching) + FilterByField(b, k, v, matching)
    ensures |a| == 1 ==>
      FilterByField(a, k, v, matching) == if (LongAt(a[0], k) == v) == matching then a else []
  {
    if |a| > 0 {
      assert (a + b)[1..] == a[1..] + b;
      FilterByFieldAppend(a[1..], b, k, v, matching);
    } else {
      assert a + b == b;
    }
  }

  /** Dropping the rows that carry `id` does not change whether a row
      carrying another value `v` is found. */
  lemma FilterKeepsOthers(rows: seq<Row>, k: nat, id: int, v: int)
    requires AllHaveLong(rows, k) && v != id
    ensures FirstIndex(FilterByField(rows, k, id, false), k, v) < |FilterByField(rows, k, id, false)|
        <==> FirstIndex(rows, k, v) < |rows|
  {
    var kept := FilterByField(rows, k, id, false);
    if FirstIndex(rows, k, v) < |rows| {
      var i := FirstIndex(rows, k, v);
      assert rows[i] in kept;
      var j :| 0 <= j < |kept| && kept[j] == rows[i];
      FirstIndexFinds(kept, k, v, j);
    }
    if FirstIndex(kept, k, v) < |kept| {
      var j := FirstIndex(kept, k, v);
      var i :| 0 <= i < |rows| && rows[i] == kept[j];
      FirstIndexFinds(rows, k, v, i);
    }
  }

  /** After dropping the rows that carry `id`, none is found. */
  lemma FilterDropsAll(rows: seq<Row>, k: nat, id: int)
    requires AllHaveLong(rows, k)
    ensures FirstIndex(FilterByField(rows, k, id, false), k, id) == |FilterByField(rows, k, id, false)|
  {
  }

  /** A filter that rejects nothing returns the rows unchanged. */
  lemma {:induction false} FilterByFieldKeepsAll(rows: seq<Row>, k: nat, v: int, matching: bool)
    requires AllHaveLong(rows, k)
    requires forall i :: 0 <= i < |rows| ==> (LongAt(rows[i], k) == v) == matching
    ensures FilterByField(rows, k, v, matching) == rows
  {
    if |rows| > 0 {
      FilterByFieldKeepsAll(rows[1..], k, v, matching);
    }
  }

  lemma FilterByFieldStable(rows: seq<Row>, k: nat, v: int, matching: bool)
    requires AllHaveLong(rows, k) && AllStable(rows)
    ensures AllStable(FilterByField(rows, k, v, matching))
  {
  }

  /** A filter on one field keeps the rows' other numeric fields. */
  lemma FilterKeepsField(rows: seq<Row>, k: nat, v: int, matching: bool, j: nat)
    requires AllHaveLong(rows, k) && AllHaveLong(rows, j)
    ensures AllHaveLong(FilterByField(rows, k, v, matching), j)
  {
    var r := FilterByField(rows, k, v, matching);
    forall i | 0 <= i < |r|
      ensures HasLong(r[i], j)
    {
      var n :| 0 <= n < |rows| && rows[n] == r[i];
    }
  }

  /** Dropping the rows whose field `k` is `v` keeps the first row carrying
      `c` in field `j` when that row's field `k` is not `v`: the search then
      finds the same row. */
  lemma {:induction false} FilterKeepsFirst(rows: seq<Row>, k: nat, v: int, j: nat, c: int)
    requires AllHaveLong(rows, k) && AllHaveLong(rows, j)
    requires FirstIndex(rows, j, c) < |rows| && LongAt(rows[FirstIndex(rows, j, c)], k) != v
    ensures AllHaveLong(FilterByField(rows, k, v, false), j)
    ensures FirstIndex(FilterByField(rows, k, v, false), j, c) < |FilterByField(rows, k, v, false)|
    ensures FilterByField(rows, k, v, false)[FirstIndex(FilterByField(rows, k, v, false), j, c)]
         == rows[FirstIndex(rows, j, c)]
  {
    FilterKeepsField(rows, k, v, false, j);
    if LongAt(rows[0], j) != c {
      FilterKeepsFirst(rows[1..], k, v, j, c);
      FilterKeepsField(rows[1..], k, v, false, j);
    }
  }

  /** Rows drawn from `rows` keep every property all of `rows` have. */
  lemma RowsAmong(sub: seq<Row>, rows: seq<Row>, p: Row -> bool)
    requires forall i :: 0 <= i < |sub| ==> sub[i] in rows
    requires forall i :: 0 <= i < |rows| ==> p(rows[i])
    ensures forall i :: 0 <= i < |sub| ==> p(sub[i])
  {
    forall i | 0 <= i < |sub|
      ensures p(sub[i])
    {
      var k :| 0 <= k < |rows| && rows[k] == sub[i];
    }
  }

  /** Number of rows whose field `k` equals `v`. */
  function CountWhere(rows: seq<Row>, k: nat, v: int): (n: nat)
    requires AllHaveLong(rows, k)
    ensures n <= |rows|
    ensures n == 0 <==> forall i :: 0 <= i < |rows| ==> LongAt(rows[i], k) != v
  {
    if |rows| == 0 then 0
    else (if LongAt(rows[0], k) == v then 1 else 0) + CountWhere(rows[1..], k, v)
  }

  lemma {:induction false} CountWhereAppend(a: seq<Row>, b: seq<Row>, k: nat, v: int)
    requires AllHaveLong(a, k) && AllHaveLong(b, k)
    ensures AllHaveLong(a + b, k)
    ensures CountWhere(a + b, k, v) == CountWhere(a, k, v) + CountWhere(b, k, v)
  {
    if |a| > 0 {
      assert (a + b)[1..] == a[1..] + b;
      CountWhereAppend(a[1..], b, k, v);
    } else {
      assert a + b == b;
    }
  }

  /** The rows whose field `k` is none of `vs`, in file order: what deleting
      the ids `vs` one after the other leaves. */
  function DropValues(rows: seq<Row>, k: nat, vs: seq<int>): (r: seq<Row>)
    requires AllHaveLong(rows, k)
    ensures |r| <= |rows|
    ensures AllHaveLong(r, k)
    ensures forall i :: 0 <= i < |r| ==> r[i] in rows && LongAt(r[i], k) !in vs
    ensures forall i :: 0 <= i < |rows| && LongAt(rows[i], k) !in vs ==> rows[i] in r
  {
    if |rows| == 0 then []
    else
      var rest := DropValues(rows[1..], k, vs);
      if LongAt(rows[0], k) in vs then rest else [rows[0]] + rest
  }

  lemma {:induction false} DropNoValues(rows: seq<Row>, k: nat)
    requires AllHaveLong(rows, k)
    ensures DropValues(rows, k, []) == rows
  {
    if |rows| > 0 {
      DropNoValues(rows[1..], k);
      assert rows == [rows[0]] + rows[1..];
    }
  }

  /** Dropping `v` first and then the values `vs` drops `[v] + vs`. */
  lemma {:induction false} DropValuesStep(rows: seq<Row>, k: nat, v: int, vs: seq<int>)
    requires AllHaveLong(rows, k)
    ensures DropValues(FilterByField(rows, k, v, false), k, vs) == DropValues(rows, k, [v] + vs)
  {
    if |rows| > 0 {
      DropValuesStep(rows[1..], k, v, vs);
    }
  }

  /** Rows drawn from a file's rows, written back under a header, read back
      unchanged. */
  lemma ReadRewriteAmong(file: seq<Line>, header: Line, sub: seq<Row>)
    requires LinesOk(file)
    requires forall i :: 0 <= i < |sub| ==> sub[i] in ReadAllRows(file) && |sub[i]| >= 1
    ensures ReadAllRows(Rewrite(header, sub)) == sub
    ensures NoLineBreak(header) ==> LinesOk(Rewrite(header, sub))
  {
    var rows := ReadAllRows(file);
    ReadRowsStable(file);
    forall i | 0 <= i < |sub|
      ensures SplitStable(sub[i])
    {
      assert sub[i] in rows;
      var j :| 0 <= j < |rows| && rows[j] == sub[i];
    }
    ReadRewrite(header, sub);
    if NoLineBreak(header) {
      RewriteLinesOk(header, sub);
    }
  }

  // ---------------------------------------------------------------------
  // getNextId
  // ---------------------------------------------------------------------

  /** The id `getNextId` reads from a line: its first field, if that parses. */
  function IdOfLine(line: Line): Option<Long> {
    var parts := Split(line);
    if |parts| > 0 then ParseLong(parts[0]) else None
  }

  /** The running maximum of `getNextId`'s loop, starting from 0; lines whose
      first field is not a number are skipped. */
  function MaxId(lines: seq<Line>): (m: Long)
    ensures m >= 0
  {
    if |lines| == 0 then 0
    else
      var m := MaxId(lines[..|lines| - 1]);
      match IdOfLine(lines[|lines| - 1])
      case Some(id) => if id > m then id else m
      case None => m
  }

  /** The loop's result bounds every id on the lines. */
  lemma {:induction false} MaxIdAbove(lines: seq<Line>)
    ensures forall i {:trigger IdOfLine(lines[i])} :: 0 <= i < |lines| && IdOfLine(lines[i]).Some? ==>
      IdOfLine(lines[i]).value <= MaxId(lines)
  {
    if |lines| > 0 {
      var prefix := lines[..|lines| - 1];
      MaxIdAbove(prefix);
      assert forall i :: 0 <= i < |prefix| ==> prefix[i] == lines[i];
    }
  }

  /** The loop's result is 0 or an id found on one of the lines. */
  lemma {:induction false} MaxIdFound(lines: seq<Line>)
    ensures MaxId(lines) == 0
         || exists i {:trigger IdOfLine(lines[i])} :: 0 <= i < |lines| && IdOfLine(lines[i]) == Some(MaxId(lines))
  {
    if |lines| > 0 {
      var prefix := lines[..|lines| - 1];
      MaxIdFound(prefix);
      if MaxId(lines) != 0 && MaxId(lines) == MaxId(prefix) {
        var k :| 0 <= k < |prefix| && IdOfLine(prefix[k]) == Some(MaxId(prefix));
        assert prefix[k] == lines[k];
      }
    }
  }

  /** `getNextId`: one more than the largest id in the file, 1 for a file with
      no ids; the `long` addition wraps when that largest id is `LongMax`. */
  function GetNextId(file: seq<Line>): (r: Long)
    ensures MaxId(DataLines(file)) < LongMax ==> r >= 1
    ensures MaxId(DataLines(file)) == LongMax ==> r == LongMin
  {
    LongSucc(MaxId(DataLines(file)))
  }

  /** Away from overflow the next id exceeds every id on a data line, and it
      is 1 or follows directly on one of them. */
  lemma NextIdBounds(file: seq<Line>)
    requires MaxId(DataLines(file)) < LongMax
    ensures forall i :: 1 <= i < |file| && IdOfLine(file[i]).Some? ==> IdOfLine(file[i]).value < GetNextId(file)
    ensures GetNextId(file) == 1 || exists i :: 1 <= i < |file| && IdOfLine(file[i]) == Some(GetNextId(file) - 1)
  {
    var m := MaxId(DataLines(file));
    NextIdFollowsMax(file);
    assert forall i :: 1 <= i < |file| && IdOfLine(file[i]).Some? ==> IdOfLine(file[i]).value < GetNextId(file) by {
      NextIdAboveAll(file);
    }
    if m != 0 {
      NextIdFollowsSome(file);
      var i :| 1 <= i < |file| && IdOfLine(file[i]) == Some(m);
      assert IdOfLine(file[i]) == Some(GetNextId(file) - 1);
    }
  }

  lemma NextIdAboveAll(file: seq<Line>)
    ensures forall i :: 1 <= i < |file| && IdOfLine(file[i]).Some? ==>
      IdOfLine(file[i]).value <= MaxId(DataLines(file))
  {
    var lines := DataLines(file);
    MaxIdAbove(lines);
    forall i | 1 <= i < |file| && IdOfLine(file[i]).Some?
      ensures IdOfLine(file[i]).value <= MaxId(lines)
    {
      DataLineAt(file, i);
    }
  }

  lemma NextIdFollowsSome(file: seq<Line>)
    ensures MaxId(DataLines(file)) == 0
         || exists i :: 1 <= i < |file| && IdOfLine(file[i]) == Some(MaxId(DataLines(file)))
  {
    var lines := DataLines(file);
    var m := MaxId(lines);
    MaxIdFound(lines);
    if m != 0 {
      var k :| 0 <= k < |lines| && IdOfLine(lines[k]) == Some(m);
      DataLineAt(file, k + 1);
    }
  }

  lemma NextIdFollowsMax(file: seq<Line>)
    requires MaxId(DataLines(file)) < LongMax
    ensures GetNextId(file) == MaxId(DataLines(file)) + 1
  {
  }

  lemma DataLineAt(file: seq<Line>, i: nat)
    requires 1 <= i < |file|
    ensures |DataLines(file)| == |file| - 1 && DataLines(file)[i - 1] == file[i]
  {
  }

  /** The header never contributes an id. */
  lemma NextIdIgnoresHeader(h1: Line, h2: Line, lines: seq<Line>)
    ensures GetNextId([h1] + lines) == GetNextId([h2] + lines)
  {
    assert DataLines([h1] + lines) == lines == DataLines([h2] + lines);
  }

  /** A line without a numeric first field changes nothing. */
  lemma NextIdSkipsNonNumeric(file: seq<Line>, line: Line)
    requires |file| >= 1
    requires IdOfLine(line).None?
    ensures GetNextId(file + [line]) == GetNextId(file)
  {
    assert DataLines(file + [line]) == DataLines(file) + [line];
    assert DataLines(file + [line])[..|DataLines(file + [line])| - 1] == DataLines(file);
  }

  /** The id of a row is the id `getNextId` sees on its line. */
  lemma IdOfLineIsRowId(file: seq<Line>, i: nat)
    requires i < |ReadAllRows(file)| && HasLong(ReadAllRows(file)[i], 0)
    ensures IdOfLine(file[i + 1]) == Some(LongAt(ReadAllRows(file)[i], 0))
  {
    ReadAllRowsAt(file);
  }

  /** Away from overflow, a fresh id matches no row of the file. */
  lemma NextIdIsFresh(file: seq<Line>)
    requires AllHaveLong(ReadAllRows(file), 0)
    requires MaxId(DataLines(file)) < LongMax
    ensures forall i :: 0 <= i < |ReadAllRows(file)| ==> LongAt(ReadAllRows(file)[i], 0) < GetNextId(file)
    ensures CountWhere(ReadAllRows(file), 0, GetNextId(file)) == 0
  {
    var rows := ReadAllRows(file);
    NextIdBounds(file);
    forall i | 0 <= i < |rows|
      ensures LongAt(rows[i], 0) < GetNextId(file)
    {
      IdOfLineIsRowId(file, i);
    }
  }
}
