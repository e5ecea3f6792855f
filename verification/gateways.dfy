/** The gateways the use cases talk to. A gateway forwards every call to its
    repository unchanged, except `findById`, which turns an empty result into
    an EntityNotFoundException. The repositories behind them are abstract
    here: `Repos` holds the answer each repository query gives, and every call
    a use case makes is recorded, so that the order of the checks and the
    absence of writes can be stated. */
module Gateways {
  import opened Wrappers
  import opened JavaText
  import opened Domain

  /** What the repositories answer. Saving a column returns nothing, so it
      has no entry; the list queries may answer `null` (`None`). */
  datatype Repos = Repos(
    boardSave: Board -> Board,
    boardExistsById: Long -> bool,
    boardExistsByTitle: string -> bool,
    boardExistsByTitleAndIdNot: (string, Long) -> bool,
    boardFindById: Long -> Option<Board>,
    columnFindById: Long -> Option<Column>,
    columnsByBoard: Long -> Option<seq<Column>>,
    taskSave: Task -> Task,
    taskFindById: Long -> Option<Task>,
    taskExistsById: Long -> bool,
    taskTitleInBoard: (string, Long) -> bool,
    taskTitleInBoardAndIdNot: (string, Long, Long) -> bool,
    tasksByColumn: Long -> Option<seq<Task>>)

  /** One gateway call, with its arguments. */
  datatype Call =
    | BoardSave(board: Board)
    | BoardExistsById(id: Long)
    | BoardExistsByTitle(title: string)
    | BoardExistsByTitleAndIdNot(title: string, id: Long)
    | BoardFindById(id: Long)
    | BoardDelete(id: Long)
    | ColumnSave(column: Column)
    | ColumnFindById(id: Long)
    | ColumnsByBoard(boardId: Long)
    | TaskSave(task: Task)
    | TaskFindById(id: Long)
    | TaskExistsById(id: Long)
    | TaskTitleInBoard(title: string, boardId: Long)
    | TaskTitleInBoardAndIdNot(title: string, boardId: Long, id: Long)
    | TasksByColumn(columnId: Long)
    | TaskDelete(id: Long)

  /** The calls that change a repository. */
  predicate IsWrite(c: Call) {
    c.BoardSave? || c.BoardDelete? || c.ColumnSave? || c.TaskSave? || c.TaskDelete?
  }

  predicate OnColumnGateway(c: Call) {
    c.ColumnSave? || c.ColumnFindById? || c.ColumnsByBoard?
  }

  predicate OnTaskGateway(c: Call) {
    c.TaskSave? || c.TaskFindById? || c.TaskExistsById? || c.TaskTitleInBoard?
    || c.TaskTitleInBoardAndIdNot? || c.TasksByColumn? || c.TaskDelete?
  }

  predicate NoWrites(calls: seq<Call>) {
    forall i :: 0 <= i < |calls| ==> !IsWrite(calls[i])
  }

  /** The writes among the calls, in order. */
  function Writes(calls: seq<Call>): (w: seq<Call>)
    ensures |w| <= |calls|
    ensures forall i :: 0 <= i < |w| ==> IsWrite(w[i])
    ensures NoWrites(calls) <==> w == []
  {
    if |calls| == 0 then []
    else
      var rest := Writes(calls[1..]);
      assert NoWrites(calls) <==> !IsWrite(calls[0]) && NoWrites(calls[1..]) by {
        assert forall i :: 1 <= i < |calls| ==> calls[i] == calls[1..][i - 1];
      }
      if IsWrite(calls[0]) then [calls[0]] + rest else rest
  }

  /** The writes of a concatenation are the writes of each part. */
  lemma {:induction false} WritesConcat(a: seq<Call>, b: seq<Call>)
    ensures Writes(a + b) == Writes(a) + Writes(b)
    decreases |a|
  {
    if |a| > 0 {
      assert (a + b)[1..] == a[1..] + b;
      WritesConcat(a[1..], b);
    } else {
      assert a + b == b;
    }
  }

  /** Queries followed by one write: that write is the only one. */
  lemma QueriesThenWrite(qs: seq<Call>, w: Call)
    requires NoWrites(qs) && IsWrite(w)
    ensures Writes(qs + [w]) == [w]
  {
    WritesConcat(qs, [w]);
    assert [w][1..] == [];
  }

  /** A use case's result together with the calls it made. */
  datatype Outcome<+T> = Outcome(result: Result<T, Error>, calls: seq<Call>)

  // ---------------------------------------------------------------------
  // Not-found messages
  // ---------------------------------------------------------------------

  const ByIdPrefix: string := "Entity not found by ID: \""
  const WithIdPrefix: string := "Entity not found with ID: "

  /** The message of the board and column gateways: the id in double quotes. */
  function NotFoundByIdMessage(id: Long): string {
    ByIdPrefix + LongToString(id) + "\""
  }

  /** The message of the task gateway (and of the task delete use case). */
  function NotFoundWithIdMessage(id: Long): string {
    WithIdPrefix + LongToString(id)
  }

  /** Each message names its id: the id reads back from the text after the
      prefix (inside the quotes), so different ids give different messages;
      and the two gateways' messages never coincide. */
  lemma NotFoundMessagesCarryId(id: Long, other: Long)
    ensures var m := NotFoundByIdMessage(id);
      |m| > |ByIdPrefix| + 1 && m[..|ByIdPrefix|] == ByIdPrefix && m[|m| - 1] == '"'
      && ParseLong(m[|ByIdPrefix|..|m| - 1]) == Some(id)
    ensures var m := NotFoundWithIdMessage(id);
      |m| > |WithIdPrefix| && m[..|WithIdPrefix|] == WithIdPrefix && ParseLong(m[|WithIdPrefix|..]) == Some(id)
    ensures id != other ==> NotFoundByIdMessage(id) != NotFoundByIdMessage(other)
    ensures id != other ==> NotFoundWithIdMessage(id) != NotFoundWithIdMessage(other)
    ensures NotFoundByIdMessage(id) != NotFoundWithIdMessage(other)
  {
    LongRoundTrip(id);
    LongRoundTrip(other);
    var m := NotFoundByIdMessage(id);
    assert m[|ByIdPrefix|..|m| - 1] == LongToString(id);
    var n := NotFoundWithIdMessage(id);
    assert n[|WithIdPrefix|..] == LongToString(id);
    var mo := NotFoundByIdMessage(other);
    assert mo[|ByIdPrefix|..|mo| - 1] == LongToString(other);
    var no := NotFoundWithIdMessage(other);
    assert no[|WithIdPrefix|..] == LongToString(other);
    assert NotFoundByIdMessage(id)[17] == ByIdPrefix[17] != WithIdPrefix[17] == NotFoundWithIdMessage(other)[17];
  }

  // ---------------------------------------------------------------------
  // findById
  // ---------------------------------------------------------------------

  /** `BoardRepositoryGateway.findById`. */
  function FindBoard(g: Repos, id: Long): (r: Result<Board, Error>)
    ensures g.boardFindById(id).Some? ==> r == Ok(g.boardFindById(id).value)
    ensures g.boardFindById(id).None? ==> r == Err(EntityNotFound(NotFoundByIdMessage(id)))
  {
    match g.boardFindById(id)
    case Some(b) => Ok(b)
    case None => Err(EntityNotFound(NotFoundByIdMessage(id)))
  }

  /** `ColumnRepositoryGateway.findById`. */
  function FindColumn(g: Repos, id: Long): (r: Result<Column, Error>)
    ensures g.columnFindById(id).Some? ==> r == Ok(g.columnFindById(id).value)
    ensures g.columnFindById(id).None? ==> r == Err(EntityNotFound(NotFoundByIdMessage(id)))
  {
    match g.columnFindById(id)
    case Some(c) => Ok(c)
    case None => Err(EntityNotFound(NotFoundByIdMessage(id)))
  }

  /** `TaskRepositoryGateway.findById`. */
  function FindTask(g: Repos, id: Long): (r: Result<Task, Error>)
    ensures g.taskFindById(id).Some? ==> r == Ok(g.taskFindById(id).value)
    ensures g.taskFindById(id).None? ==> r == Err(EntityNotFound(NotFoundWithIdMessage(id)))
  {
    match g.taskFindById(id)
    case Some(t) => Ok(t)
    case None => Err(EntityNotFound(NotFoundWithIdMessage(id)))
  }
}
