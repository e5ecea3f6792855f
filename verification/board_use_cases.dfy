/** The board use cases: create, update, delete, and the complete view of a
    board with its columns and their tasks. Each runs against the answers of
    the repositories and reports its result and the gateway calls it made. */
module BoardUseCases {
  import opened Wrappers
  import opened JavaText
  import opened Domain
  import opened Gateways

  // ---------------------------------------------------------------------
  // Create
  // ---------------------------------------------------------------------

  /** `createColumnsForBoard`: one column save per type, in order, each a new
      column of the board. */
  function ColumnSaves(b: Board, types: seq<ColumnType>): (cs: seq<Call>)
    ensures |cs| == |types|
    ensures forall i :: 0 <= i < |types| ==> cs[i] == ColumnSave(Column(None, b, types[i]))
  {
    if |types| == 0 then [] else [ColumnSave(Column(None, b, types[0]))] + ColumnSaves(b, types[1..])
  }

  /** `CreateBoardUseCaseImpl.execute`: the title check comes first and a
      taken title stops everything; otherwise the new board is saved and then
      one column per column type, each referring to the saved board. */
  function CreateBoard(g: Repos, title: string, now: Timestamp): (o: Outcome<Board>)
    ensures |o.calls| >= 1 && o.calls[0] == BoardExistsByTitle(title)
    ensures o.result.Err? <==> g.boardExistsByTitle(title)
    ensures o.result.Err? ==> o.result.error == DuplicateTitle(DuplicateTitleMessage(title)) && NoWrites(o.calls)
    ensures o.result.Ok? ==> o.result.value == g.boardSave(NewBoard(None, title, now))
    ensures o.result.Ok? ==>
      var w := Writes(o.calls);
      && |w| == 1 + |ColumnTypeValues|
      && w[0] == BoardSave(NewBoard(None, title, now))
      && forall i :: 0 <= i < |ColumnTypeValues| ==> w[i + 1] == ColumnSave(Column(None, o.result.value, ColumnTypeValues[i]))
  {
    if g.boardExistsByTitle(title) then
      Outcome(Err(DuplicateTitle(DuplicateTitleMessage(title))), [BoardExistsByTitle(title)])
    else
      var board := NewBoard(None, title, now);
      var created := g.boardSave(board);
      var columns := ColumnSaves(created, ColumnTypeValues);
      CreationWrites(title, board, created);
      Outcome(Ok(created), [BoardExistsByTitle(title), BoardSave(board)] + columns)
  }

  /** The writes of a creation: the board save, then the column saves. */
  lemma CreationWrites(title: string, board: Board, created: Board)
    ensures var columns := ColumnSaves(created, ColumnTypeValues);
      Writes([BoardExistsByTitle(title), BoardSave(board)] + columns) == [BoardSave(board)] + columns
  {
    var columns := ColumnSaves(created, ColumnTypeValues);
    WritesConcat([BoardExistsByTitle(title), BoardSave(board)], columns);
    AllWrites(columns);
    assert [BoardExistsByTitle(title), BoardSave(board)][1..] == [BoardSave(board)];
  }

  /** A list made only of writes is its own list of writes. */
  lemma {:induction false} AllWrites(calls: seq<Call>)
    requires forall i :: 0 <= i < |calls| ==> IsWrite(calls[i])
    ensures Writes(calls) == calls
    decreases |calls|
  {
    if |calls| > 0 {
      AllWrites(calls[1..]);
      assert calls == [calls[0]] + calls[1..];
    }
  }

  // ---------------------------------------------------------------------
  // Update
  // ---------------------------------------------------------------------

  /** `UpdateBoardUseCaseImpl.execute`: the board is looked up first (an
      unknown id fails before any title check), then the title is checked
      against the other boards; only then is the renamed board saved. */
  function UpdateBoard(g: Repos, id: Long, newTitle: string): (o: Outcome<Board>)
    ensures |o.calls| >= 1 && o.calls[0] == BoardFindById(id)
    ensures g.boardFindById(id).None? ==>
      o == Outcome(Err(EntityNotFound(NotFoundByIdMessage(id))), [BoardFindById(id)])
    ensures g.boardFindById(id).Some? && g.boardExistsByTitleAndIdNot(newTitle, id) ==>
      o.result == Err(DuplicateTitle(DuplicateTitleMessage(newTitle))) && NoWrites(o.calls)
    ensures o.result.Ok? <==> g.boardFindById(id).Some? && !g.boardExistsByTitleAndIdNot(newTitle, id)
    ensures o.result.Err? ==> NoWrites(o.calls)
    ensures o.result.Ok? ==>
      var renamed := g.boardFindById(id).value.(title := newTitle);
      Writes(o.calls) == [BoardSave(renamed)] && o.result.value == g.boardSave(renamed)
  {
    match FindBoard(g, id)
    case Err(e) => Outcome(Err(e), [BoardFindById(id)])
    case Ok(existing) =>
      if g.boardExistsByTitleAndIdNot(newTitle, id) then
        Outcome(Err(DuplicateTitle(DuplicateTitleMessage(newTitle))),
                [BoardFindById(id), BoardExistsByTitleAndIdNot(newTitle, id)])
      else
        var renamed := existing.(title := newTitle);
        var calls := [BoardFindById(id), BoardExistsByTitleAndIdNot(newTitle, id), BoardSave(renamed)];
        QueriesThenWrite([BoardFindById(id), BoardExistsByTitleAndIdNot(newTitle, id)], BoardSave(renamed));
        Outcome(Ok(g.boardSave(renamed)), calls)
  }

  // ---------------------------------------------------------------------
  // Delete
  // ---------------------------------------------------------------------

  /** The message of the delete use case for an absent board. */
  function BoardMissingMessage(id: Long): string {
    "Board with ID " + LongToString(id) + " does not exist."
  }

  /** `DeleteBoardUseCaseImpl.execute`: an existence check, then exactly one
      delete of that id; an absent board is never deleted. */
  function DeleteBoard(g: Repos, id: Long): (o: Outcome<()>)
    ensures |o.calls| >= 1 && o.calls[0] == BoardExistsById(id)
    ensures o.result.Err? <==> !g.boardExistsById(id)
    ensures o.result.Err? ==> o.result.error == EntityNotFound(BoardMissingMessage(id)) && NoWrites(o.calls)
    ensures o.result.Ok? ==> Writes(o.calls) == [BoardDelete(id)]
  {
    if !g.boardExistsById(id) then
      Outcome(Err(EntityNotFound(BoardMissingMessage(id))), [BoardExistsById(id)])
    else
      var calls := [BoardExistsById(id), BoardDelete(id)];
      assert Writes(calls) == [BoardDelete(id)];
      Outcome(Ok(()), calls)
  }

  // ---------------------------------------------------------------------
  // Complete view
  // ---------------------------------------------------------------------

  datatype TaskOutput = TaskOutput(
    id: Option<Long>, title: string, description: string, dueDate: Date, blocked: bool, createdAt: Timestamp)

  datatype ColumnOutput = ColumnOutput(id: Option<Long>, kind: ColumnType, tasks: seq<TaskOutput>)

  datatype CompleteBoardOutput = CompleteBoardOutput(
    id: Option<Long>, title: string, createdAt: Timestamp, columns: seq<ColumnOutput>)

  /** `new TaskOutput(...)` from a task: its fields, without the column. */
  function TaskOutputOf(t: Task): TaskOutput {
    TaskOutput(t.id, t.title, t.description, t.dueDate, t.blocked, t.createdAt)
  }

  /** The projection of a column's task list. */
  function TaskOutputsOf(ts: seq<Task>): (r: seq<TaskOutput>)
    ensures |r| == |ts|
    ensures forall i :: 0 <= i < |ts| ==> r[i] == TaskOutputOf(ts[i])
  {
    if |ts| == 0 then [] else [TaskOutputOf(ts[0])] + TaskOutputsOf(ts[1..])
  }

  /** The repositories list only saved columns, which have ids. */
  predicate ColumnsHaveIds(g: Repos, boardId: Long) {
    forall c :: c in OrEmpty(g.columnsByBoard(boardId)) ==> c.id.Some?
  }

  /** The tasks of a column as the use case sees them: a `null` list is
      empty. */
  function TasksOf(g: Repos, c: Column): seq<Task>
    requires c.id.Some?
  {
    OrEmpty(g.tasksByColumn(c.id.value))
  }

  /** One column output per column, in order. */
  function ColumnOutputsOf(g: Repos, cols: seq<Column>): (r: seq<ColumnOutput>)
    requires forall i :: 0 <= i < |cols| ==> cols[i].id.Some?
    ensures |r| == |cols|
    ensures forall i :: 0 <= i < |cols| ==>
      r[i] == ColumnOutput(cols[i].id, cols[i].kind, TaskOutputsOf(TasksOf(g, cols[i])))
  {
    if |cols| == 0 then []
    else [ColumnOutput(cols[0].id, cols[0].kind, TaskOutputsOf(TasksOf(g, cols[0])))] + ColumnOutputsOf(g, cols[1..])
  }

  /** The task queries, one per column, in order. */
  function TaskQueries(cols: seq<Column>): (r: seq<Call>)
    requires forall i :: 0 <= i < |cols| ==> cols[i].id.Some?
    ensures |r| == |cols|
    ensures forall i :: 0 <= i < |cols| ==> r[i] == TasksByColumn(cols[i].id.value)
  {
    if |cols| == 0 then [] else [TasksByColumn(cols[0].id.value)] + TaskQueries(cols[1..])
  }

  /** `CompleteBoardUseCaseImpl.execute`: an unknown board fails before any
      column or task query; otherwise the board's fields, then each of its
      columns in the order listed, with that column's tasks projected field by
      field. A `null` list counts as empty, and nothing is written. */
  function CompleteBoard(g: Repos, boardId: Long): (o: Outcome<CompleteBoardOutput>)
    requires ColumnsHaveIds(g, boardId)
    ensures NoWrites(o.calls)
    ensures g.boardFindById(boardId).None? ==>
      o == Outcome(Err(EntityNotFound(NotFoundByIdMessage(boardId))), [BoardFindById(boardId)])
    ensures o.result.Ok? <==> g.boardFindById(boardId).Some?
    ensures o.result.Ok? ==>
      var b := g.boardFindById(boardId).value;
      var cols := OrEmpty(g.columnsByBoard(boardId));
      var out := o.result.value;
      && out.id == b.id && out.title == b.title && out.createdAt == b.createdAt
      && |out.columns| == |cols|
      && (forall i :: 0 <= i < |cols| ==>
            && out.columns[i].id == cols[i].id
            && out.columns[i].kind == cols[i].kind
            && |out.columns[i].tasks| == |TasksOf(g, cols[i])|
            && forall j :: 0 <= j < |TasksOf(g, cols[i])| ==>
                 out.columns[i].tasks[j] == TaskOutputOf(TasksOf(g, cols[i])[j]))
      && |o.calls| == 2 + |cols|
      && o.calls[..2] == [BoardFindById(boardId), ColumnsByBoard(boardId)]
      && forall i :: 0 <= i < |cols| ==> o.calls[2 + i] == TasksByColumn(cols[i].id.value)
  {
    match FindBoard(g, boardId)
    case Err(e) => Outcome(Err(e), [BoardFindById(boardId)])
    case Ok(board) =>
      var cols := OrEmpty(g.columnsByBoard(boardId));
      assert forall i :: 0 <= i < |cols| ==> cols[i].id.Some? by {
        assert forall i :: 0 <= i < |cols| ==> cols[i] in cols;
      }
      var calls := [BoardFindById(boardId), ColumnsByBoard(boardId)] + TaskQueries(cols);
      assert NoWrites(calls);
      Outcome(Ok(CompleteBoardOutput(board.id, board.title, board.createdAt, ColumnOutputsOf(g, cols))), calls)
  }

  // ---------------------------------------------------------------------
  // Properties
  // ---------------------------------------------------------------------

  /** Neither the column nor the task gateway hears from the complete view
      of an unknown board, and with no columns the task gateway is not asked
      at all. */
  lemma CompleteBoardQueriesOnlyWhatItNeeds(g: Repos, boardId: Long)
    requires ColumnsHaveIds(g, boardId)
    ensures g.boardFindById(boardId).None? ==>
      forall i :: 0 <= i < |CompleteBoard(g, boardId).calls| ==>
        !OnColumnGateway(CompleteBoard(g, boardId).calls[i]) && !OnTaskGateway(CompleteBoard(g, boardId).calls[i])
    ensures OrEmpty(g.columnsByBoard(boardId)) == [] ==>
      forall i :: 0 <= i < |CompleteBoard(g, boardId).calls| ==> !OnTaskGateway(CompleteBoard(g, boardId).calls[i])
  {
    var o := CompleteBoard(g, boardId);
    if OrEmpty(g.columnsByBoard(boardId)) == [] && o.result.Ok? {
      assert |o.calls| == 2;
      assert o.calls == o.calls[..2];
    }
  }

  /** A title clash never outruns a missing board: an update of an unknown
      board reports the board missing, whatever the title check would say. */
  lemma UpdateBoardMissingWins(g: Repos, id: Long, newTitle: string)
    requires g.boardFindById(id).None?
    ensures UpdateBoard(g, id, newTitle).result == Err(EntityNotFound(NotFoundByIdMessage(id)))
    ensures forall i :: 0 <= i < |UpdateBoard(g, id, newTitle).calls| ==>
      !UpdateBoard(g, id, newTitle).calls[i].BoardExistsByTitleAndIdNot?
  {
  }
}
