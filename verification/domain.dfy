/** The domain entities (Board, Column, Task), the fixed column types, the
    error conditions, and the task's blocked/unblocked state machine. */
module Domain {
  import opened Wrappers
  import opened JavaText

  // ---------------------------------------------------------------------
  // Column types
  // ---------------------------------------------------------------------

  datatype ColumnType = ToDo | InProgress | Done | Paused

  /** `ColumnType.values()`, in declaration order. */
  const ColumnTypeValues: seq<ColumnType> := [ToDo, InProgress, Done, Paused]

  /** `ColumnType.name()`. */
  function ColumnTypeName(t: ColumnType): string {
    match t
    case ToDo => "TO_DO"
    case InProgress => "IN_PROGRESS"
    case Done => "DONE"
    case Paused => "PAUSED"
  }

  /** `ColumnType.valueOf(name)`; `None` stands for its IllegalArgumentException. */
  function ColumnTypeValueOf(s: string): (r: Option<ColumnType>)
    ensures r.Some? ==> ColumnTypeName(r.value) == s
  {
    if s == "TO_DO" then Some(ToDo)
    else if s == "IN_PROGRESS" then Some(InProgress)
    else if s == "DONE" then Some(Done)
    else if s == "PAUSED" then Some(Paused)
    else None
  }

  lemma ColumnTypeRoundTrip(t: ColumnType)
    ensures ColumnTypeValueOf(ColumnTypeName(t)) == Some(t)
    ensures FieldOk(ColumnTypeName(t)) && ColumnTypeName(t) != ""
  {
  }

  // ---------------------------------------------------------------------
  // Dates and timestamps
  // ---------------------------------------------------------------------

  /** A `LocalDate`, as its day number on the calendar. */
  datatype Date = Date(epochDay: int)

  /** A `LocalDateTime`, as its position on the time line. */
  datatype Timestamp = Timestamp(tick: int)

  /** `LocalDate.isBefore`. */
  predicate IsBefore(a: Date, b: Date) {
    a.epochDay < b.epochDay
  }

  function FormatDate(d: Date): string {
    IntToString(d.epochDay)
  }

  function ParseDate(s: string): Option<Date> {
    match ParseInt(s)
    case Some(n) => Some(Date(n))
    case None => None
  }

  function FormatTimestamp(t: Timestamp): string {
    IntToString(t.tick)
  }

  function ParseTimestamp(s: string): Option<Timestamp> {
    match ParseInt(s)
    case Some(n) => Some(Timestamp(n))
    case None => None
  }

  /** The textual forms carry no delimiter and read back to the same value. */
  lemma DateCodecRoundTrip(d: Date, t: Timestamp)
    ensures ParseDate(FormatDate(d)) == Some(d)
    ensures ParseTimestamp(FormatTimestamp(t)) == Some(t)
    ensures FieldOk(FormatDate(d)) && FormatDate(d) != ""
    ensures FieldOk(FormatTimestamp(t)) && FormatTimestamp(t) != ""
  {
    IntRoundTrip(d.epochDay);
    IntRoundTrip(t.tick);
  }

  // ---------------------------------------------------------------------
  // Entities
  // ---------------------------------------------------------------------

  /** A board; `id` is `None` until the board is first saved. */
  datatype Board = Board(id: Option<Long>, title: string, createdAt: Timestamp)

  /** A column holds the board it belongs to (a back-reference, as in the source). */
  datatype Column = Column(id: Option<Long>, board: Board, kind: ColumnType)

  datatype Task = Task(
    id: Option<Long>,
    title: string,
    description: string,
    dueDate: Date,
    blocked: bool,
    createdAt: Timestamp,
    column: Column)

  /** Sort key of a board for `Comparator.comparingLong(Board::getId)`: its
      id (every stored board has one). */
  function IdKey(b: Board): int {
    if b.id.Some? then b.id.value else 0
  }

  /** `new Board(id, title)`: the creation time is the clock reading `now`. */
  function NewBoard(id: Option<Long>, title: string, now: Timestamp): (b: Board)
    ensures b.id == id && b.title == title && b.createdAt == now
  {
    Board(id, title, now)
  }

  /** The full `Task` constructor: every given field is stored as given, the
      task starts unblocked and its creation time is `now`. */
  function NewTask(id: Option<Long>, title: string, description: string, dueDate: Date,
                   column: Column, now: Timestamp): (t: Task)
    ensures !t.blocked
    ensures t.id == id && t.title == title && t.description == description
    ensures t.dueDate == dueDate && t.column == column && t.createdAt == now
  {
    Task(id, title, description, dueDate, false, now, column)
  }

  /** The stream filter both stores use in `findAllByBoardId`: the tasks whose column's board
      has id `boardId`, in order. */
  function TasksOnBoard(ts: seq<Task>, boardId: Long): (r: seq<Task>)
    ensures |r| <= |ts|
    ensures forall t :: t in r <==> t in ts && t.column.board.id == Some(boardId)
  {
    if |ts| == 0 then []
    else
      var rest := TasksOnBoard(ts[1..], boardId);
      assert forall t :: t in ts <==> t == ts[0] || t in ts[1..];
      if ts[0].column.board.id == Some(boardId) then [ts[0]] + rest else rest
  }

  /** The filter keeps order and multiplicity: it distributes over
      concatenation, and keeps a single task exactly when its board matches. */
  lemma {:induction false} TasksOnBoardInOrder(a: seq<Task>, b: seq<Task>, boardId: Long)
    ensures TasksOnBoard(a + b, boardId) == TasksOnBoard(a, boardId) + TasksOnBoard(b, boardId)
    ensures |a| == 1 ==> TasksOnBoard(a, boardId) == if a[0].column.board.id == Some(boardId) then a else []
  {
    if |a| > 0 {
      var x, rest := a[0], a[1..];
      assert a == [x] + rest && a + b == [x] + (rest + b);
      TasksOnBoardCons(x, rest, boardId);
      TasksOnBoardCons(x, rest + b, boardId);
      TasksOnBoardInOrder(rest, b, boardId);
    } else {
      assert a + b == b;
    }
    if |a| == 1 {
      TasksOnBoardCons(a[0], [], boardId);
      assert a == [a[0]] + [];
    }
  }

  /** One unfolding step of the filter. */
  lemma TasksOnBoardCons(x: Task, xs: seq<Task>, boardId: Long)
    ensures TasksOnBoard([x] + xs, boardId)
         == (if x.column.board.id == Some(boardId) then [x] else []) + TasksOnBoard(xs, boardId)
  {
    assert ([x] + xs)[0] == x && ([x] + xs)[1..] == xs;
  }

  /** The filter finds nothing when no task is on the board. */
  lemma {:induction false} NoneOnBoard(ts: seq<Task>, boardId: Long)
    requires forall i :: 0 <= i < |ts| ==> ts[i].column.board.id != Some(boardId)
    ensures TasksOnBoard(ts, boardId) == []
  {
    if |ts| > 0 {
      NoneOnBoard(ts[1..], boardId);
    }
  }

  /** The stream filter both stores use in `findAllByColumnId`: the tasks whose column has id
      `columnId`, in order. */
  function TasksInColumn(ts: seq<Task>, columnId: Long): (r: seq<Task>)
    ensures |r| <= |ts|
    ensures forall t :: t in r <==> t in ts && t.column.id == Some(columnId)
  {
    if |ts| == 0 then []
    else
      var rest := TasksInColumn(ts[1..], columnId);
      assert forall t :: t in ts <==> t == ts[0] || t in ts[1..];
      if ts[0].column.id == Some(columnId) then [ts[0]] + rest else rest
  }

  /** The filter keeps order and multiplicity: it distributes over
      concatenation, and keeps a single task exactly when its column matches. */
  lemma {:induction false} TasksInColumnInOrder(a: seq<Task>, b: seq<Task>, columnId: Long)
    ensures TasksInColumn(a + b, columnId) == TasksInColumn(a, columnId) + TasksInColumn(b, columnId)
    ensures |a| == 1 ==> TasksInColumn(a, columnId) == if a[0].column.id == Some(columnId) then a else []
  {
    if |a| > 0 {
      var x, rest := a[0], a[1..];
      assert a == [x] + rest && a + b == [x] + (rest + b);
      TasksInColumnCons(x, rest, columnId);
      TasksInColumnCons(x, rest + b, columnId);
      TasksInColumnInOrder(rest, b, columnId);
    } else {
      assert a + b == b;
    }
    if |a| == 1 {
      TasksInColumnCons(a[0], [], columnId);
      assert a == [a[0]] + [];
    }
  }

  /** One unfolding step of the filter. */
  lemma TasksInColumnCons(x: Task, xs: seq<Task>, columnId: Long)
    ensures TasksInColumn([x] + xs, columnId)
         == (if x.column.id == Some(columnId) then [x] else []) + TasksInColumn(xs, columnId)
  {
    assert ([x] + xs)[0] == x && ([x] + xs)[1..] == xs;
  }

  /** The stream filter of the memory column store's `findAllByBoardId`: the
      columns whose board has id `boardId`, in order. */
  function ColumnsOnBoard(cs: seq<Column>, boardId: Long): (r: seq<Column>)
    ensures |r| <= |cs|
    ensures forall c :: c in r <==> c in cs && c.board.id == Some(boardId)
  {
    if |cs| == 0 then []
    else
      var rest := ColumnsOnBoard(cs[1..], boardId);
      assert forall c :: c in cs <==> c == cs[0] || c in cs[1..];
      if cs[0].board.id == Some(boardId) then [cs[0]] + rest else rest
  }

  /** The filter keeps order and multiplicity: it distributes over
      concatenation, and keeps a single column exactly when its board matches. */
  lemma {:induction false} ColumnsOnBoardInOrder(a: seq<Column>, b: seq<Column>, boardId: Long)
    ensures ColumnsOnBoard(a + b, boardId) == ColumnsOnBoard(a, boardId) + ColumnsOnBoard(b, boardId)
    ensures |a| == 1 ==> ColumnsOnBoard(a, boardId) == if a[0].board.id == Some(boardId) then a else []
  {
    if |a| > 0 {
      var x, rest := a[0], a[1..];
      assert a == [x] + rest && a + b == [x] + (rest + b);
      ColumnsOnBoardCons(x, rest, boardId);
      ColumnsOnBoardCons(x, rest + b, boardId);
      ColumnsOnBoardInOrder(rest, b, boardId);
    } else {
      assert a + b == b;
    }
    if |a| == 1 {
      ColumnsOnBoardCons(a[0], [], boardId);
      assert a == [a[0]] + [];
    }
  }

  /** One unfolding step of the filter. */
  lemma ColumnsOnBoardCons(x: Column, xs: seq<Column>, boardId: Long)
    ensures ColumnsOnBoard([x] + xs, boardId)
         == (if x.board.id == Some(boardId) then [x] else []) + ColumnsOnBoard(xs, boardId)
  {
    assert ([x] + xs)[0] == x && ([x] + xs)[1..] == xs;
  }

  // ---------------------------------------------------------------------
  // Errors
  // ---------------------------------------------------------------------

  /** The exceptions the use cases raise, each with its message. */
  datatype Error =
    | EntityNotFound(message: string)
    | DuplicateTitle(message: string)
    | InvalidDueDate(message: string)
    | BlockedTask(message: string)
    | IllegalArgument(message: string)

  const BlockedTaskMessage: string := "Task blocked! Unlock it to be able to move."

  /** The message of a title clash, the title in double quotes. */
  function DuplicateTitleMessage(title: string): string {
    "Title: \"" + title + "\" already in use."
  }

  const InvalidDueDateMessage: string := "Due date cannot be in the past."

  const AlreadyInColumnMessage: string := "Task is already in the destination column"

  // ---------------------------------------------------------------------
  // Task state machine
  // ---------------------------------------------------------------------

  /** `block()`: only the blocked flag changes, and it ends up set. */
  function Block(t: Task): (r: Task)
    ensures r.blocked
    ensures r == t.(blocked := true)
  {
    if !t.blocked then t.(blocked := true) else t
  }

  /** `unblock()`: only the blocked flag changes, and it ends up clear. */
  function Unblock(t: Task): (r: Task)
    ensures !r.blocked
    ensures r == t.(blocked := false)
  {
    if t.blocked then t.(blocked := false) else t
  }

  /** `move(toColumn)`: refused while blocked; otherwise only the column changes. */
  function Move(t: Task, to: Column): (r: Result<Task, Error>)
    ensures r.Err? <==> t.blocked
    ensures r.Err? ==> r.error == BlockedTask(BlockedTaskMessage)
    ensures r.Ok? ==> r.value == t.(column := to) && !r.value.blocked
  {
    if t.blocked then Err(BlockedTask(BlockedTaskMessage)) else Ok(t.(column := to))
  }

  lemma BlockIdempotent(t: Task)
    ensures Block(Block(t)) == Block(t)
    ensures t.blocked ==> Block(t) == t
  {
  }

  lemma UnblockIdempotent(t: Task)
    ensures Unblock(Unblock(t)) == Unblock(t)
    ensures !t.blocked ==> Unblock(t) == t
  {
  }

  /** Blocking then unblocking an unblocked task restores it exactly. */
  lemma UnblockUndoesBlock(t: Task)
    requires !t.blocked
    ensures Unblock(Block(t)) == t
  {
  }

  /** After `block()` every move fails and the column stays; after `unblock()`
      every move succeeds and lands in the target column. */
  lemma BlockedTaskCannotMove(t: Task, to: Column)
    ensures Move(Block(t), to) == Err(BlockedTask(BlockedTaskMessage))
    ensures Block(t).column == t.column
    ensures Move(Unblock(t), to) == Ok(t.(blocked := false, column := to))
  {
  }

  /** A freshly constructed task can be moved anywhere. */
  lemma NewTaskIsMovable(id: Option<Long>, title: string, description: string, dueDate: Date,
                         column: Column, now: Timestamp, to: Column)
    ensures Move(NewTask(id, title, description, dueDate, column, now), to).Ok?
  {
  }
}
