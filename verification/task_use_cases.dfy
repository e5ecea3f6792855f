/** The task use cases: create, update, move, block, unblock and delete. Each
    runs against the answers of the repositories and reports its result and
    the gateway calls it made. `today` is the reading of `LocalDate.now()`
    and `now` that of `LocalDateTime.now()`. */
module TaskUseCases {
  import opened Wrappers
  import opened JavaText
  import opened Domain
  import opened Gateways

  datatype CreateTaskInput = CreateTaskInput(title: string, description: string, dueDate: Date, columnId: Long)

  datatype UpdateTaskInput = UpdateTaskInput(id: Long, title: string, description: string, dueDate: Date)

  /** Columns come back from the repository with their board, which has been
      saved and so has an id. */
  predicate ColumnBoardSaved(g: Repos, columnId: Long) {
    g.columnFindById(columnId).Some? ==> g.columnFindById(columnId).value.board.id.Some?
  }

  /** A stored task's column belongs to a saved board. */
  predicate TaskBoardSaved(g: Repos, taskId: Long) {
    g.taskFindById(taskId).Some? ==> g.taskFindById(taskId).value.column.board.id.Some?
  }

  // ---------------------------------------------------------------------
  // Create
  // ---------------------------------------------------------------------

  /** `CreateTaskUseCaseImpl.execute`. The checks run in this order and the
      first that fails decides: the column must exist, the due date must not
      lie before today (today itself is accepted), the title must be free in
      the column's board. Only then is one task saved: no id, the input's
      fields, the resolved column, unblocked. */
  function CreateTask(g: Repos, input: CreateTaskInput, today: Date, now: Timestamp): (o: Outcome<Task>)
    requires ColumnBoardSaved(g, input.columnId)
    ensures |o.calls| >= 1 && o.calls[0] == ColumnFindById(input.columnId)
    ensures g.columnFindById(input.columnId).None? ==>
      o == Outcome(Err(EntityNotFound(NotFoundByIdMessage(input.columnId))), [ColumnFindById(input.columnId)])
    ensures g.columnFindById(input.columnId).Some? && IsBefore(input.dueDate, today) ==>
      o == Outcome(Err(InvalidDueDate(InvalidDueDateMessage)), [ColumnFindById(input.columnId)])
    ensures g.columnFindById(input.columnId).Some? && !IsBefore(input.dueDate, today) ==>
      var boardId := g.columnFindById(input.columnId).value.board.id.value;
      && |o.calls| >= 2 && o.calls[1] == TaskTitleInBoard(input.title, boardId)
      && (g.taskTitleInBoard(input.title, boardId) ==>
            o.result == Err(DuplicateTitle(DuplicateTitleMessage(input.title))) && NoWrites(o.calls))
      && (!g.taskTitleInBoard(input.title, boardId) ==> o.result.Ok?)
    ensures o.result.Err? ==> NoWrites(o.calls)
    ensures o.result.Ok? ==>
      var column := g.columnFindById(input.columnId).value;
      var task := NewTask(None, input.title, input.description, input.dueDate, column, now);
      && !IsBefore(input.dueDate, today)
      && !g.taskTitleInBoard(input.title, column.board.id.value)
      && Writes(o.calls) == [TaskSave(task)]
      && o.result.value == g.taskSave(task)
  {
    match FindColumn(g, input.columnId)
    case Err(e) => Outcome(Err(e), [ColumnFindById(input.columnId)])
    case Ok(column) =>
      if IsBefore(input.dueDate, today) then
        Outcome(Err(InvalidDueDate(InvalidDueDateMessage)), [ColumnFindById(input.columnId)])
      else
        var boardId := column.board.id.value;
        var checks := [ColumnFindById(input.columnId), TaskTitleInBoard(input.title, boardId)];
        if g.taskTitleInBoard(input.title, boardId) then
          Outcome(Err(DuplicateTitle(DuplicateTitleMessage(input.title))), checks)
        else
          var task := NewTask(None, input.title, input.description, input.dueDate, column, now);
          QueriesThenWrite(checks, TaskSave(task));
          Outcome(Ok(g.taskSave(task)), checks + [TaskSave(task)])
  }

  /** Once the column is found and the due date passes, the creation
      succeeds exactly when no task of the column's board has the title. */
  lemma CreateTurnsOnTitle(g: Repos, input: CreateTaskInput, today: Date, now: Timestamp, c: Column)
    requires g.columnFindById(input.columnId) == Some(c) && c.board.id.Some? && !IsBefore(input.dueDate, today)
    ensures ColumnBoardSaved(g, input.columnId)
    ensures CreateTask(g, input, today, now).result.Ok? <==> !g.taskTitleInBoard(input.title, c.board.id.value)
  {
  }

  // ---------------------------------------------------------------------
  // Update
  // ---------------------------------------------------------------------

  /** `UpdateTaskUseCaseImpl.execute`. The task must exist, the due date must
      not lie before today, and the title must be free among the other tasks
      of the board of the task's current column. Only title, description and
      due date change; the task is saved once. */
  function UpdateTask(g: Repos, input: UpdateTaskInput, today: Date): (o: Outcome<Task>)
    requires TaskBoardSaved(g, input.id)
    ensures |o.calls| >= 1 && o.calls[0] == TaskFindById(input.id)
    ensures g.taskFindById(input.id).None? ==>
      o == Outcome(Err(EntityNotFound(NotFoundWithIdMessage(input.id))), [TaskFindById(input.id)])
    ensures g.taskFindById(input.id).Some? && IsBefore(input.dueDate, today) ==>
      o == Outcome(Err(InvalidDueDate(InvalidDueDateMessage)), [TaskFindById(input.id)])
    ensures g.taskFindById(input.id).Some? && !IsBefore(input.dueDate, today) ==>
      var boardId := g.taskFindById(input.id).value.column.board.id.value;
      && |o.calls| >= 2 && o.calls[1] == TaskTitleInBoardAndIdNot(input.title, boardId, input.id)
      && (g.taskTitleInBoardAndIdNot(input.title, boardId, input.id) ==>
            o.result == Err(DuplicateTitle(DuplicateTitleMessage(input.title))) && NoWrites(o.calls))
      && (!g.taskTitleInBoardAndIdNot(input.title, boardId, input.id) ==> o.result.Ok?)
    ensures o.result.Err? ==> NoWrites(o.calls)
    ensures o.result.Ok? ==>
      var existing := g.taskFindById(input.id).value;
      var updated := existing.(title := input.title, description := input.description, dueDate := input.dueDate);
      && !IsBefore(input.dueDate, today)
      && updated.id == existing.id && updated.column == existing.column && updated.blocked == existing.blocked
      && updated.createdAt == existing.createdAt
      && Writes(o.calls) == [TaskSave(updated)]
      && o.result.value == g.taskSave(updated)
  {
    match FindTask(g, input.id)
    case Err(e) => Outcome(Err(e), [TaskFindById(input.id)])
    case Ok(existing) =>
      if IsBefore(input.dueDate, today) then
        Outcome(Err(InvalidDueDate(InvalidDueDateMessage)), [TaskFindById(input.id)])
      else
        var boardId := existing.column.board.id.value;
        var checks := [TaskFindById(input.id), TaskTitleInBoardAndIdNot(input.title, boardId, input.id)];
        if g.taskTitleInBoardAndIdNot(input.title, boardId, input.id) then
          Outcome(Err(DuplicateTitle(DuplicateTitleMessage(input.title))), checks)
        else
          var updated := existing.(title := input.title, description := input.description, dueDate := input.dueDate);
          QueriesThenWrite(checks, TaskSave(updated));
          Outcome(Ok(g.taskSave(updated)), checks + [TaskSave(updated)])
  }

  /** Once the task is found and the due date passes, the update succeeds
      exactly when no other task of the board has the title. */
  lemma UpdateTurnsOnTitle(g: Repos, input: UpdateTaskInput, today: Date, t: Task)
    requires g.taskFindById(input.id) == Some(t) && t.column.board.id.Some? && !IsBefore(input.dueDate, today)
    ensures TaskBoardSaved(g, input.id)
    ensures UpdateTask(g, input, today).result.Ok?
            <==> !g.taskTitleInBoardAndIdNot(input.title, t.column.board.id.value, input.id)
  {
  }

  // ---------------------------------------------------------------------
  // Move
  // ---------------------------------------------------------------------

  /** The same-column test: the two columns have the same id. */
  predicate SameColumn(a: Column, b: Column) {
    a.id == b.id
  }

  /** `MoveTaskUseCaseImpl.execute`. The task is looked up first, then the
      destination column; a move into the column the task is already in is
      refused before the blocked check; a blocked task is refused; otherwise
      the task, now in the destination column, is saved once. */
  function MoveTask(g: Repos, taskId: Long, columnId: Long): (o: Outcome<()>)
    ensures |o.calls| >= 1 && o.calls[0] == TaskFindById(taskId)
    ensures g.taskFindById(taskId).None? ==>
      o == Outcome(Err(EntityNotFound(NotFoundWithIdMessage(taskId))), [TaskFindById(taskId)])
    ensures g.taskFindById(taskId).Some? ==> |o.calls| >= 2 && o.calls[1] == ColumnFindById(columnId)
    ensures g.taskFindById(taskId).Some? && g.columnFindById(columnId).None? ==>
      o.result == Err(EntityNotFound(NotFoundByIdMessage(columnId)))
    ensures g.taskFindById(taskId).Some? && g.columnFindById(columnId).Some?
            && SameColumn(g.taskFindById(taskId).value.column, g.columnFindById(columnId).value) ==>
      o.result == Err(IllegalArgument(AlreadyInColumnMessage))
    ensures g.taskFindById(taskId).Some? && g.columnFindById(columnId).Some?
            && !SameColumn(g.taskFindById(taskId).value.column, g.columnFindById(columnId).value)
            && g.taskFindById(taskId).value.blocked ==>
      o.result == Err(BlockedTask(BlockedTaskMessage))
    ensures o.result.Err? ==> NoWrites(o.calls)
    ensures o.result.Ok? ==>
      var t := g.taskFindById(taskId).value;
      var dest := g.columnFindById(columnId).value;
      && !t.blocked && !SameColumn(t.column, dest)
      && Writes(o.calls) == [TaskSave(t.(column := dest))]
  {
    match FindTask(g, taskId)
    case Err(e) => Outcome(Err(e), [TaskFindById(taskId)])
    case Ok(t) =>
      var lookups := [TaskFindById(taskId), ColumnFindById(columnId)];
      match FindColumn(g, columnId)
      case Err(e) => Outcome(Err(e), lookups)
      case Ok(dest) =>
        if SameColumn(t.column, dest) then
          Outcome(Err(IllegalArgument(AlreadyInColumnMessage)), lookups)
        else
          match Move(t, dest)
          case Err(e) => Outcome(Err(e), lookups)
          case Ok(moved) =>
            QueriesThenWrite(lookups, TaskSave(moved));
            Outcome(Ok(()), lookups + [TaskSave(moved)])
  }

  // ---------------------------------------------------------------------
  // Block, unblock
  // ---------------------------------------------------------------------

  /** `BlockTaskUseCaseImpl.execute`: an unblocked task is blocked and saved
      once; an already blocked one is left alone and nothing is written. */
  function BlockTask(g: Repos, taskId: Long): (o: Outcome<()>)
    ensures |o.calls| >= 1 && o.calls[0] == TaskFindById(taskId)
    ensures o.result.Err? <==> g.taskFindById(taskId).None?
    ensures o.result.Err? ==> o.result.error == EntityNotFound(NotFoundWithIdMessage(taskId))
    ensures o.result.Err? || g.taskFindById(taskId).value.blocked ==> NoWrites(o.calls)
    ensures o.result.Ok? && !g.taskFindById(taskId).value.blocked ==>
      Writes(o.calls) == [TaskSave(g.taskFindById(taskId).value.(blocked := true))]
  {
    match FindTask(g, taskId)
    case Err(e) => Outcome(Err(e), [TaskFindById(taskId)])
    case Ok(t) =>
      if !t.blocked then
        QueriesThenWrite([TaskFindById(taskId)], TaskSave(Block(t)));
        Outcome(Ok(()), [TaskFindById(taskId), TaskSave(Block(t))])
      else Outcome(Ok(()), [TaskFindById(taskId)])
  }

  /** `UnblockTaskUseCaseImpl.execute`: a blocked task is unblocked and saved
      once; an unblocked one is left alone and nothing is written. */
  function UnblockTask(g: Repos, taskId: Long): (o: Outcome<()>)
    ensures |o.calls| >= 1 && o.calls[0] == TaskFindById(taskId)
    ensures o.result.Err? <==> g.taskFindById(taskId).None?
    ensures o.result.Err? ==> o.result.error == EntityNotFound(NotFoundWithIdMessage(taskId))
    ensures o.result.Err? || !g.taskFindById(taskId).value.blocked ==> NoWrites(o.calls)
    ensures o.result.Ok? && g.taskFindById(taskId).value.blocked ==>
      Writes(o.calls) == [TaskSave(g.taskFindById(taskId).value.(blocked := false))]
  {
    match FindTask(g, taskId)
    case Err(e) => Outcome(Err(e), [TaskFindById(taskId)])
    case Ok(t) =>
      if t.blocked then
        QueriesThenWrite([TaskFindById(taskId)], TaskSave(Unblock(t)));
        Outcome(Ok(()), [TaskFindById(taskId), TaskSave(Unblock(t))])
      else Outcome(Ok(()), [TaskFindById(taskId)])
  }

  // ---------------------------------------------------------------------
  // Delete
  // ---------------------------------------------------------------------

  /** `DeleteTaskUseCaseImpl.execute`: an existence check, then exactly one
      delete of that id; an absent task is never deleted. */
  function DeleteTask(g: Repos, id: Long): (o: Outcome<()>)
    ensures |o.calls| >= 1 && o.calls[0] == TaskExistsById(id)
    ensures o.result.Err? <==> !g.taskExistsById(id)
    ensures o.result.Err? ==> o.result.error == EntityNotFound(NotFoundWithIdMessage(id)) && NoWrites(o.calls)
    ensures o.result.Ok? ==> Writes(o.calls) == [TaskDelete(id)]
  {
    if !g.taskExistsById(id) then
      Outcome(Err(EntityNotFound(NotFoundWithIdMessage(id))), [TaskExistsById(id)])
    else
      QueriesThenWrite([TaskExistsById(id)], TaskDelete(id));
      Outcome(Ok(()), [TaskExistsById(id), TaskDelete(id)])
  }

  // ---------------------------------------------------------------------
  // Properties
  // ---------------------------------------------------------------------

  /** The same-column refusal wins over the blocked one: a blocked task sent
      to its own column gets the illegal-argument error, not the blocked
      error; sent elsewhere it gets the blocked error and stays put. */
  lemma MoveChecksColumnBeforeBlocked(g: Repos, taskId: Long, columnId: Long)
    requires g.taskFindById(taskId).Some? && g.taskFindById(taskId).value.blocked
    requires g.columnFindById(columnId).Some?
    ensures SameColumn(g.taskFindById(taskId).value.column, g.columnFindById(columnId).value) ==>
      MoveTask(g, taskId, columnId).result == Err(IllegalArgument(AlreadyInColumnMessage))
    ensures !SameColumn(g.taskFindById(taskId).value.column, g.columnFindById(columnId).value) ==>
      MoveTask(g, taskId, columnId).result == Err(BlockedTask(BlockedTaskMessage))
    ensures NoWrites(MoveTask(g, taskId, columnId).calls)
  {
  }

  /** An unknown task stops a move before the column is looked up. */
  lemma MoveUnknownTaskSkipsColumn(g: Repos, taskId: Long, columnId: Long)
    requires g.taskFindById(taskId).None?
    ensures forall i :: 0 <= i < |MoveTask(g, taskId, columnId).calls| ==>
      !OnColumnGateway(MoveTask(g, taskId, columnId).calls[i])
  {
  }

  /** The date check comes before the title check: a past due date is
      reported even when the title is taken, and the title is then never
      looked up. A due date of today passes the date check. */
  lemma DueDateCheckedBeforeTitle(g: Repos, input: CreateTaskInput, today: Date, now: Timestamp)
    requires ColumnBoardSaved(g, input.columnId) && g.columnFindById(input.columnId).Some?
    ensures IsBefore(input.dueDate, today) ==>
      CreateTask(g, input, today, now).result == Err(InvalidDueDate(InvalidDueDateMessage))
      && forall i :: 0 <= i < |CreateTask(g, input, today, now).calls| ==>
           !CreateTask(g, input, today, now).calls[i].TaskTitleInBoard?
    ensures input.dueDate == today && !g.taskTitleInBoard(input.title, g.columnFindById(input.columnId).value.board.id.value) ==>
      CreateTask(g, input, today, now).result.Ok?
  {
  }
}
