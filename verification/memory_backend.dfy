/** The use cases run against the in-memory repositories. `Answers` gives
    what the repositories answer in a given state, and `Commit` carries out
    the writes a use case made, in order. Together they show what a use case
    does to the stored boards, columns and tasks. */
module MemoryBackend {
  import opened Wrappers
  import opened JavaText
  import opened Domain
  import opened MemoryStore
  import MemoryBoards
  import MemoryColumns
  import MemoryTasks
  import opened Gateways
  import BoardUseCases
  import TaskUseCases

  datatype Stores = Stores(boards: MemoryBoards.Boards, columns: MemoryColumns.Columns, tasks: MemoryTasks.Tasks)

  /** Every entity sits under its own id, and every stored column and every
      stored task's column belongs to a saved board. */
  predicate Valid(st: Stores) {
    && MemoryBoards.Valid(st.boards)
    && MemoryColumns.Valid(st.columns)
    && MemoryTasks.Valid(st.tasks)
    && ColumnsOnSavedBoards(st.columns)
    && (forall k :: k in st.tasks.storage ==> st.tasks.storage[k].column.board.id.Some?)
  }

  /** What the in-memory repositories answer in state `st`. */
  function Answers(st: Stores): Repos {
    Repos(
      (b: Board) => MemoryBoards.Save(st.boards, b).board,
      (id: Long) => MemoryBoards.ExistsById(st.boards, id),
      (t: string) => MemoryBoards.ExistsByTitle(st.boards, t),
      (t: string, id: Long) => MemoryBoards.ExistsByTitleAndIdNot(st.boards, t, id),
      (id: Long) => MemoryBoards.FindById(st.boards, id),
      (id: Long) => MemoryColumns.FindById(st.columns, id),
      (id: Long) => Some(MemoryColumns.FindAllByBoardId(st.columns, id)),
      (t: Task) => MemoryTasks.Save(st.tasks, t).task,
      (id: Long) => MemoryTasks.FindById(st.tasks, id),
      (id: Long) => MemoryTasks.ExistsById(st.tasks, id),
      (t: string, b: Long) => MemoryTasks.ExistsByTitleInBoard(st.tasks, t, b),
      (t: string, b: Long, id: Long) => MemoryTasks.ExistsByTitleInBoardAndIdNot(st.tasks, t, b, id),
      (id: Long) => Some(MemoryTasks.FindAllByColumnId(st.tasks, id)))
  }

  /** One call's effect on the stores: writes change them, queries do not. */
  function Perform(st: Stores, c: Call): Stores {
    match c
    case BoardSave(b) => st.(boards := MemoryBoards.Save(st.boards, b).store)
    case BoardDelete(id) => st.(boards := MemoryBoards.DeleteById(st.boards, id))
    case ColumnSave(col) => st.(columns := MemoryColumns.Save(st.columns, col).store)
    case TaskSave(t) => st.(tasks := MemoryTasks.Save(st.tasks, t).store)
    case TaskDelete(id) => st.(tasks := MemoryTasks.DeleteById(st.tasks, id))
    case _ => st
  }

  /** The calls' effects, in order. */
  function Commit(st: Stores, calls: seq<Call>): Stores
    decreases |calls|
  {
    if |calls| == 0 then st else Commit(Perform(st, calls[0]), calls[1..])
  }

  lemma {:induction false} CommitConcat(st: Stores, a: seq<Call>, b: seq<Call>)
    ensures Commit(st, a + b) == Commit(Commit(st, a), b)
    decreases |a|
  {
    if |a| > 0 {
      assert (a + b)[1..] == a[1..] + b;
      CommitConcat(Perform(st, a[0]), a[1..], b);
    } else {
      assert a + b == b;
    }
  }

  /** Queries leave the stores as they are. */
  lemma {:induction false} CommitQueries(st: Stores, qs: seq<Call>)
    requires NoWrites(qs)
    ensures Commit(st, qs) == st
    decreases |qs|
  {
    if |qs| > 0 {
      assert !IsWrite(qs[0]);
      CommitQueries(st, qs[1..]);
    }
  }

  /** Queries followed by one write have that write's effect. */
  lemma QueriesThenOne(st: Stores, qs: seq<Call>, w: Call)
    requires NoWrites(qs)
    ensures Commit(st, qs + [w]) == Perform(st, w)
  {
    CommitConcat(st, qs, [w]);
    CommitQueries(st, qs);
    assert Commit(Perform(st, w), []) == Perform(st, w);
  }

  /** Only the writes among the calls change the stores. */
  lemma {:induction false} CommitOnlyWrites(st: Stores, calls: seq<Call>)
    ensures Commit(st, calls) == Commit(st, Writes(calls))
    decreases |calls|
  {
    if |calls| > 0 {
      CommitOnlyWrites(Perform(st, calls[0]), calls[1..]);
      CommitOnlyWrites(st, calls[1..]);
      if IsWrite(calls[0]) {
        assert Writes(calls) == [calls[0]] + Writes(calls[1..]);
        assert ([calls[0]] + Writes(calls[1..]))[1..] == Writes(calls[1..]);
      }
    }
  }

  /** A use case whose only write is `w` has `w`'s effect. */
  lemma OneWrite(st: Stores, calls: seq<Call>, w: Call)
    requires Writes(calls) == [w]
    ensures Commit(st, calls) == Perform(st, w)
  {
    CommitOnlyWrites(st, calls);
    assert Commit(Perform(st, w), []) == Perform(st, w);
  }

  /** A use case that wrote nothing left the stores as they were. */
  lemma NoWrite(st: Stores, calls: seq<Call>)
    requires NoWrites(calls)
    ensures Commit(st, calls) == st
  {
    CommitOnlyWrites(st, calls);
  }

  // ---------------------------------------------------------------------
  // Creating a board
  // ---------------------------------------------------------------------

  /** Every stored column belongs to a saved board. */
  predicate ColumnsOnSavedBoards(cs: MemoryColumns.Columns) {
    forall k :: k in cs.storage ==> cs.storage[k].board.id.Some?
  }

  /** The column store after saving one new column of `b` per type, in
      order. */
  function SaveColumns(cs: MemoryColumns.Columns, b: Board, types: seq<ColumnType>): MemoryColumns.Columns
    decreases |types|
  {
    if |types| == 0 then cs else SaveColumns(MemoryColumns.Save(cs, Column(None, b, types[0])).store, b, types[1..])
  }

  /** Committing the column saves of a board creation changes the column
      store alone, as `SaveColumns` says. */
  lemma {:induction false} CommitColumnSaves(st: Stores, b: Board, types: seq<ColumnType>)
    ensures Commit(st, BoardUseCases.ColumnSaves(b, types)) == st.(columns := SaveColumns(st.columns, b, types))
    decreases |types|
  {
    var calls := BoardUseCases.ColumnSaves(b, types);
    if |types| > 0 {
      assert calls == [ColumnSave(Column(None, b, types[0]))] + BoardUseCases.ColumnSaves(b, types[1..]);
      assert calls[1..] == BoardUseCases.ColumnSaves(b, types[1..]);
      CommitColumnSaves(Perform(st, calls[0]), b, types[1..]);
    } else {
      assert calls == [];
    }
  }

  /** One new column: it takes the counter's value; a store whose columns
      all belong to saved boards keeps that when the board is saved. */
  lemma ColumnSaveStep(cs: MemoryColumns.Columns, b: Board, t: ColumnType)
    requires MemoryColumns.Valid(cs) && cs.nextId < LongMax
    ensures var after := MemoryColumns.Save(cs, Column(None, b, t)).store;
      && MemoryColumns.Valid(after)
      && after.nextId == cs.nextId + 1
      && Get(after, cs.nextId) == Some(Column(Some(cs.nextId), b, t))
      && (forall k :: k != cs.nextId ==> Get(after, k) == Get(cs, k))
      && (b.id.Some? && ColumnsOnSavedBoards(cs) ==> ColumnsOnSavedBoards(after))
  {
    var after := MemoryColumns.Save(cs, Column(None, b, t)).store;
    if b.id.Some? && ColumnsOnSavedBoards(cs) {
      forall k | k in after.storage
        ensures after.storage[k].board.id.Some?
      {
        assert Get(after, k).Some?;
      }
    }
  }

  /** Column saves keep the store keyed, advance the counter once per save
      and keep every column on a saved board when the board is saved. */
  lemma {:induction false} SaveColumnsFrame(cs: MemoryColumns.Columns, b: Board, types: seq<ColumnType>)
    requires MemoryColumns.Valid(cs) && cs.nextId + |types| <= LongMax
    ensures var after := SaveColumns(cs, b, types);
      && MemoryColumns.Valid(after)
      && after.nextId == cs.nextId + |types|
      && (b.id.Some? && ColumnsOnSavedBoards(cs) ==> ColumnsOnSavedBoards(after))
    decreases |types|
  {
    if |types| > 0 {
      ColumnSaveStep(cs, b, types[0]);
      SaveColumnsFrame(MemoryColumns.Save(cs, Column(None, b, types[0])).store, b, types[1..]);
    }
  }

  /** The i-th new column sits under the counter's value plus i. */
  lemma {:induction false} NewColumnsStored(cs: MemoryColumns.Columns, b: Board, types: seq<ColumnType>)
    requires MemoryColumns.Valid(cs) && cs.nextId + |types| <= LongMax
    ensures forall i :: 0 <= i < |types| ==>
      Get(SaveColumns(cs, b, types), cs.nextId + i) == Some(Column(Some(cs.nextId + i), b, types[i]))
    decreases |types|
  {
    if |types| > 0 {
      var cs1 := MemoryColumns.Save(cs, Column(None, b, types[0])).store;
      ColumnSaveStep(cs, b, types[0]);
      NewColumnsStored(cs1, b, types[1..]);
      OtherColumnsKept(cs1, b, types[1..]);
      forall i | 0 <= i < |types|
        ensures Get(SaveColumns(cs, b, types), cs.nextId + i) == Some(Column(Some(cs.nextId + i), b, types[i]))
      {
        if i > 0 {
          assert types[1..][i - 1] == types[i];
          assert cs.nextId + i == cs1.nextId + (i - 1);
        }
      }
    }
  }

  /** Keys outside the new ids keep what they held. */
  lemma {:induction false} OtherColumnsKept(cs: MemoryColumns.Columns, b: Board, types: seq<ColumnType>)
    requires MemoryColumns.Valid(cs) && cs.nextId + |types| <= LongMax
    ensures forall k: Long :: (k < cs.nextId || k >= cs.nextId + |types|) ==>
      Get(SaveColumns(cs, b, types), k) == Get(cs, k)
    decreases |types|
  {
    if |types| > 0 {
      var cs1 := MemoryColumns.Save(cs, Column(None, b, types[0])).store;
      ColumnSaveStep(cs, b, types[0]);
      OtherColumnsKept(cs1, b, types[1..]);
      forall k: Long | k < cs.nextId || k >= cs.nextId + |types|
        ensures Get(SaveColumns(cs, b, types), k) == Get(cs, k)
      {
        assert k < cs1.nextId || k >= cs1.nextId + |types[1..]|;
      }
    }
  }

  /** The state after creating board `b` in state `st`: the board is stored
      under the board counter's value and its columns, one per type in
      declaration order, under the next column ids; tasks are untouched and
      every entity still sits under its own id (so `findById` finds each of
      them: `FindByIdIsLookup`). */
  predicate BoardCreated(st: Stores, after: Stores, b: Board)
    requires st.columns.nextId + |ColumnTypeValues| <= LongMax
  {
    Valid(after) && BoardStored(st, after, b) && ColumnsStored(st, after, b)
  }

  /** The board part of `BoardCreated`; tasks are untouched. */
  predicate BoardStored(st: Stores, after: Stores, b: Board) {
    && b.id == Some(st.boards.nextId)
    && Get(after.boards, st.boards.nextId) == Some(b)
    && (forall k :: k != st.boards.nextId ==> Get(after.boards, k) == Get(st.boards, k))
    && after.tasks == st.tasks
  }

  /** The column part of `BoardCreated`. */
  predicate ColumnsStored(st: Stores, after: Stores, b: Board)
    requires st.columns.nextId + |ColumnTypeValues| <= LongMax
  {
    forall i :: 0 <= i < |ColumnTypeValues| ==>
      Get(after.columns, st.columns.nextId + i) == Some(Column(Some(st.columns.nextId + i), b, ColumnTypeValues[i]))
  }

  /** Saving a new board and then its columns, one per type. */
  lemma BoardAndColumnsSaved(st: Stores, board: Board, calls: seq<Call>)
    requires Valid(st) && st.columns.nextId + |ColumnTypeValues| <= LongMax && board.id.None?
    requires calls == [BoardExistsByTitle(board.title), BoardSave(board)]
                      + BoardUseCases.ColumnSaves(MemoryBoards.Save(st.boards, board).board, ColumnTypeValues)
    ensures BoardCreated(st, Commit(st, calls), board.(id := Some(st.boards.nextId)))
  {
    CreationCommits(st, board, calls);
    ColumnsAfterBoard(st, board);
  }

  /** The calls of a board creation save the board, then its columns. */
  lemma CreationCommits(st: Stores, board: Board, calls: seq<Call>)
    requires board.id.None?
    requires calls == [BoardExistsByTitle(board.title), BoardSave(board)]
                      + BoardUseCases.ColumnSaves(MemoryBoards.Save(st.boards, board).board, ColumnTypeValues)
    ensures var saved := MemoryBoards.Save(st.boards, board);
      && saved.board == board.(id := Some(st.boards.nextId))
      && Commit(st, calls) == Stores(saved.store, SaveColumns(st.columns, saved.board, ColumnTypeValues), st.tasks)
  {
    var saved := MemoryBoards.Save(st.boards, board);
    var head := [BoardExistsByTitle(board.title), BoardSave(board)];
    var cols := BoardUseCases.ColumnSaves(saved.board, ColumnTypeValues);
    CommitConcat(st, head, cols);
    CreationHead(st, board);
    CommitColumnSaves(st.(boards := saved.store), saved.board, ColumnTypeValues);
  }

  /** The title check and the board save. */
  lemma CreationHead(st: Stores, board: Board)
    ensures Commit(st, [BoardExistsByTitle(board.title), BoardSave(board)])
            == st.(boards := MemoryBoards.Save(st.boards, board).store)
  {
    QueriesThenOne(st, [BoardExistsByTitle(board.title)], BoardSave(board));
    assert [BoardExistsByTitle(board.title)] + [BoardSave(board)] == [BoardExistsByTitle(board.title), BoardSave(board)];
  }

  /** The column saves that follow a board's save. */
  lemma ColumnsAfterBoard(st: Stores, board: Board)
    requires Valid(st) && st.columns.nextId + |ColumnTypeValues| <= LongMax && board.id.None?
    ensures var saved := MemoryBoards.Save(st.boards, board);
      BoardCreated(st, Stores(saved.store, SaveColumns(st.columns, saved.board, ColumnTypeValues), st.tasks), saved.board)
  {
    CreationKeepsValid(st, board);
    CreationStoresBoard(st, board);
    var saved := MemoryBoards.Save(st.boards, board);
    CreationStoresColumns(st, Stores(saved.store, SaveColumns(st.columns, saved.board, ColumnTypeValues), st.tasks), saved.board);
  }

  lemma CreationKeepsValid(st: Stores, board: Board)
    requires Valid(st) && st.columns.nextId + |ColumnTypeValues| <= LongMax && board.id.None?
    ensures var saved := MemoryBoards.Save(st.boards, board);
      Valid(Stores(saved.store, SaveColumns(st.columns, saved.board, ColumnTypeValues), st.tasks))
  {
    SaveColumnsFrame(st.columns, MemoryBoards.Save(st.boards, board).board, ColumnTypeValues);
  }

  lemma CreationStoresBoard(st: Stores, board: Board)
    requires board.id.None?
    ensures var saved := MemoryBoards.Save(st.boards, board);
      forall cs :: BoardStored(st, Stores(saved.store, cs, st.tasks), saved.board)
  {
  }

  lemma CreationStoresColumns(st: Stores, after: Stores, b: Board)
    requires MemoryColumns.Valid(st.columns) && st.columns.nextId + |ColumnTypeValues| <= LongMax
    requires after.columns == SaveColumns(st.columns, b, ColumnTypeValues)
    ensures ColumnsStored(st, after, b)
  {
    NewColumnsStored(st.columns, b, ColumnTypeValues);
  }

  /** Creating a board in memory succeeds exactly when no board has the title
      (ignoring case). The new board takes the board counter's value and its
      four columns the next four column ids, in the order TO_DO, IN_PROGRESS,
      DONE, PAUSED; no task changes. Afterwards the title is taken, so the same
      request a second time fails. */
  lemma CreateBoardOnMemory(st: Stores, title: string, now: Timestamp, later: Timestamp)
    requires Valid(st) && st.columns.nextId + |ColumnTypeValues| <= LongMax
    ensures var o := BoardUseCases.CreateBoard(Answers(st), title, now);
      && (o.result.Ok? <==> !MemoryBoards.ExistsByTitle(st.boards, title))
      && (o.result.Ok? ==>
            var after := Commit(st, o.calls);
            && o.result.value == NewBoard(Some(st.boards.nextId), title, now)
            && BoardCreated(st, after, o.result.value)
            && BoardUseCases.CreateBoard(Answers(after), title, later).result
               == Err(DuplicateTitle(DuplicateTitleMessage(title))))
  {
    var o := BoardUseCases.CreateBoard(Answers(st), title, now);
    if o.result.Ok? {
      var board := NewBoard(None, title, now);
      BoardAndColumnsSaved(st, board, o.calls);
      MemoryBoards.StoredTitleTaken(Commit(st, o.calls).boards, st.boards.nextId);
    }
  }

  /** No two stored boards have titles that agree ignoring case. */
  predicate BoardTitlesUnique(s: MemoryBoards.Boards) {
    forall k1, k2 ::
      (k1 in s.storage && k2 in s.storage && EqualsIgnoreCase(s.storage[k1].title, s.storage[k2].title)) ==> k1 == k2
  }

  /** The same, with titles compared through their lower-case forms. */
  lemma UniqueByLowerCase(s: MemoryBoards.Boards, k1: Long, k2: Long)
    requires BoardTitlesUnique(s)
    ensures k1 in s.storage && k2 in s.storage && LowerCase(s.storage[k1].title) == LowerCase(s.storage[k2].title) ==> k1 == k2
  {
    if k1 in s.storage && k2 in s.storage {
      EqualsIgnoreCaseIsLowerEquality(s.storage[k1].title, s.storage[k2].title);
    }
  }

  /** Storing a board under `k` keeps the titles unique when no board under
      another key has its title. */
  lemma StoringFreeTitleKeepsUnique(before: MemoryBoards.Boards, after: MemoryBoards.Boards, key: Long)
    requires BoardTitlesUnique(before)
    requires key in after.storage
    requires forall k :: k in before.storage && k != key ==>
      !EqualsIgnoreCase(before.storage[k].title, after.storage[key].title)
    requires forall k :: k != key ==> Get(after, k) == Get(before, k)
    ensures BoardTitlesUnique(after)
  {
    var title := after.storage[key].title;
    forall k1, k2 | k1 in after.storage && k2 in after.storage
        && EqualsIgnoreCase(after.storage[k1].title, after.storage[k2].title)
      ensures k1 == k2
    {
      assert Get(after, k1) == Some(after.storage[k1]) && Get(after, k2) == Some(after.storage[k2]);
      EqualsIgnoreCaseIsLowerEquality(after.storage[k1].title, after.storage[k2].title);
      OtherTitleDiffers(before, after, key, k1);
      OtherTitleDiffers(before, after, key, k2);
      UniqueByLowerCase(before, k1, k2);
    }
  }

  lemma OtherTitleDiffers(before: MemoryBoards.Boards, after: MemoryBoards.Boards, key: Long, k: Long)
    requires key in after.storage
    requires forall k :: k in before.storage && k != key ==>
      !EqualsIgnoreCase(before.storage[k].title, after.storage[key].title)
    ensures k in before.storage && k != key ==> LowerCase(before.storage[k].title) != LowerCase(after.storage[key].title)
  {
    if k in before.storage && k != key {
      EqualsIgnoreCaseIsLowerEquality(before.storage[k].title, after.storage[key].title);
    }
  }

  /** Creating a board keeps the board titles unique. */
  lemma CreateBoardKeepsTitlesUnique(st: Stores, title: string, now: Timestamp)
    requires Valid(st) && st.columns.nextId + |ColumnTypeValues| <= LongMax
    requires BoardTitlesUnique(st.boards)
    ensures var o := BoardUseCases.CreateBoard(Answers(st), title, now);
      o.result.Ok? ==> BoardTitlesUnique(Commit(st, o.calls).boards)
  {
    var o := BoardUseCases.CreateBoard(Answers(st), title, now);
    if o.result.Ok? {
      CreateBoardOnMemory(st, title, now, now);
      var after := Commit(st, o.calls).boards;
      assert Get(after, st.boards.nextId).Some?;
      StoringFreeTitleKeepsUnique(st.boards, after, st.boards.nextId);
    }
  }

  // ---------------------------------------------------------------------
  // Updating and deleting a board
  // ---------------------------------------------------------------------

  /** Renaming a board in memory: an unknown id fails as not found, a title
      another board has (ignoring case) fails as a duplicate, and otherwise
      exactly the title of that board changes. A failed update changes
      nothing. */
  lemma UpdateBoardOnMemory(st: Stores, id: Long, newTitle: string)
    requires Valid(st)
    ensures var o := BoardUseCases.UpdateBoard(Answers(st), id, newTitle);
      && (o.result.Ok? <==> id in st.boards.storage && !MemoryBoards.ExistsByTitleAndIdNot(st.boards, newTitle, id))
      && (id !in st.boards.storage ==> o.result == Err(EntityNotFound(NotFoundByIdMessage(id))))
      && (o.result.Err? ==> Commit(st, o.calls) == st)
      && (o.result.Ok? ==>
            var renamed := st.boards.storage[id].(title := newTitle);
            && o.result.value == renamed
            && Commit(st, o.calls) == st.(boards := Store(st.boards.storage[id := renamed], st.boards.nextId))
            && Valid(Commit(st, o.calls)))
  {
    var o := BoardUseCases.UpdateBoard(Answers(st), id, newTitle);
    UpdateBoardDecision(st, id, newTitle);
    if o.result.Err? {
      NoWrite(st, o.calls);
    } else {
      RenamedBoardReturned(st, id, newTitle);
      BoardRenamed(st, id, newTitle, o.calls);
    }
  }

  /** When the rename succeeds on the in-memory stores. */
  lemma UpdateBoardDecision(st: Stores, id: Long, newTitle: string)
    requires Valid(st)
    ensures var r := BoardUseCases.UpdateBoard(Answers(st), id, newTitle).result;
      && (r.Ok? <==> id in st.boards.storage && !MemoryBoards.ExistsByTitleAndIdNot(st.boards, newTitle, id))
      && (id !in st.boards.storage ==> r == Err(EntityNotFound(NotFoundByIdMessage(id))))
  {
    var g := Answers(st);
    assert g.boardFindById(id) == Get(st.boards, id) by {
      MemoryBoards.FindByIdIsLookup(st.boards, id);
    }
    assert g.boardExistsByTitleAndIdNot(newTitle, id) == MemoryBoards.ExistsByTitleAndIdNot(st.boards, newTitle, id);
  }

  /** A successful rename returns the stored board with the new title. */
  lemma RenamedBoardReturned(st: Stores, id: Long, newTitle: string)
    requires Valid(st)
    ensures var o := BoardUseCases.UpdateBoard(Answers(st), id, newTitle);
      o.result.Ok? ==>
        && id in st.boards.storage
        && o.result.value == st.boards.storage[id].(title := newTitle)
        && Writes(o.calls) == [BoardSave(st.boards.storage[id].(title := newTitle))]
  {
    MemoryBoards.FindByIdIsLookup(st.boards, id);
    if id in st.boards.storage {
      var renamed := st.boards.storage[id].(title := newTitle);
      assert st.boards.storage[id].id == Some(id);
      assert Answers(st).boardSave(renamed) == MemoryBoards.Save(st.boards, renamed).board == renamed;
    }
  }

  /** The single save of a rename replaces the board under its id. */
  lemma BoardRenamed(st: Stores, id: Long, newTitle: string, calls: seq<Call>)
    requires Valid(st) && id in st.boards.storage
    requires Writes(calls) == [BoardSave(st.boards.storage[id].(title := newTitle))]
    ensures var renamed := st.boards.storage[id].(title := newTitle);
      && Commit(st, calls) == st.(boards := Store(st.boards.storage[id := renamed], st.boards.nextId))
      && Valid(Commit(st, calls))
  {
    assert st.boards.storage[id].id == Some(id);
    OneWrite(st, calls, BoardSave(st.boards.storage[id].(title := newTitle)));
  }

  /** Every successful rename keeps the board titles unique. */
  lemma UpdateBoardKeepsTitlesUnique(st: Stores, id: Long, newTitle: string)
    requires Valid(st) && BoardTitlesUnique(st.boards)
    ensures var o := BoardUseCases.UpdateBoard(Answers(st), id, newTitle);
      o.result.Ok? ==> BoardTitlesUnique(Commit(st, o.calls).boards)
  {
    var o := BoardUseCases.UpdateBoard(Answers(st), id, newTitle);
    UpdateBoardOnMemory(st, id, newTitle);
    if o.result.Ok? {
      RenameKeepsTitlesUnique(st.boards, id, newTitle);
    }
  }

  lemma RenameKeepsTitlesUnique(s: MemoryBoards.Boards, id: Long, newTitle: string)
    requires MemoryBoards.Valid(s) && BoardTitlesUnique(s)
    requires id in s.storage && !MemoryBoards.ExistsByTitleAndIdNot(s, newTitle, id)
    ensures BoardTitlesUnique(Store(s.storage[id := s.storage[id].(title := newTitle)], s.nextId))
  {
    var after := Store(s.storage[id := s.storage[id].(title := newTitle)], s.nextId);
    forall k | k in s.storage && k != id
      ensures !EqualsIgnoreCase(s.storage[k].title, after.storage[id].title)
    {
      assert s.storage[k].id == Some(k);
    }
    StoringFreeTitleKeepsUnique(s, after, id);
  }

  /** With unique titles, renaming a board to its own title succeeds and
      changes nothing. */
  lemma RenameToOwnTitleChangesNothing(st: Stores, id: Long)
    requires Valid(st) && BoardTitlesUnique(st.boards) && id in st.boards.storage
    ensures var o := BoardUseCases.UpdateBoard(Answers(st), id, st.boards.storage[id].title);
      o.result == Ok(st.boards.storage[id]) && Commit(st, o.calls) == st
  {
    var own := st.boards.storage[id].title;
    UpdateBoardOnMemory(st, id, own);
    OwnTitleFree(st.boards, id);
    SameTitleSameStore(st.boards, id);
  }

  lemma SameTitleSameStore(s: MemoryBoards.Boards, id: Long)
    requires id in s.storage
    ensures Store(s.storage[id := s.storage[id].(title := s.storage[id].title)], s.nextId) == s
  {
    var b := s.storage[id];
    assert b.(title := b.title) == b;
    assert s.storage[id := b] == s.storage;
  }

  /** With unique titles, no other board has a board's own title. */
  lemma OwnTitleFree(s: MemoryBoards.Boards, id: Long)
    requires MemoryBoards.Valid(s) && BoardTitlesUnique(s) && id in s.storage
    ensures !MemoryBoards.ExistsByTitleAndIdNot(s, s.storage[id].title, id)
  {
    var own := s.storage[id].title;
    forall k | k in s.storage && EqualsIgnoreCase(s.storage[k].title, own)
      ensures s.storage[k].id == Some(id)
    {
      EqualsIgnoreCaseIsLowerEquality(own, own);
      assert EqualsIgnoreCase(s.storage[id].title, own);
    }
  }

  /** Deleting a board in memory succeeds exactly when it is stored, and then
      removes that board alone: the in-memory repositories do not cascade, so
      the board's columns and tasks stay. A failed delete changes nothing. */
  lemma DeleteBoardOnMemory(st: Stores, id: Long)
    requires Valid(st)
    ensures var o := BoardUseCases.DeleteBoard(Answers(st), id);
      && (o.result.Ok? <==> id in st.boards.storage)
      && (o.result.Err? ==> o.result.error == EntityNotFound(BoardUseCases.BoardMissingMessage(id)) && Commit(st, o.calls) == st)
      && (o.result.Ok? ==>
            && Commit(st, o.calls) == st.(boards := Store(st.boards.storage - {id}, st.boards.nextId))
            && Valid(Commit(st, o.calls)))
  {
    var o := BoardUseCases.DeleteBoard(Answers(st), id);
    MemoryBoards.FindByIdIsLookup(st.boards, id);
    if o.result.Err? {
      NoWrite(st, o.calls);
    } else {
      BoardDeleted(st, id, o.calls);
    }
  }

  lemma BoardDeleted(st: Stores, id: Long, calls: seq<Call>)
    requires Valid(st) && Writes(calls) == [BoardDelete(id)]
    ensures Commit(st, calls) == st.(boards := Store(st.boards.storage - {id}, st.boards.nextId))
    ensures Valid(Commit(st, calls))
  {
    OneWrite(st, calls, BoardDelete(id));
  }

  // ---------------------------------------------------------------------
  // Tasks
  // ---------------------------------------------------------------------

  /** Some stored task of the board has the title, ignoring case. */
  predicate TitleOnBoard(ts: MemoryTasks.Tasks, title: string, boardId: Long) {
    exists k :: k in ts.storage && ts.storage[k].column.board.id == Some(boardId)
                && EqualsIgnoreCase(ts.storage[k].title, title)
  }

  /** The same, leaving out the task `id`. */
  predicate TitleOnBoardBesides(ts: MemoryTasks.Tasks, title: string, boardId: Long, id: Long) {
    exists k :: k in ts.storage && ts.storage[k].column.board.id == Some(boardId)
                && EqualsIgnoreCase(ts.storage[k].title, title) && ts.storage[k].id != Some(id)
  }

  /** In a valid state the column and task lookups are map lookups, and what
      they find belongs to a saved board. */
  lemma Lookups(st: Stores, columnId: Long, taskId: Long)
    requires Valid(st)
    ensures Answers(st).columnFindById(columnId) == Get(st.columns, columnId)
    ensures Answers(st).taskFindById(taskId) == Get(st.tasks, taskId)
    ensures Answers(st).taskExistsById(taskId) <==> taskId in st.tasks.storage
    ensures TaskUseCases.ColumnBoardSaved(Answers(st), columnId)
    ensures TaskUseCases.TaskBoardSaved(Answers(st), taskId)
  {
    MemoryColumns.FindByIdIsLookup(st.columns, columnId);
    MemoryTasks.FindByIdIsLookup(st.tasks, taskId);
  }

  /** A new task's single save: it takes the task counter's value. */
  lemma TaskAdded(st: Stores, t: Task, calls: seq<Call>)
    requires Valid(st) && t.id.None? && t.column.board.id.Some? && Writes(calls) == [TaskSave(t)]
    ensures Commit(st, calls)
            == st.(tasks := Store(st.tasks.storage[st.tasks.nextId := t.(id := Some(st.tasks.nextId))], LongSucc(st.tasks.nextId)))
    ensures Valid(Commit(st, calls))
  {
    OneWrite(st, calls, TaskSave(t));
  }

  /** A stored task's single save: it replaces the task under its id. */
  lemma TaskReplaced(st: Stores, t: Task, calls: seq<Call>)
    requires Valid(st) && t.id.Some? && t.column.board.id.Some? && Writes(calls) == [TaskSave(t)]
    ensures Commit(st, calls) == st.(tasks := Store(st.tasks.storage[t.id.value := t], st.tasks.nextId))
    ensures Valid(Commit(st, calls))
  {
    OneWrite(st, calls, TaskSave(t));
  }

  /** Creating a task in memory succeeds exactly when the column is stored,
      the due date is not before today and no task of the column's board has
      the title (ignoring case); the task then takes the task counter's value
      and nothing else changes. A failed creation changes nothing. */
  lemma CreateTaskOnMemory(st: Stores, input: TaskUseCases.CreateTaskInput, today: Date, now: Timestamp)
    requires Valid(st)
    ensures TaskUseCases.ColumnBoardSaved(Answers(st), input.columnId)
    ensures var o := TaskUseCases.CreateTask(Answers(st), input, today, now);
      && (o.result.Ok? <==>
            && input.columnId in st.columns.storage
            && !IsBefore(input.dueDate, today)
            && !TitleOnBoard(st.tasks, input.title, st.columns.storage[input.columnId].board.id.value))
      && (o.result.Err? ==> Commit(st, o.calls) == st)
      && (o.result.Ok? ==>
            var t := NewTask(Some(st.tasks.nextId), input.title, input.description, input.dueDate,
                             st.columns.storage[input.columnId], now);
            && o.result.value == t
            && Commit(st, o.calls)
               == st.(tasks := Store(st.tasks.storage[st.tasks.nextId := t], LongSucc(st.tasks.nextId)))
            && Valid(Commit(st, o.calls)))
  {
    CreateTaskDecision(st, input, today, now);
    var o := TaskUseCases.CreateTask(Answers(st), input, today, now);
    if o.result.Err? {
      NoWrite(st, o.calls);
    } else {
      CreatedTaskReturned(st, input, today, now);
      var column := st.columns.storage[input.columnId];
      TaskAdded(st, NewTask(None, input.title, input.description, input.dueDate, column, now), o.calls);
    }
  }

  /** When the task creation succeeds on the in-memory stores. */
  lemma CreateTaskDecision(st: Stores, input: TaskUseCases.CreateTaskInput, today: Date, now: Timestamp)
    requires Valid(st)
    ensures TaskUseCases.ColumnBoardSaved(Answers(st), input.columnId)
    ensures TaskUseCases.CreateTask(Answers(st), input, today, now).result.Ok? <==>
            && input.columnId in st.columns.storage
            && !IsBefore(input.dueDate, today)
            && !TitleOnBoard(st.tasks, input.title, st.columns.storage[input.columnId].board.id.value)
  {
    Lookups(st, input.columnId, input.columnId);
    if input.columnId in st.columns.storage && !IsBefore(input.dueDate, today) {
      CreateTaskTitleCheck(st, input, today, now);
    }
  }

  /** Past the lookup and the date check, the creation turns on the title. */
  lemma CreateTaskTitleCheck(st: Stores, input: TaskUseCases.CreateTaskInput, today: Date, now: Timestamp)
    requires Valid(st) && input.columnId in st.columns.storage && !IsBefore(input.dueDate, today)
    ensures TaskUseCases.ColumnBoardSaved(Answers(st), input.columnId)
    ensures TaskUseCases.CreateTask(Answers(st), input, today, now).result.Ok? <==>
            !TitleOnBoard(st.tasks, input.title, st.columns.storage[input.columnId].board.id.value)
  {
    var g := Answers(st);
    var c := st.columns.storage[input.columnId];
    assert g.columnFindById(input.columnId) == Some(c) && c.board.id.Some? by {
      Lookups(st, input.columnId, input.columnId);
    }
    var boardId := c.board.id.value;
    assert g.taskTitleInBoard(input.title, boardId) <==> TitleOnBoard(st.tasks, input.title, boardId) by {
      MemoryTasks.TitleChecksScopedToBoard(st.tasks, input.title, boardId, input.columnId);
    }
    TaskUseCases.CreateTurnsOnTitle(g, input, today, now, c);
  }

  /** A successful creation returns the new task under the counter's value. */
  lemma CreatedTaskReturned(st: Stores, input: TaskUseCases.CreateTaskInput, today: Date, now: Timestamp)
    requires Valid(st)
    ensures TaskUseCases.ColumnBoardSaved(Answers(st), input.columnId)
    ensures var o := TaskUseCases.CreateTask(Answers(st), input, today, now);
      o.result.Ok? ==>
        && input.columnId in st.columns.storage
        && o.result.value == NewTask(Some(st.tasks.nextId), input.title, input.description, input.dueDate,
                                     st.columns.storage[input.columnId], now)
  {
    Lookups(st, input.columnId, input.columnId);
    if input.columnId in st.columns.storage {
      var column := st.columns.storage[input.columnId];
      var task := NewTask(None, input.title, input.description, input.dueDate, column, now);
      assert Answers(st).columnFindById(input.columnId) == Some(column);
      assert Answers(st).taskSave(task) == MemoryTasks.Save(st.tasks, task).task
             == NewTask(Some(st.tasks.nextId), input.title, input.description, input.dueDate, column, now);
    }
  }

  /** After a task is created, the same request fails: its title is now
      taken on the board. */
  lemma CreateTaskTwiceFails(st: Stores, input: TaskUseCases.CreateTaskInput, today: Date, now: Timestamp, later: Timestamp)
    requires Valid(st)
    ensures TaskUseCases.ColumnBoardSaved(Answers(st), input.columnId)
    ensures var o := TaskUseCases.CreateTask(Answers(st), input, today, now);
      o.result.Ok? ==>
        && TaskUseCases.ColumnBoardSaved(Answers(Commit(st, o.calls)), input.columnId)
        && TaskUseCases.CreateTask(Answers(Commit(st, o.calls)), input, today, later).result
           == Err(DuplicateTitle(DuplicateTitleMessage(input.title)))
  {
    CreateTaskOnMemory(st, input, today, now);
    var o := TaskUseCases.CreateTask(Answers(st), input, today, now);
    if o.result.Ok? {
      var after := Commit(st, o.calls);
      Lookups(after, input.columnId, input.columnId);
      var boardId := st.columns.storage[input.columnId].board.id.value;
      assert after.tasks.storage[st.tasks.nextId] == o.result.value;
      EqualsIgnoreCaseIsLowerEquality(input.title, input.title);
      assert TitleOnBoard(after.tasks, input.title, boardId);
      MemoryTasks.TitleChecksScopedToBoard(after.tasks, input.title, boardId, input.columnId);
    }
  }

  /** Updating a task in memory succeeds exactly when the task is stored,
      the due date is not before today and no other task of its board has
      the title (ignoring case); then only its title, description and due
      date change. A failed update changes nothing. */
  lemma UpdateTaskOnMemory(st: Stores, input: TaskUseCases.UpdateTaskInput, today: Date)
    requires Valid(st)
    ensures TaskUseCases.TaskBoardSaved(Answers(st), input.id)
    ensures var o := TaskUseCases.UpdateTask(Answers(st), input, today);
      && (o.result.Ok? <==>
            && input.id in st.tasks.storage
            && !IsBefore(input.dueDate, today)
            && !TitleOnBoardBesides(st.tasks, input.title, st.tasks.storage[input.id].column.board.id.value, input.id))
      && (o.result.Err? ==> Commit(st, o.calls) == st)
      && (o.result.Ok? ==>
            var updated := st.tasks.storage[input.id].(title := input.title, description := input.description,
                                                       dueDate := input.dueDate);
            && o.result.value == updated
            && Commit(st, o.calls) == st.(tasks := Store(st.tasks.storage[input.id := updated], st.tasks.nextId))
            && Valid(Commit(st, o.calls)))
  {
    UpdateTaskDecision(st, input, today);
    var o := TaskUseCases.UpdateTask(Answers(st), input, today);
    if o.result.Err? {
      NoWrite(st, o.calls);
    } else {
      UpdatedTaskReturned(st, input, today);
      TaskUpdated(st, input, o.calls);
    }
  }

  /** A successful update returns the stored task with the new fields. */
  lemma UpdatedTaskReturned(st: Stores, input: TaskUseCases.UpdateTaskInput, today: Date)
    requires Valid(st)
    ensures TaskUseCases.TaskBoardSaved(Answers(st), input.id)
    ensures var o := TaskUseCases.UpdateTask(Answers(st), input, today);
      o.result.Ok? ==>
        && input.id in st.tasks.storage
        && o.result.value == st.tasks.storage[input.id].(title := input.title, description := input.description,
                                                         dueDate := input.dueDate)
  {
    Lookups(st, input.id, input.id);
    if input.id in st.tasks.storage {
      var existing := st.tasks.storage[input.id];
      assert existing.id == Some(input.id);
      var updated := existing.(title := input.title, description := input.description, dueDate := input.dueDate);
      assert Answers(st).taskFindById(input.id) == Some(existing);
      assert Answers(st).taskSave(updated) == MemoryTasks.Save(st.tasks, updated).task == updated;
    }
  }

  /** When the task update succeeds on the in-memory stores. */
  lemma UpdateTaskDecision(st: Stores, input: TaskUseCases.UpdateTaskInput, today: Date)
    requires Valid(st)
    ensures TaskUseCases.TaskBoardSaved(Answers(st), input.id)
    ensures Answers(st).taskFindById(input.id) == Get(st.tasks, input.id)
    ensures TaskUseCases.UpdateTask(Answers(st), input, today).result.Ok? <==>
            && input.id in st.tasks.storage
            && !IsBefore(input.dueDate, today)
            && !TitleOnBoardBesides(st.tasks, input.title, st.tasks.storage[input.id].column.board.id.value, input.id)
  {
    Lookups(st, input.id, input.id);
    if input.id in st.tasks.storage && !IsBefore(input.dueDate, today) {
      UpdateTaskTitleCheck(st, input, today);
    }
  }

  /** Past the lookup and the date check, the update turns on the title. */
  lemma UpdateTaskTitleCheck(st: Stores, input: TaskUseCases.UpdateTaskInput, today: Date)
    requires Valid(st) && input.id in st.tasks.storage && !IsBefore(input.dueDate, today)
    ensures TaskUseCases.TaskBoardSaved(Answers(st), input.id)
    ensures TaskUseCases.UpdateTask(Answers(st), input, today).result.Ok? <==>
            !TitleOnBoardBesides(st.tasks, input.title, st.tasks.storage[input.id].column.board.id.value, input.id)
  {
    var g := Answers(st);
    var t := st.tasks.storage[input.id];
    assert g.taskFindById(input.id) == Some(t) && t.column.board.id.Some? by {
      Lookups(st, input.id, input.id);
    }
    var boardId := t.column.board.id.value;
    assert g.taskTitleInBoardAndIdNot(input.title, boardId, input.id)
           <==> TitleOnBoardBesides(st.tasks, input.title, boardId, input.id) by {
      MemoryTasks.TitleChecksScopedToBoard(st.tasks, input.title, boardId, input.id);
    }
    TaskUseCases.UpdateTurnsOnTitle(g, input, today, t);
  }

  /** The single save of a task update replaces the stored task under its id. */
  lemma TaskUpdated(st: Stores, input: TaskUseCases.UpdateTaskInput, calls: seq<Call>)
    requires Valid(st) && input.id in st.tasks.storage
    requires Writes(calls) == [TaskSave(st.tasks.storage[input.id].(title := input.title, description := input.description,
                                                                   dueDate := input.dueDate))]
    ensures var updated := st.tasks.storage[input.id].(title := input.title, description := input.description,
                                                       dueDate := input.dueDate);
      && Commit(st, calls) == st.(tasks := Store(st.tasks.storage[input.id := updated], st.tasks.nextId))
      && Valid(Commit(st, calls))
  {
    var existing := st.tasks.storage[input.id];
    assert existing.id == Some(input.id);
    TaskReplaced(st, existing.(title := input.title, description := input.description, dueDate := input.dueDate), calls);
  }

  /** Moving a task in memory succeeds exactly when the task and the column
      are stored, the task is not already in that column and is not blocked;
      then only the task's column changes. A failed move changes nothing. */
  lemma MoveTaskOnMemory(st: Stores, taskId: Long, columnId: Long)
    requires Valid(st)
    ensures var o := TaskUseCases.MoveTask(Answers(st), taskId, columnId);
      && (o.result.Ok? <==>
            && taskId in st.tasks.storage && columnId in st.columns.storage
            && st.tasks.storage[taskId].column.id != Some(columnId)
            && !st.tasks.storage[taskId].blocked)
      && (o.result.Err? ==> Commit(st, o.calls) == st)
      && (o.result.Ok? ==>
            var moved := st.tasks.storage[taskId].(column := st.columns.storage[columnId]);
            && Commit(st, o.calls) == st.(tasks := Store(st.tasks.storage[taskId := moved], st.tasks.nextId))
            && Valid(Commit(st, o.calls)))
  {
    Lookups(st, columnId, taskId);
    var o := TaskUseCases.MoveTask(Answers(st), taskId, columnId);
    if o.result.Err? {
      NoWrite(st, o.calls);
    } else {
      var moved := st.tasks.storage[taskId].(column := st.columns.storage[columnId]);
      TaskReplaced(st, moved, o.calls);
    }
  }

  /** Blocking in memory: an unknown task fails, a blocked one stays as it
      is, an unblocked one becomes blocked and nothing else changes. */
  lemma BlockTaskOnMemory(st: Stores, taskId: Long)
    requires Valid(st)
    ensures var o := TaskUseCases.BlockTask(Answers(st), taskId);
      && (o.result.Ok? <==> taskId in st.tasks.storage)
      && (o.result.Err? || st.tasks.storage[taskId].blocked ==> Commit(st, o.calls) == st)
      && (o.result.Ok? && !st.tasks.storage[taskId].blocked ==>
            var t := st.tasks.storage[taskId];
            && Commit(st, o.calls) == st.(tasks := Store(st.tasks.storage[taskId := t.(blocked := true)], st.tasks.nextId))
            && Valid(Commit(st, o.calls)))
  {
    Lookups(st, taskId, taskId);
    var o := TaskUseCases.BlockTask(Answers(st), taskId);
    if o.result.Err? || st.tasks.storage[taskId].blocked {
      NoWrite(st, o.calls);
    } else {
      TaskReplaced(st, st.tasks.storage[taskId].(blocked := true), o.calls);
    }
  }

  /** Unblocking in memory: an unknown task fails, an unblocked one stays as
      it is, a blocked one becomes unblocked and nothing else changes. */
  lemma UnblockTaskOnMemory(st: Stores, taskId: Long)
    requires Valid(st)
    ensures var o := TaskUseCases.UnblockTask(Answers(st), taskId);
      && (o.result.Ok? <==> taskId in st.tasks.storage)
      && (o.result.Err? || !st.tasks.storage[taskId].blocked ==> Commit(st, o.calls) == st)
      && (o.result.Ok? && st.tasks.storage[taskId].blocked ==>
            var t := st.tasks.storage[taskId];
            && Commit(st, o.calls) == st.(tasks := Store(st.tasks.storage[taskId := t.(blocked := false)], st.tasks.nextId))
            && Valid(Commit(st, o.calls)))
  {
    Lookups(st, taskId, taskId);
    var o := TaskUseCases.UnblockTask(Answers(st), taskId);
    if o.result.Err? || !st.tasks.storage[taskId].blocked {
      NoWrite(st, o.calls);
    } else {
      TaskReplaced(st, st.tasks.storage[taskId].(blocked := false), o.calls);
    }
  }

  /** Blocking an unblocked task and then unblocking it gives back the state
      it started from; blocking it a second time changes nothing. */
  lemma BlockThenUnblockRestores(st: Stores, taskId: Long)
    requires Valid(st) && taskId in st.tasks.storage && !st.tasks.storage[taskId].blocked
    ensures var blocked := Commit(st, TaskUseCases.BlockTask(Answers(st), taskId).calls);
      && Valid(blocked)
      && Commit(blocked, TaskUseCases.BlockTask(Answers(blocked), taskId).calls) == blocked
      && Commit(blocked, TaskUseCases.UnblockTask(Answers(blocked), taskId).calls) == st
  {
    BlockTaskOnMemory(st, taskId);
    var blocked := Commit(st, TaskUseCases.BlockTask(Answers(st), taskId).calls);
    BlockTaskOnMemory(blocked, taskId);
    UnblockTaskOnMemory(blocked, taskId);
    FlagRoundTrip(st.tasks, taskId);
  }

  lemma FlagRoundTrip(s: MemoryTasks.Tasks, id: Long)
    requires id in s.storage && !s.storage[id].blocked
    ensures var blocked := s.storage[id := s.storage[id].(blocked := true)];
      Store(blocked[id := blocked[id].(blocked := false)], s.nextId) == s
  {
    var t := s.storage[id];
    assert t.(blocked := true).(blocked := false) == t;
    assert s.storage[id := t.(blocked := true)][id := t] == s.storage;
  }

  /** Deleting a task in memory succeeds exactly when it is stored and then
      removes that task alone. A failed delete changes nothing. */
  lemma DeleteTaskOnMemory(st: Stores, id: Long)
    requires Valid(st)
    ensures var o := TaskUseCases.DeleteTask(Answers(st), id);
      && (o.result.Ok? <==> id in st.tasks.storage)
      && (o.result.Err? ==> o.result.error == EntityNotFound(NotFoundWithIdMessage(id)) && Commit(st, o.calls) == st)
      && (o.result.Ok? ==>
            && Commit(st, o.calls) == st.(tasks := Store(st.tasks.storage - {id}, st.tasks.nextId))
            && Valid(Commit(st, o.calls)))
  {
    Lookups(st, id, id);
    var o := TaskUseCases.DeleteTask(Answers(st), id);
    if o.result.Err? {
      NoWrite(st, o.calls);
    } else {
      TaskDeleted(st, id, o.calls);
    }
  }

  lemma TaskDeleted(st: Stores, id: Long, calls: seq<Call>)
    requires Valid(st) && Writes(calls) == [TaskDelete(id)]
    ensures Commit(st, calls) == st.(tasks := Store(st.tasks.storage - {id}, st.tasks.nextId))
    ensures Valid(Commit(st, calls))
  {
    OneWrite(st, calls, TaskDelete(id));
  }
}
