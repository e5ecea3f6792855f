/** The in-memory task repository: tasks in a map keyed by id, ids drawn from
    a counter, board and column queries over the stored tasks. */
module MemoryTasks {
  import opened Wrappers
  import opened JavaText
  import opened Domain
  import opened MemoryStore

  type Tasks = Store<Task>

  function IdOf(t: Task): Option<Long> {
    t.id
  }

  /** Every task sits under its own id: what `save` maintains. */
  predicate Valid(s: Tasks) {
    Keyed(s, IdOf)
  }

  datatype Saved = Saved(store: Tasks, task: Task)

  /** `save`: a task without an id takes the counter's value; the task is
      then put under its id, replacing whatever was there, and returned. */
  function Save(s: Tasks, t: Task): (r: Saved)
    ensures r.task.id.Some? && r.task == t.(id := r.task.id)
    ensures t.id.Some? ==> r.task.id == t.id && r.store.nextId == s.nextId
    ensures t.id.None? ==> r.task.id == Some(s.nextId) && r.store.nextId == LongSucc(s.nextId)
    ensures Get(r.store, r.task.id.value) == Some(r.task)
    ensures forall k :: k != r.task.id.value ==> Get(r.store, k) == Get(s, k)
    ensures Valid(s) ==> Valid(r.store)
  {
    var a := Allocate(t.id, s.nextId);
    var saved := t.(id := Some(a.id));
    if Valid(s) then
      PutKeepsKeyed(s, a, saved, IdOf);
      Saved(Put(s, a, saved), saved)
    else Saved(Put(s, a, saved), saved)
  }

  /** `findById`: the first stored task carrying the id. */
  function FindById(s: Tasks, id: Long): (r: Option<Task>)
    ensures r.Some? ==> r.value.id == Some(id) && r.value in s.storage.Values
  {
    var r := FindFirst(s, IdOf, id);
    ValuesListed(s);
    r
  }

  /** `existsById`: some stored task has the id. */
  predicate ExistsById(s: Tasks, id: Long) {
    AnyWithId(s, IdOf, id)
  }

  /** `findAllByBoardId`: exactly the stored tasks whose column is on the
      board. */
  function FindAllByBoardId(s: Tasks, boardId: Long): (r: seq<Task>)
    ensures forall t :: t in r <==> t in s.storage.Values && t.column.board.id == Some(boardId)
  {
    ValuesListed(s);
    TasksOnBoard(Values(s), boardId)
  }

  /** `findAllByColumnId`: exactly the stored tasks in the column. */
  function FindAllByColumnId(s: Tasks, columnId: Long): (r: seq<Task>)
    ensures forall t :: t in r <==> t in s.storage.Values && t.column.id == Some(columnId)
  {
    ValuesListed(s);
    TasksInColumn(Values(s), columnId)
  }

  /** `existsByTitleInBoard`: some task of the board has the title, ignoring
      case. */
  predicate ExistsByTitleInBoard(s: Tasks, title: string, boardId: Long) {
    var ts := FindAllByBoardId(s, boardId);
    exists i :: 0 <= i < |ts| && EqualsIgnoreCase(ts[i].title, title)
  }

  /** `existsByTitleInBoardAndIdNot`: the same, skipping the task `id`. */
  predicate ExistsByTitleInBoardAndIdNot(s: Tasks, title: string, boardId: Long, id: Long) {
    var ts := FindAllByBoardId(s, boardId);
    exists i :: 0 <= i < |ts| && EqualsIgnoreCase(ts[i].title, title) && ts[i].id != Some(id)
  }

  /** `deleteById`: only that key goes. */
  function DeleteById(s: Tasks, id: Long): (r: Tasks)
    ensures r.nextId == s.nextId
    ensures Valid(s) ==> Valid(r)
  {
    if Valid(s) then
      RemoveKeepsKeyed(s, id, IdOf);
      Remove(s, id)
    else Remove(s, id)
  }

  // ---------------------------------------------------------------------
  // Properties
  // ---------------------------------------------------------------------

  /** With every task under its own id, `findById` and `existsById` are the
      map lookup. */
  lemma FindByIdIsLookup(s: Tasks, id: Long)
    requires Valid(s)
    ensures FindById(s, id) == Get(s, id)
    ensures ExistsById(s, id) <==> id in s.storage
  {
    FindFirstIsLookup(s, IdOf, id);
  }

  /** A saved task is found under its id; every other id finds what it found
      before. */
  lemma SaveThenFind(s: Tasks, t: Task, other: Long)
    requires Valid(s)
    ensures FindById(Save(s, t).store, Save(s, t).task.id.value) == Some(Save(s, t).task)
    ensures other != Save(s, t).task.id.value ==> FindById(Save(s, t).store, other) == FindById(s, other)
  {
    var r := Save(s, t);
    FindByIdIsLookup(r.store, r.task.id.value);
    FindByIdIsLookup(r.store, other);
    FindByIdIsLookup(s, other);
  }

  /** Deleting removes that task only. */
  lemma DeleteRemovesOnlyThatTask(s: Tasks, id: Long, other: Long)
    requires Valid(s)
    ensures !ExistsById(DeleteById(s, id), id)
    ensures other != id ==> FindById(DeleteById(s, id), other) == FindById(s, other)
  {
    FindByIdIsLookup(DeleteById(s, id), id);
    FindByIdIsLookup(DeleteById(s, id), other);
    FindByIdIsLookup(s, other);
  }

  /** The title checks look only at the board's tasks, ignore case, and the
      `AndIdNot` form skips exactly the task with the given id. */
  lemma TitleChecksScopedToBoard(s: Tasks, title: string, boardId: Long, id: Long)
    ensures ExistsByTitleInBoard(s, title, boardId) <==>
      exists k :: k in s.storage && s.storage[k].column.board.id == Some(boardId)
                  && EqualsIgnoreCase(s.storage[k].title, title)
    ensures ExistsByTitleInBoardAndIdNot(s, title, boardId, id) <==>
      exists k :: k in s.storage && s.storage[k].column.board.id == Some(boardId)
                  && EqualsIgnoreCase(s.storage[k].title, title) && s.storage[k].id != Some(id)
  {
    var ts := FindAllByBoardId(s, boardId);
    if k :| k in s.storage && s.storage[k].column.board.id == Some(boardId)
            && EqualsIgnoreCase(s.storage[k].title, title) {
      assert s.storage[k] in ts;
    }
    if k :| k in s.storage && s.storage[k].column.board.id == Some(boardId)
            && EqualsIgnoreCase(s.storage[k].title, title) && s.storage[k].id != Some(id) {
      assert s.storage[k] in ts;
    }
    if i :| 0 <= i < |ts| && EqualsIgnoreCase(ts[i].title, title) {
      assert ts[i] in ts;
    }
    if i :| 0 <= i < |ts| && EqualsIgnoreCase(ts[i].title, title) && ts[i].id != Some(id) {
      assert ts[i] in ts;
    }
  }

  /** A task's own title never blocks its update: with every task under its
      own id, the `AndIdNot` check fails when the only tasks of the board
      with that title are the task itself. */
  lemma TitleCheckIgnoresOwnTask(s: Tasks, title: string, boardId: Long, id: Long)
    requires Valid(s)
    requires forall k :: (k in s.storage && s.storage[k].column.board.id == Some(boardId)
                          && EqualsIgnoreCase(s.storage[k].title, title)) ==> k == id
    ensures !ExistsByTitleInBoardAndIdNot(s, title, boardId, id)
  {
    TitleChecksScopedToBoard(s, title, boardId, id);
  }

  // ---------------------------------------------------------------------
  // The counter across a run of saves and deletes
  // ---------------------------------------------------------------------

  datatype Op = SaveOp(task: Task) | DeleteOp(id: Long)

  function Apply(s: Tasks, op: Op): Tasks {
    match op
    case SaveOp(t) => Save(s, t).store
    case DeleteOp(id) => DeleteById(s, id)
  }

  function Run(s: Tasks, ops: seq<Op>): Tasks
    decreases |ops|
  {
    if |ops| == 0 then s else Run(Apply(s, ops[0]), ops[1..])
  }

  /** The ids handed to the tasks saved without one, in save order. */
  function FreshIds(s: Tasks, ops: seq<Op>): seq<Long>
    decreases |ops|
  {
    if |ops| == 0 then []
    else
      (if ops[0].SaveOp? && ops[0].task.id.None? then [s.nextId] else [])
      + FreshIds(Apply(s, ops[0]), ops[1..])
  }

  /** Tasks saved without an id get consecutive ids from the counter's value
      on, whatever deletes come in between: an id is never handed out twice. */
  lemma {:induction false} FreshIdsConsecutive(s: Tasks, ops: seq<Op>)
    requires s.nextId + |ops| <= LongMax
    ensures forall i :: 0 <= i < |FreshIds(s, ops)| ==> FreshIds(s, ops)[i] == s.nextId + i
    ensures Run(s, ops).nextId == s.nextId + |FreshIds(s, ops)|
    decreases |ops|
  {
    if |ops| > 0 {
      var next := Apply(s, ops[0]);
      var isNew := ops[0].SaveOp? && ops[0].task.id.None?;
      assert next.nextId == if isNew then s.nextId + 1 else s.nextId;
      FreshIdsConsecutive(next, ops[1..]);
      var head := if isNew then [s.nextId] else [];
      assert FreshIds(s, ops) == head + FreshIds(next, ops[1..]);
    }
  }
}
