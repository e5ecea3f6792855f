/** The in-memory board repository: boards in a map keyed by id, ids drawn
    from a counter. Its queries stream over the map's values; the model lists
    the values in ascending key order. */
module MemoryBoards {
  import opened Wrappers
  import opened JavaText
  import opened Domain
  import opened Collections
  import opened MemoryStore

  type Boards = Store<Board>

  function IdOf(b: Board): Option<Long> {
    b.id
  }

  /** Every board sits under its own id: what `save` maintains. */
  predicate Valid(s: Boards) {
    Keyed(s, IdOf)
  }

  datatype Saved = Saved(store: Boards, board: Board)

  /** `save`: a board without an id takes the counter's value; the board is
      then put under its id, replacing whatever was there, and returned. */
  function Save(s: Boards, b: Board): (r: Saved)
    ensures r.board.id.Some? && r.board == b.(id := r.board.id)
    ensures b.id.Some? ==> r.board.id == b.id && r.store.nextId == s.nextId
    ensures b.id.None? ==> r.board.id == Some(s.nextId) && r.store.nextId == LongSucc(s.nextId)
    ensures Get(r.store, r.board.id.value) == Some(r.board)
    ensures forall k :: k != r.board.id.value ==> Get(r.store, k) == Get(s, k)
    ensures Valid(s) ==> Valid(r.store)
  {
    var a := Allocate(b.id, s.nextId);
    var saved := b.(id := Some(a.id));
    var r := Put(s, a, saved);
    if Valid(s) then
      PutKeepsKeyed(s, a, saved, IdOf);
      Saved(r, saved)
    else Saved(r, saved)
  }

  /** `existsById`: some stored board has the id. */
  predicate ExistsById(s: Boards, id: Long) {
    AnyWithId(s, IdOf, id)
  }

  /** `existsByTitle`: some stored board has the title, ignoring case. */
  predicate ExistsByTitle(s: Boards, title: string) {
    exists k :: k in s.storage && EqualsIgnoreCase(s.storage[k].title, title)
  }

  /** `existsByTitleAndIdNot`: some stored board other than `id` has the
      title, ignoring case. */
  predicate ExistsByTitleAndIdNot(s: Boards, title: string, id: Long) {
    exists k :: k in s.storage && EqualsIgnoreCase(s.storage[k].title, title) && s.storage[k].id != Some(id)
  }

  /** `getAll`: the stored boards sorted by id. */
  function GetAll(s: Boards): (r: seq<Board>)
    ensures |r| == |s.storage|
    ensures multiset(r) == multiset(Values(s))
    ensures SortedBy(r, IdKey)
  {
    SortBy(Values(s), IdKey)
  }

  /** `findById`: the first stored board carrying the id. */
  function FindById(s: Boards, id: Long): (r: Option<Board>)
    ensures r.Some? ==> r.value.id == Some(id) && r.value in s.storage.Values
  {
    var r := FindFirst(s, IdOf, id);
    ValuesListed(s);
    r
  }

  /** `deleteById`: the key goes, nothing else happens (no listeners). */
  function DeleteById(s: Boards, id: Long): (r: Boards)
    ensures r.nextId == s.nextId
    ensures Valid(s) ==> Valid(r)
  {
    if Valid(s) then
      RemoveKeepsKeyed(s, id, IdOf);
      Remove(s, id)
    else Remove(s, id)
  }

  // ---------------------------------------------------------------------
  // Properties
  // ---------------------------------------------------------------------

  /** With every board under its own id, `findById` and `existsById` are the
      map lookup. */
  lemma FindByIdIsLookup(s: Boards, id: Long)
    requires Valid(s)
    ensures FindById(s, id) == Get(s, id)
    ensures ExistsById(s, id) <==> id in s.storage
  {
    FindFirstIsLookup(s, IdOf, id);
  }

  /** A saved board is found under its id; every other id finds what it
      found before. */
  lemma SaveThenFind(s: Boards, b: Board, other: Long)
    requires Valid(s)
    ensures FindById(Save(s, b).store, Save(s, b).board.id.value) == Some(Save(s, b).board)
    ensures other != Save(s, b).board.id.value ==> FindById(Save(s, b).store, other) == FindById(s, other)
  {
    var r := Save(s, b);
    FindByIdIsLookup(r.store, r.board.id.value);
    FindByIdIsLookup(r.store, other);
    FindByIdIsLookup(s, other);
  }

  /** Deleting removes that board only. */
  lemma DeleteRemovesOnlyThatBoard(s: Boards, id: Long, other: Long)
    requires Valid(s)
    ensures FindById(DeleteById(s, id), id) == None
    ensures !ExistsById(DeleteById(s, id), id)
    ensures other != id ==> FindById(DeleteById(s, id), other) == FindById(s, other)
  {
    FindByIdIsLookup(DeleteById(s, id), id);
    FindByIdIsLookup(DeleteById(s, id), other);
    FindByIdIsLookup(s, other);
  }

  /** `getAll` lists every stored board exactly once, ids strictly ascending. */
  lemma GetAllListsEveryBoard(s: Boards, b: Board)
    requires Valid(s)
    ensures b in GetAll(s) <==> b in s.storage.Values
    ensures forall i, j :: 0 <= i < j < |GetAll(s)| ==>
      GetAll(s)[i].id.Some? && GetAll(s)[j].id.Some? && GetAll(s)[i].id.value < GetAll(s)[j].id.value
  {
    var r := GetAll(s);
    ValuesInKeyOrderListsValues(s.storage, b);
    assert b in r <==> b in multiset(Values(s));
    ValuesStored(s);
    ValuesDistinct(s);
    PermutationKeeps(Values(s), r, (x: Board) => x in s.storage.Values);
    NoRepeats(Values(s), r);
    forall i, j | 0 <= i < j < |r|
      ensures r[i].id.Some? && r[j].id.Some? && r[i].id.value < r[j].id.value
    {
      assert IdKey(r[i]) <= IdKey(r[j]);
      StoredBoardsDiffer(s, r[i], r[j]);
    }
  }

  /** Two different stored boards, the first with a key no larger, have
      strictly ordered ids. */
  lemma StoredBoardsDiffer(s: Boards, x: Board, y: Board)
    requires Valid(s)
    requires x in s.storage.Values && y in s.storage.Values && x != y
    requires IdKey(x) <= IdKey(y)
    ensures x.id.Some? && y.id.Some? && x.id.value < y.id.value
  {
    var kx :| kx in s.storage && s.storage[kx] == x;
    var ky :| ky in s.storage && s.storage[ky] == y;
  }

  /** A permutation of a list without repeats has none either. */
  lemma NoRepeats(vs: seq<Board>, r: seq<Board>)
    requires multiset(r) == multiset(vs)
    requires forall a, c :: 0 <= a < c < |vs| ==> vs[a] != vs[c]
    ensures forall a, c :: 0 <= a < c < |r| ==> r[a] != r[c]
  {
    forall a, c | 0 <= a < c < |r|
      ensures r[a] != r[c]
    {
      DistinctCount(vs, r[a]);
      TwoPositionsCount(r, a, c);
    }
  }

  /** Every listed value is stored. */
  lemma ValuesStored(s: Boards)
    ensures forall i :: 0 <= i < |Values(s)| ==> Values(s)[i] in s.storage.Values
  {
    forall i | 0 <= i < |Values(s)|
      ensures Values(s)[i] in s.storage.Values
    {
      ValuesInKeyOrderListsValues(s.storage, Values(s)[i]);
    }
  }

  /** With each board under its own id, the values list has no repeats. */
  lemma ValuesDistinct(s: Boards)
    requires Valid(s)
    ensures forall a, c :: 0 <= a < c < |Values(s)| ==> Values(s)[a] != Values(s)[c]
  {
    KeyedValuesDistinct(s, IdOf);
  }

  /** A board at two positions occurs at least twice. */
  lemma TwoPositionsCount(r: seq<Board>, i: int, j: int)
    requires 0 <= i < j < |r|
    ensures r[i] == r[j] ==> multiset(r)[r[i]] >= 2
  {
    assert r == r[..i] + [r[i]] + r[i + 1..j] + [r[j]] + r[j + 1..];
  }

  /** In a list without repeats every board occurs at most once. */
  lemma {:induction false} DistinctCount(vs: seq<Board>, x: Board)
    requires forall a, b :: 0 <= a < b < |vs| ==> vs[a] != vs[b]
    ensures multiset(vs)[x] <= 1
  {
    if |vs| > 0 {
      assert vs == [vs[0]] + vs[1..];
      DistinctCount(vs[1..], x);
      if vs[0] == x {
        assert x !in vs[1..];
      }
    }
  }

  /** The `AndIdNot` check is the plain check minus the board with that id:
      with every board under its own id, a title found by the plain check but
      not by the other belongs to board `id` itself. */
  lemma TitleCheckIgnoresOwnBoard(s: Boards, title: string, id: Long)
    requires Valid(s)
    ensures ExistsByTitleAndIdNot(s, title, id) ==> ExistsByTitle(s, title)
    ensures ExistsByTitle(s, title) && !ExistsByTitleAndIdNot(s, title, id) ==>
      id in s.storage && EqualsIgnoreCase(s.storage[id].title, title)
  {
    if ExistsByTitle(s, title) && !ExistsByTitleAndIdNot(s, title, id) {
      var k :| k in s.storage && EqualsIgnoreCase(s.storage[k].title, title);
      assert s.storage[k].id == Some(id);
    }
  }

  /** A stored board's own title is taken. */
  lemma StoredTitleTaken(s: Boards, k: Long)
    requires k in s.storage
    ensures ExistsByTitle(s, s.storage[k].title)
  {
    EqualsIgnoreCaseIsLowerEquality(s.storage[k].title, s.storage[k].title);
  }

  /** Titles that agree ignoring case are taken or free together. */
  lemma ExistsByTitleIgnoresCase(s: Boards, t1: string, t2: string)
    requires EqualsIgnoreCase(t1, t2)
    ensures ExistsByTitle(s, t1) <==> ExistsByTitle(s, t2)
  {
    EqualsIgnoreCaseIsLowerEquality(t1, t2);
    forall k | k in s.storage
      ensures EqualsIgnoreCase(s.storage[k].title, t1) <==> EqualsIgnoreCase(s.storage[k].title, t2)
    {
      EqualsIgnoreCaseIsLowerEquality(s.storage[k].title, t1);
      EqualsIgnoreCaseIsLowerEquality(s.storage[k].title, t2);
    }
  }

  // ---------------------------------------------------------------------
  // The counter across a run of saves and deletes
  // ---------------------------------------------------------------------

  datatype Op = SaveOp(board: Board) | DeleteOp(id: Long)

  function Apply(s: Boards, op: Op): Boards {
    match op
    case SaveOp(b) => Save(s, b).store
    case DeleteOp(id) => DeleteById(s, id)
  }

  function Run(s: Boards, ops: seq<Op>): Boards
    decreases |ops|
  {
    if |ops| == 0 then s else Run(Apply(s, ops[0]), ops[1..])
  }

  /** The ids handed to the boards saved without one, in save order. */
  function FreshIds(s: Boards, ops: seq<Op>): seq<Long>
    decreases |ops|
  {
    if |ops| == 0 then []
    else
      (if ops[0].SaveOp? && ops[0].board.id.None? then [s.nextId] else [])
      + FreshIds(Apply(s, ops[0]), ops[1..])
  }

  /** Boards saved without an id get consecutive ids from the counter's
      value on (1, 2, 3, ... from a new repository), whatever deletes come in
      between: an id is never handed out twice. */
  lemma {:induction false} FreshIdsConsecutive(s: Boards, ops: seq<Op>)
    requires s.nextId + |ops| <= LongMax
    ensures forall i :: 0 <= i < |FreshIds(s, ops)| ==> FreshIds(s, ops)[i] == s.nextId + i
    ensures Run(s, ops).nextId == s.nextId + |FreshIds(s, ops)|
    decreases |ops|
  {
    if |ops| > 0 {
      var next := Apply(s, ops[0]);
      var isNew := ops[0].SaveOp? && ops[0].board.id.None?;
      assert next.nextId == if isNew then s.nextId + 1 else s.nextId;
      FreshIdsConsecutive(next, ops[1..]);
      var head := if isNew then [s.nextId] else [];
      assert FreshIds(s, ops) == head + FreshIds(next, ops[1..]);
    }
  }
}
