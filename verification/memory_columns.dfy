/** The in-memory column repository: columns in a map keyed by id, ids drawn
    from a counter. */
module MemoryColumns {
  import opened Wrappers
  import opened JavaText
  import opened Domain
  import opened MemoryStore

  type Columns = Store<Column>

  function IdOf(c: Column): Option<Long> {
    c.id
  }

  /** Every column sits under its own id: what `save` maintains. */
  predicate Valid(s: Columns) {
    Keyed(s, IdOf)
  }

  /** The repository after `save`, and the column as `save` left it (the
      method returns nothing, but it sets the id on the object it was given). */
  datatype Saved = Saved(store: Columns, column: Column)

  /** `save`: a column without an id takes the counter's value; the column is
      then put under its id, replacing whatever was there. */
  function Save(s: Columns, c: Column): (r: Saved)
    ensures r.column.id.Some? && r.column == c.(id := r.column.id)
    ensures c.id.Some? ==> r.column.id == c.id && r.store.nextId == s.nextId
    ensures c.id.None? ==> r.column.id == Some(s.nextId) && r.store.nextId == LongSucc(s.nextId)
    ensures Get(r.store, r.column.id.value) == Some(r.column)
    ensures forall k :: k != r.column.id.value ==> Get(r.store, k) == Get(s, k)
    ensures Valid(s) ==> Valid(r.store)
  {
    var a := Allocate(c.id, s.nextId);
    var saved := c.(id := Some(a.id));
    if Valid(s) then
      PutKeepsKeyed(s, a, saved, IdOf);
      Saved(Put(s, a, saved), saved)
    else Saved(Put(s, a, saved), saved)
  }

  /** `findById`: the first stored column carrying the id. */
  function FindById(s: Columns, id: Long): (r: Option<Column>)
    ensures r.Some? ==> r.value.id == Some(id) && r.value in s.storage.Values
  {
    var r := FindFirst(s, IdOf, id);
    ValuesListed(s);
    r
  }

  /** `findAllByBoardId`: exactly the stored columns of the board. */
  function FindAllByBoardId(s: Columns, boardId: Long): (r: seq<Column>)
    ensures forall c :: c in r <==> c in s.storage.Values && c.board.id == Some(boardId)
  {
    ValuesListed(s);
    ColumnsOnBoard(Values(s), boardId)
  }

  // ---------------------------------------------------------------------
  // Properties
  // ---------------------------------------------------------------------

  /** With every column under its own id, `findById` is the map lookup. */
  lemma FindByIdIsLookup(s: Columns, id: Long)
    requires Valid(s)
    ensures FindById(s, id) == Get(s, id)
  {
    FindFirstIsLookup(s, IdOf, id);
  }

  /** A saved column is found under its id, replacing any earlier column
      with that id; every other id finds what it found before. */
  lemma SaveThenFind(s: Columns, c: Column, other: Long)
    requires Valid(s)
    ensures FindById(Save(s, c).store, Save(s, c).column.id.value) == Some(Save(s, c).column)
    ensures other != Save(s, c).column.id.value ==> FindById(Save(s, c).store, other) == FindById(s, other)
  {
    var r := Save(s, c);
    FindByIdIsLookup(r.store, r.column.id.value);
    FindByIdIsLookup(r.store, other);
    FindByIdIsLookup(s, other);
  }

  /** `save` applied to each column in turn. */
  function SaveAll(s: Columns, cs: seq<Column>): Columns
    decreases |cs|
  {
    if |cs| == 0 then s else SaveAll(Save(s, cs[0]).store, cs[1..])
  }

  /** The ids handed to the columns saved without one, in save order. */
  function FreshIds(s: Columns, cs: seq<Column>): seq<Long>
    decreases |cs|
  {
    if |cs| == 0 then []
    else
      (if cs[0].id.None? then [s.nextId] else []) + FreshIds(Save(s, cs[0]).store, cs[1..])
  }

  /** Columns saved without an id get consecutive ids from the counter's
      value on: 1, 2, 3, ... from a new repository. */
  lemma {:induction false} FreshIdsConsecutive(s: Columns, cs: seq<Column>)
    requires s.nextId + |cs| <= LongMax
    ensures forall i :: 0 <= i < |FreshIds(s, cs)| ==> FreshIds(s, cs)[i] == s.nextId + i
    ensures SaveAll(s, cs).nextId == s.nextId + |FreshIds(s, cs)|
    decreases |cs|
  {
    if |cs| > 0 {
      var next := Save(s, cs[0]).store;
      FreshIdsConsecutive(next, cs[1..]);
      var head := if cs[0].id.None? then [s.nextId] else [];
      assert FreshIds(s, cs) == head + FreshIds(next, cs[1..]);
    }
  }
}
