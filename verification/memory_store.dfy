/** What the three in-memory repositories share: a hash map from id to entity
    and a `long nextId = 1` counter that `save` draws from when the entity has
    no id yet. */
module MemoryStore {
  import opened Wrappers
  import opened JavaText
  import opened Collections

  datatype Store<T> = Store(storage: map<Long, T>, nextId: Long)

  /** A new repository: nothing stored, the counter at 1. */
  function Empty<T>(): Store<T> {
    Store(map[], 1)
  }

  /** `storage.get(k)`, with `None` for an absent key. */
  function Get<T>(s: Store<T>, k: Long): (r: Option<T>)
    ensures r.Some? <==> k in s.storage
    ensures r.Some? ==> r.value == s.storage[k]
  {
    if k in s.storage then Some(s.storage[k]) else None
  }

  /** The id `save` stores an entity under, and the counter afterwards. */
  datatype Allocation = Allocation(id: Long, nextId: Long)

  /** `if (e.getId() == null) e.setId(nextId++)`: an entity that has an id
      keeps it and leaves the counter alone; one without takes the counter,
      which then advances (wrapping as a Java long does). */
  function Allocate(id: Option<Long>, nextId: Long): (a: Allocation)
    ensures id.Some? ==> a.id == id.value && a.nextId == nextId
    ensures id.None? ==> a.id == nextId && a.nextId == LongSucc(nextId)
  {
    match id
    case Some(k) => Allocation(k, nextId)
    case None => Allocation(nextId, LongSucc(nextId))
  }

  /** `storage.put(id, v)` with the counter the allocation left. */
  function Put<T>(s: Store<T>, a: Allocation, v: T): (r: Store<T>)
    ensures r.nextId == a.nextId
    ensures Get(r, a.id) == Some(v)
    ensures forall k :: k != a.id ==> Get(r, k) == Get(s, k)
  {
    Store(s.storage[a.id := v], a.nextId)
  }

  /** `storage.remove(id)`: only that key goes and the counter stays, so an
      id once handed out is not handed out again. */
  function Remove<T>(s: Store<T>, id: Long): (r: Store<T>)
    ensures r.nextId == s.nextId
    ensures Get(r, id) == None
    ensures forall k :: k != id ==> Get(r, k) == Get(s, k)
  {
    Store(s.storage - {id}, s.nextId)
  }

  /** Every key lies below the counter: each was handed out by it earlier. */
  predicate KeysBelowCounter<T>(s: Store<T>) {
    forall k :: k in s.storage ==> k < s.nextId
  }

  /** Saving an entity without an id, while the counter has not reached the
      largest long, uses an id no stored entity holds and keeps every key below
      the counter; so does saving one whose id the counter already issued, and
      so does every removal. */
  lemma {:induction false} CounterStaysAhead<T>(s: Store<T>, id: Option<Long>, v: T, gone: Long)
    requires KeysBelowCounter(s) && s.nextId < LongMax
    requires id.Some? ==> id.value < s.nextId
    ensures id.None? ==> Allocate(id, s.nextId).id !in s.storage
    ensures KeysBelowCounter(Put(s, Allocate(id, s.nextId), v))
    ensures KeysBelowCounter(Remove(s, gone))
  {
    var r := Put(s, Allocate(id, s.nextId), v);
    forall k | k in r.storage
      ensures k < r.nextId
    {
      if k != Allocate(id, s.nextId).id {
        assert Get(r, k) == Get(s, k);
      }
    }
    var d := Remove(s, gone);
    forall k | k in d.storage
      ensures k < d.nextId
    {
      assert Get(d, k) == Get(s, k);
    }
  }

  // ---------------------------------------------------------------------
  // Entities stored under their own ids
  // ---------------------------------------------------------------------

  /** Every entity sits under its own id: what `save` maintains. */
  predicate Keyed<T>(s: Store<T>, idOf: T -> Option<Long>) {
    forall k :: k in s.storage ==> idOf(s.storage[k]) == Some(k)
  }

  /** Putting an entity under its own id keeps every entity under its own id. */
  lemma PutKeepsKeyed<T>(s: Store<T>, a: Allocation, v: T, idOf: T -> Option<Long>)
    requires Keyed(s, idOf) && idOf(v) == Some(a.id)
    ensures Keyed(Put(s, a, v), idOf)
  {
    var r := Put(s, a, v);
    forall k | k in r.storage
      ensures idOf(r.storage[k]) == Some(k)
    {
      if k != a.id {
        assert Get(r, k) == Get(s, k);
      }
    }
  }

  lemma RemoveKeepsKeyed<T>(s: Store<T>, id: Long, idOf: T -> Option<Long>)
    requires Keyed(s, idOf)
    ensures Keyed(Remove(s, id), idOf)
  {
    var r := Remove(s, id);
    forall k | k in r.storage
      ensures idOf(r.storage[k]) == Some(k)
    {
      assert Get(r, k) == Get(s, k);
    }
  }

  /** The map's values as the repositories' streams see them. */
  function Values<T>(s: Store<T>): seq<T> {
    ValuesInKeyOrder(s.storage)
  }

  /** The predicate `e.getId().equals(id)`. */
  function HasId<T>(idOf: T -> Option<Long>, id: Long): T -> bool {
    (x: T) => idOf(x) == Some(id)
  }

  /** `storage.values().stream().filter(e -> e.getId().equals(id)).findFirst()`. */
  function FindFirst<T>(s: Store<T>, idOf: T -> Option<Long>, id: Long): (r: Option<T>)
    ensures r.Some? ==> idOf(r.value) == Some(id)
  {
    FirstMatch(Values(s), HasId(idOf, id))
  }

  /** `storage.values().stream().anyMatch(e -> e.getId().equals(id))`. */
  predicate AnyWithId<T>(s: Store<T>, idOf: T -> Option<Long>, id: Long) {
    exists k :: k in s.storage && idOf(s.storage[k]) == Some(id)
  }

  /** With every entity under its own id, the value scans are the map
      lookup. */
  lemma FindFirstIsLookup<T>(s: Store<T>, idOf: T -> Option<Long>, id: Long)
    requires Keyed(s, idOf)
    ensures FindFirst(s, idOf, id) == Get(s, id)
    ensures AnyWithId(s, idOf, id) <==> id in s.storage
  {
    var vs := Values(s);
    if id in s.storage {
      ValuesInKeyOrderListsValues(s.storage, s.storage[id]);
      var i :| 0 <= i < |vs| && vs[i] == s.storage[id];
      assert HasId(idOf, id)(vs[i]);
    }
    var r := FindFirst(s, idOf, id);
    if r.Some? {
      ValuesInKeyOrderListsValues(s.storage, r.value);
    }
  }

  /** A value is listed by the streams exactly when some key holds it. */
  lemma ValuesListed<T>(s: Store<T>)
    ensures forall v :: v in Values(s) <==> exists k :: k in s.storage && s.storage[k] == v
  {
    forall v
      ensures v in Values(s) <==> exists k :: k in s.storage && s.storage[k] == v
    {
      ValuesInKeyOrderListsValues(s.storage, v);
    }
  }

  /** With every entity under its own id, no entity is listed twice. */
  lemma KeyedValuesDistinct<T>(s: Store<T>, idOf: T -> Option<Long>)
    requires Keyed(s, idOf)
    ensures forall a, c :: 0 <= a < c < |Values(s)| ==> Values(s)[a] != Values(s)[c]
  {
    var ks := SortedKeys(s.storage.Keys);
    var vs := ValuesAt(s.storage, ks);
    assert Values(s) == vs;
    forall a, c | 0 <= a < c < |vs|
      ensures vs[a] != vs[c]
    {
      assert ks[a] in ks && ks[c] in ks;
      assert idOf(vs[a]) == Some(ks[a]) && idOf(vs[c]) == Some(ks[c]);
    }
  }
}
