/**
 A bounded least-recently-used cache of weak references.  A cached value carries an evictor that
 removes its own entry when the value dies; because death and eviction are two moments, the
 entry may have been replaced in between, and a number tells the two apart.
 */
module WeakCache {
  /** The front of the entries is the least recently used one. */
  datatype Entry<K> = Entry(key: K, id: nat)

  datatype Cache<K> = Cache(entries: seq<Entry<K>>, capacity: nat, nextId: nat)

  datatype Got = Hit(id: nat) | Built(id: nat) | Failed

  function Find<K(==)>(es: seq<Entry<K>>, key: K): (i: nat)
    ensures i <= |es|
    ensures i < |es| ==> es[i].key == key
    ensures forall j :: 0 <= j < i ==> es[j].key != key
  {
    if es == [] then 0 else if es[0].key == key then 0 else 1 + Find(es[1..], key)
  }

  function Removed<K>(es: seq<Entry<K>>, i: nat): seq<Entry<K>>
    requires i < |es|
  {
    es[..i] + es[i + 1..]
  }

  /** The entry of the key, if any, becomes the most recently used. */
  function Refreshed<K(==)>(es: seq<Entry<K>>, key: K): seq<Entry<K>> {
    var i := Find(es, key);
    if i < |es| then Removed(es, i) + [es[i]] else es
  }

  /** The entry replaces one with the same key and becomes the most recently used. */
  function Inserted<K(==)>(es: seq<Entry<K>>, e: Entry<K>): seq<Entry<K>> {
    var i := Find(es, e.key);
    (if i < |es| then Removed(es, i) else es) + [e]
  }

  function Trimmed<K>(es: seq<Entry<K>>, capacity: nat): seq<Entry<K>> {
    if |es| > capacity then es[|es| - capacity..] else es
  }

  /** `alive` are the values whose weak references can still be upgraded. */
  function Get<K(==)>(c: Cache<K>, alive: set<nat>, key: K, makeSucceeds: bool): (Cache<K>, Got) {
    var i, fresh_ := Find(c.entries, key), Refreshed(c.entries, key);
    if i < |c.entries| && c.entries[i].id in alive then
      (c.(entries := fresh_), Hit(c.entries[i].id))
    else if !makeSucceeds then
      (c.(entries := fresh_), Failed)
    else
      (Cache(Trimmed(Inserted(fresh_, Entry(key, c.nextId)), c.capacity), c.capacity, c.nextId + 1), Built(c.nextId))
  }

  /** The evictor of value `id`, cached under `key`, runs. */
  function Evict<K(==)>(c: Cache<K>, key: K, id: nat): Cache<K> {
    var i := Find(c.entries, key);
    if i < |c.entries| && c.entries[i].id == id then c.(entries := Removed(c.entries, i)) else c
  }

  /** The cache as the program keeps it, changed in place under a mutex. */
  class Store<K(==)> {
    var entries: seq<Entry<K>>
    const capacity: nat
    var nextId: nat

    constructor (capacity: nat)
      ensures View() == Cache([], capacity, 0)
    {
      this.capacity := capacity;
      entries, nextId := [], 0;
    }

    function View(): Cache<K>
      reads this
    {
      Cache(entries, capacity, nextId)
    }

    method GetOrMake(key: K, alive: set<nat>, makeSucceeds: bool) returns (r: Got)
      modifies this
      ensures (View(), r) == Get(old(View()), alive, key, makeSucceeds)
    {
      var i := Find(entries, key);
      if i < |entries| {
        var found := entries[i];
        entries := Refreshed(entries, key);
        if found.id in alive {
          return Hit(found.id);
        }
      }
      if !makeSucceeds {
        return Failed;
      }
      var id := nextId;
      nextId := nextId + 1;
      entries := Inserted(entries, Entry(key, id));
      ghost var all := entries;
      while |entries| > capacity
        invariant entries == all[|all| - |entries|..]
        invariant |entries| >= capacity || entries == all
        invariant nextId == id + 1
      {
        entries := entries[1..];
      }
      return Built(id);
    }

    method DropEvictor(key: K, id: nat)
      modifies this`entries
      ensures View() == Evict(old(View()), key, id)
    {
      var i := Find(entries, key);
      if i < |entries| {
        if entries[i].id == id {
          entries := Removed(entries, i);
        }
      }
    }
  }
}
