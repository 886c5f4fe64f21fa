/** Whole runs of the weak cache: lookups, deaths of values, and evictors that run late. */
module WeakCacheRuns {
  import opened Options
  import opened WeakCache

  datatype World<K, V> = World(
    cache: Cache<K>,
    alive: set<nat>,          // values with an owner
    evicting: set<nat>,       // values that died and whose evictor has not run yet
    keyOf: map<nat, K>,       // what every value ever built was built for
    valueOf: map<nat, V>,     // and the value itself
    log: seq<K>,              // the keys looked up so far
    touched: map<nat, nat>)   // the lookup that last returned a value

  datatype Event<K, V> = Lookup(key: K, made: Option<V>) | Die(id: nat) | RunEvictor(id: nat)

  function Initial<K, V>(capacity: nat): World<K, V> {
    World(Cache([], capacity, 0), {}, {}, map[], map[], [], map[])
  }

  predicate Enabled<K, V>(w: World<K, V>, e: Event<K, V>) {
    match e
    case Lookup(_, _) => true
    case Die(id) => id in w.alive
    case RunEvictor(id) => id in w.evicting && id in w.keyOf
  }

  function Answer<K(==), V>(w: World<K, V>, key: K, made: Option<V>): Got {
    Get(w.cache, w.alive, key, made.Some?).1
  }

  function Next<K(==), V>(w: World<K, V>, e: Event<K, V>): World<K, V>
    requires Enabled(w, e)
  {
    match e
    case Lookup(key, made) =>
      var (cache, got) := Get(w.cache, w.alive, key, made.Some?);
      var w' := w.(cache := cache, log := w.log + [key]);
      match got {
        case Hit(id) => w'.(touched := w.touched[id := |w.log|])
        case Failed => w'
        case Built(id) =>
          w'.(alive := w.alive + {id}, keyOf := w.keyOf[id := key], touched := w.touched[id := |w.log|],
              valueOf := if made.Some? then w.valueOf[id := made.value] else w.valueOf)
      }
    case Die(id) => w.(alive := w.alive - {id}, evicting := w.evicting + {id})
    case RunEvictor(id) => w.(cache := Evict(w.cache, w.keyOf[id], id), evicting := w.evicting - {id})
  }

  ghost predicate Feasible<K, V>(w: World<K, V>, run: seq<Event<K, V>>)
    decreases |run|
  {
    run == [] || (Enabled(w, run[0]) && Feasible(Next(w, run[0]), run[1..]))
  }

  ghost function After<K, V>(w: World<K, V>, run: seq<Event<K, V>>): World<K, V>
    requires Feasible(w, run)
    decreases |run|
  {
    if run == [] then w else After(Next(w, run[0]), run[1..])
  }

  // ----- recency

  /** The last lookup of a key, or -1. */
  function LastUse<K(==)>(log: seq<K>, key: K): int {
    if log == [] then -1 else if log[|log| - 1] == key then |log| - 1 else LastUse(log[..|log| - 1], key)
  }

  lemma LastUseSnoc<K>(log: seq<K>, k: K, key: K)
    ensures LastUse(log + [k], key) == if key == k then |log| else LastUse(log, key)
  {
    assert (log + [k])[..|log + [k]| - 1] == log;
  }

  lemma {:induction false} LastUseIs<K>(log: seq<K>, key: K)
    ensures -1 <= LastUse(log, key) < |log|
    ensures LastUse(log, key) >= 0 ==> log[LastUse(log, key)] == key
  {
    if log != [] {
      LastUseIs(log[..|log| - 1], key);
    }
  }

  function Elements<K(==)>(s: seq<K>): set<K> {
    set k | k in s
  }

  /** The keys other than `key` looked up after the lookup number `t`. */
  function OthersSince<K(==)>(log: seq<K>, t: int, key: K): set<K>
    requires -1 <= t < |log|
  {
    Elements(log[t + 1..]) - {key}
  }

  // ----- the invariant

  ghost predicate DistinctKeys<K>(es: seq<Entry<K>>) {
    forall i, j :: 0 <= i < j < |es| ==> es[i].key != es[j].key
  }

  /** Every value ever made is numbered below nextId and remembers its key; it is alive, dying or gone. */
  ghost predicate Numbered<K, V>(w: World<K, V>) {
    && (forall id: nat :: id in w.keyOf <==> id < w.cache.nextId)
    && w.valueOf.Keys == w.keyOf.Keys && w.touched.Keys == w.keyOf.Keys
    && (forall id :: id in w.alive || id in w.evicting ==> id in w.keyOf)
    && w.alive !! w.evicting
  }

  /** An entry belongs to a value made for its key that is alive, or dead with its evictor still to run. */
  ghost predicate Owned<K, V>(w: World<K, V>, e: Entry<K>) {
    && e.id in w.keyOf && w.keyOf[e.id] == e.key
    && (e.id in w.alive || e.id in w.evicting)
  }

  ghost predicate Entries<K, V>(w: World<K, V>) {
    && |w.cache.entries| <= w.cache.capacity
    && DistinctKeys(w.cache.entries)
    && (forall i :: 0 <= i < |w.cache.entries| ==> Owned(w, w.cache.entries[i]))
  }

  /** The entries stand in the order in which their keys were last looked up. */
  ghost predicate ByRecency<K>(es: seq<Entry<K>>, log: seq<K>) {
    && (forall i :: 0 <= i < |es| ==> LastUse(log, es[i].key) >= 0)
    && (forall i, j :: 0 <= i < j < |es| ==> LastUse(log, es[i].key) < LastUse(log, es[j].key))
  }

  ghost predicate InCache<K, V>(w: World<K, V>, id: nat)
    requires id in w.keyOf
  {
    Entry(w.keyOf[id], id) in w.cache.entries
  }

  /**
   The fate of a living value: it is in its slot, touched by the last lookup of its key; or it was
   pushed out after at least as many other keys as the capacity were looked up since its last use.
   */
  ghost predicate Fate<K, V>(w: World<K, V>, id: nat)
    requires id in w.keyOf && id in w.touched
  {
    && w.touched[id] < |w.log|
    && if InCache(w, id) then w.touched[id] == LastUse(w.log, w.keyOf[id])
       else |OthersSince(w.log, w.touched[id], w.keyOf[id])| >= w.cache.capacity
  }

  ghost predicate Inv<K(!new), V>(w: World<K, V>) {
    && Numbered(w)
    && Entries(w)
    && ByRecency(w.cache.entries, w.log)
    && (forall id :: id in w.alive ==> Fate(w, id))
  }

  // ----- lists of entries

  lemma RemovedAt<K>(es: seq<Entry<K>>, i: nat)
    requires i < |es|
    ensures |Removed(es, i)| == |es| - 1
    ensures forall k :: 0 <= k < |es| - 1 ==> Removed(es, i)[k] == es[if k < i then k else k + 1]
  {
  }

  lemma RemovedOrdered<K>(es: seq<Entry<K>>, i: nat, log: seq<K>)
    requires i < |es| && DistinctKeys(es) && ByRecency(es, log)
    ensures DistinctKeys(Removed(es, i)) && ByRecency(Removed(es, i), log)
    ensures forall k :: 0 <= k < |es| - 1 ==> Removed(es, i)[k].key != es[i].key
  {
    RemovedAt(es, i);
  }

  /** An entry put behind the others, with its key looked up just now, is the most recent. */
  lemma AppendedOrdered<K>(es: seq<Entry<K>>, log: seq<K>, e: Entry<K>)
    requires DistinctKeys(es) && ByRecency(es, log) && forall k :: 0 <= k < |es| ==> es[k].key != e.key
    ensures DistinctKeys(es + [e]) && ByRecency(es + [e], log + [e.key])
  {
    forall k | 0 <= k < |es|
      ensures LastUse(log + [e.key], es[k].key) == LastUse(log, es[k].key) < |log|
    {
      LastUseSnoc(log, e.key, es[k].key);
      LastUseIs(log, es[k].key);
    }
    LastUseSnoc(log, e.key, e.key);
  }

  /** Moving or putting the looked-up key last keeps the entries in the order of recency. */
  lemma LookupKeepsRecency<K>(es: seq<Entry<K>>, log: seq<K>, e: Entry<K>)
    requires DistinctKeys(es) && ByRecency(es, log)
    ensures DistinctKeys(Inserted(es, e)) && ByRecency(Inserted(es, e), log + [e.key])
  {
    var i := Find(es, e.key);
    if i < |es| {
      RemovedOrdered(es, i, log);
      AppendedOrdered(Removed(es, i), log, e);
    } else {
      AppendedOrdered(es, log, e);
    }
  }

  lemma RefreshIsInsert<K>(es: seq<Entry<K>>, key: K)
    ensures var i := Find(es, key); i < |es| ==> Refreshed(es, key) == Inserted(es, es[i])
  {
  }

  lemma {:induction false} KeyCount<K>(es: seq<Entry<K>>, keys: set<K>)
    requires DistinctKeys(es) && forall i :: 0 <= i < |es| ==> es[i].key in keys
    ensures |es| <= |keys|
  {
    if es != [] {
      var last := es[|es| - 1];
      KeyCount(es[..|es| - 1], keys - {last.key});
    }
  }

  lemma UsedSince<K>(log: seq<K>, t: int, key: K, other: K)
    requires -1 <= t < LastUse(log, other) && other != key
    ensures LastUse(log, other) < |log| && other in OthersSince(log, t, key)
  {
    var u := LastUse(log, other);
    LastUseIs(log, other);
    assert log[t + 1..][u - (t + 1)] == other;
  }

  /** The entry pushed out at the front has as many more recently used keys as there are entries left. */
  lemma PushedOut<K>(es: seq<Entry<K>>, log: seq<K>)
    requires es != [] && DistinctKeys(es) && ByRecency(es, log)
    ensures var t := LastUse(log, es[0].key);
            -1 <= t < |log| && |OthersSince(log, t, es[0].key)| >= |es| - 1
  {
    var t := LastUse(log, es[0].key);
    LastUseIs(log, es[0].key);
    var rest := Removed(es, 0);
    RemovedOrdered(es, 0, log);
    RemovedAt(es, 0);
    forall i | 0 <= i < |rest|
      ensures rest[i].key in OthersSince(log, t, es[0].key)
    {
      UsedSince(log, t, es[0].key, rest[i].key);
    }
    KeyCount(rest, OthersSince(log, t, es[0].key));
  }

  lemma OthersGrow<K>(log: seq<K>, k: K, t: int, key: K)
    requires -1 <= t < |log|
    ensures |OthersSince(log, t, key)| <= |OthersSince(log + [k], t, key)|
  {
    assert (log + [k])[t + 1..] == log[t + 1..] + [k];
    var a, b := OthersSince(log, t, key), OthersSince(log + [k], t, key);
    assert a <= b;
    assert b == a + (b - a);
  }

  lemma FoundByKey<K>(es: seq<Entry<K>>, x: Entry<K>)
    requires DistinctKeys(es) && x in es
    ensures Find(es, x.key) < |es| && es[Find(es, x.key)] == x
  {
    var k :| 0 <= k < |es| && es[k] == x;
    assert Find(es, x.key) == k;
  }

  lemma InsertedMembers<K>(es: seq<Entry<K>>, e: Entry<K>, x: Entry<K>)
    requires DistinctKeys(es)
    ensures x in Inserted(es, e) <==> x == e || (x in es && x.key != e.key)
  {
    var i := Find(es, e.key);
    if i < |es| {
      var rest := Removed(es, i);
      RemovedAt(es, i);
      assert x in rest <==> x in es && x != es[i] by {
        if x in es && x != es[i] {
          var k :| 0 <= k < |es| && es[k] == x;
          assert rest[if k < i then k else k - 1] == x;
        }
      }
    }
  }

  /** Building puts the key last whether or not the lookup had moved a dead entry there first. */
  lemma InsertAfterRefresh<K>(es: seq<Entry<K>>, e: Entry<K>)
    requires DistinctKeys(es)
    ensures Inserted(Refreshed(es, e.key), e) == Inserted(es, e)
  {
    var i := Find(es, e.key);
    if i < |es| {
      var rest := Removed(es, i);
      RemovedAt(es, i);
      var moved := rest + [es[i]];
      assert forall k :: 0 <= k < |rest| ==> moved[k].key != e.key;
      assert moved[|rest|].key == e.key;
      assert Find(moved, e.key) == |rest|;
      assert Removed(moved, |rest|) == rest;
    }
  }

  /** The entries after a lookup, before trimming: the key's entry, old or new, is the last one. */
  function Placed<K(==), V>(w: World<K, V>, key: K, made: Option<V>): seq<Entry<K>> {
    var i := Find(w.cache.entries, key);
    match Answer(w, key, made)
    case Hit(id) => Inserted(w.cache.entries, Entry(key, id))
    case Built(id) => Inserted(w.cache.entries, Entry(key, id))
    case Failed => Refreshed(w.cache.entries, key)
  }

  lemma LookupEntries<K, V>(w: World<K, V>, key: K, made: Option<V>)
    requires Entries(w)
    ensures var es := Next(w, Lookup(key, made)).cache.entries;
            es == Trimmed(Placed(w, key, made), w.cache.capacity)
    ensures var placed := Placed(w, key, made);
            && (Answer(w, key, made).Built? ==> |placed| <= w.cache.capacity + 1)
            && (!Answer(w, key, made).Built? ==> |placed| <= w.cache.capacity)
  {
    var es, i := w.cache.entries, Find(w.cache.entries, key);
    RefreshIsInsert(es, key);
    if i < |es| {
      RemovedAt(es, i);
      assert Entry(key, es[i].id) == es[i];
    }
    InsertAfterRefresh(es, Entry(key, w.cache.nextId));
  }

  lemma PlacedOrdered<K, V>(w: World<K, V>, key: K, made: Option<V>)
    requires Entries(w) && ByRecency(w.cache.entries, w.log)
    ensures DistinctKeys(Placed(w, key, made)) && ByRecency(Placed(w, key, made), w.log + [key])
  {
    var es, i := w.cache.entries, Find(w.cache.entries, key);
    match Answer(w, key, made)
    case Hit(id) => LookupKeepsRecency(es, w.log, Entry(key, id));
    case Built(id) => LookupKeepsRecency(es, w.log, Entry(key, id));
    case Failed =>
      RefreshIsInsert(es, key);
      if i < |es| {
        LookupKeepsRecency(es, w.log, es[i]);
      } else {
        forall k | 0 <= k < |es|
          ensures LastUse(w.log + [key], es[k].key) == LastUse(w.log, es[k].key)
        {
          LastUseSnoc(w.log, key, es[k].key);
        }
      }
  }

  lemma LookupKeepsNumbers<K(!new), V>(w: World<K, V>, key: K, made: Option<V>)
    requires Inv(w)
    ensures Numbered(Next(w, Lookup(key, made)))
  {
    var es, i := w.cache.entries, Find(w.cache.entries, key);
    if i < |es| {
      assert Owned(w, es[i]);
    }
  }

  lemma TrimmedOrdered<K>(es: seq<Entry<K>>, capacity: nat, log: seq<K>)
    requires DistinctKeys(es) && ByRecency(es, log)
    ensures var ts := Trimmed(es, capacity);
            |ts| <= capacity && DistinctKeys(ts) && ByRecency(ts, log) && forall x :: x in ts ==> x in es
  {
    var ts := Trimmed(es, capacity);
    var cut := |es| - |ts|;
    forall i, j | 0 <= i < j < |ts|
      ensures ts[i].key != ts[j].key && LastUse(log, ts[i].key) < LastUse(log, ts[j].key)
    {
      assert ts[i] == es[cut + i] && ts[j] == es[cut + j];
    }
    forall i | 0 <= i < |ts|
      ensures LastUse(log, ts[i].key) >= 0 && ts[i] in es
    {
      assert ts[i] == es[cut + i];
    }
  }

  lemma LookupKeepsEntries<K(!new), V>(w: World<K, V>, key: K, made: Option<V>)
    requires Inv(w)
    ensures var w' := Next(w, Lookup(key, made)); Entries(w') && ByRecency(w'.cache.entries, w'.log)
  {
    var w' := Next(w, Lookup(key, made));
    LookupEntries(w, key, made);
    PlacedOrdered(w, key, made);
    TrimmedOrdered(Placed(w, key, made), w.cache.capacity, w'.log);
    assert w'.cache.capacity == w.cache.capacity;
    forall k | 0 <= k < |w'.cache.entries|
      ensures Owned(w', w'.cache.entries[k])
    {
      PlacedOwned(w, key, made, w'.cache.entries[k]);
    }
  }

  lemma PlacedOwned<K(!new), V>(w: World<K, V>, key: K, made: Option<V>, x: Entry<K>)
    requires Inv(w) && x in Placed(w, key, made)
    ensures Owned(Next(w, Lookup(key, made)), x)
  {
    var es, i := w.cache.entries, Find(w.cache.entries, key);
    assert x in es ==> Owned(w, x);
    match Answer(w, key, made)
    case Hit(id) => InsertedMembers(es, Entry(key, id), x);
    case Built(id) => InsertedMembers(es, Entry(key, id), x);
    case Failed =>
      RefreshIsInsert(es, key);
      if i < |es| {
        InsertedMembers(es, es[i], x);
      }
  }

  /** A living value of another key keeps its slot until trimming. */
  lemma OthersPlaced<K(!new), V>(w: World<K, V>, key: K, made: Option<V>, id: nat)
    requires Inv(w) && id in w.alive
    requires Answer(w, key, made) != Hit(id)
    ensures Entry(w.keyOf[id], id) in Placed(w, key, made) <==> InCache(w, id)
    ensures InCache(w, id) ==> w.keyOf[id] != key
  {
    var es, i, x := w.cache.entries, Find(w.cache.entries, key), Entry(w.keyOf[id], id);
    if x in es {
      FoundByKey(es, x);
    }
    match Answer(w, key, made)
    case Hit(h) => InsertedMembers(es, Entry(key, h), x);
    case Built(h) => InsertedMembers(es, Entry(key, h), x);
    case Failed =>
      RefreshIsInsert(es, key);
      if i < |es| {
        InsertedMembers(es, es[i], x);
      }
  }

  /** Trimming drops nothing, or exactly the least recently used entry. */
  lemma TrimDropsOldest<K>(es: seq<Entry<K>>, capacity: nat, x: Entry<K>)
    requires DistinctKeys(es) && |es| <= capacity + 1 && x in es
    ensures x in Trimmed(es, capacity) <==> !(|es| == capacity + 1 && x == es[0])
  {
    if |es| == capacity + 1 {
      assert Trimmed(es, capacity) == es[1..];
      var k :| 0 <= k < |es| && es[k] == x;
      if k > 0 {
        assert es[1..][k - 1] == x;
      }
    }
  }

  /** A value that was just returned, or kept its place through the lookup, stays unless it is the oldest of too many. */
  lemma PlacedFate<K(!new), V>(w: World<K, V>, key: K, made: Option<V>, id: nat)
    requires Inv(w)
    requires var w' := Next(w, Lookup(key, made));
             && id in w'.keyOf && id in w'.touched && Entry(w'.keyOf[id], id) in Placed(w, key, made)
             && w'.touched[id] == LastUse(w'.log, w'.keyOf[id])
    ensures Fate(Next(w, Lookup(key, made)), id)
  {
    var w' := Next(w, Lookup(key, made));
    var placed, x := Placed(w, key, made), Entry(w'.keyOf[id], id);
    LookupEntries(w, key, made);
    PlacedOrdered(w, key, made);
    TrimDropsOldest(placed, w.cache.capacity, x);
    LastUseIs(w'.log, x.key);
    if x !in w'.cache.entries {
      PushedOut(placed, w'.log);
    }
  }

  lemma AnsweredFate<K(!new), V>(w: World<K, V>, key: K, made: Option<V>)
    requires Inv(w) && !Answer(w, key, made).Failed?
    ensures var w', id := Next(w, Lookup(key, made)), Answer(w, key, made).id;
            id in w'.keyOf && id in w'.touched && Fate(w', id)
  {
    var id := Answer(w, key, made).id;
    LookupReturns(w, key, made);
    LookupKeepsNumbers(w, key, made);
    InsertedMembers(w.cache.entries, Entry(key, id), Entry(key, id));
    LastUseSnoc(w.log, key, key);
    PlacedFate(w, key, made, id);
  }

  /** A value that has lost its slot does not get it back. */
  lemma AbsentFate<K(!new), V>(w: World<K, V>, key: K, made: Option<V>, id: nat)
    requires Inv(w) && id in w.alive && Answer(w, key, made) != Hit(id) && !InCache(w, id)
    ensures Entry(w.keyOf[id], id) !in Next(w, Lookup(key, made)).cache.entries
  {
    OthersPlaced(w, key, made, id);
    LookupEntries(w, key, made);
    TrimmedFrom(Placed(w, key, made), w.cache.capacity, Entry(w.keyOf[id], id));
  }

  /** A lookup that does not return a value leaves what is known of it. */
  lemma UnansweredKnown<K(!new), V>(w: World<K, V>, key: K, made: Option<V>, id: nat)
    requires Inv(w) && id in w.alive && Answer(w, key, made) != Hit(id)
    ensures var w' := Next(w, Lookup(key, made));
            id in w'.keyOf && id in w'.touched && w'.keyOf[id] == w.keyOf[id] && w'.touched[id] == w.touched[id]
  {
    LookupReturns(w, key, made);
    LookupKeepsNumbers(w, key, made);
  }

  lemma UnansweredFate<K(!new), V>(w: World<K, V>, key: K, made: Option<V>, id: nat)
    requires Inv(w) && id in w.alive && Answer(w, key, made) != Hit(id)
    ensures var w' := Next(w, Lookup(key, made)); id in w'.keyOf && id in w'.touched && Fate(w', id)
  {
    assert Fate(w, id);
    UnansweredKnown(w, key, made, id);
    if InCache(w, id) {
      OthersPlaced(w, key, made, id);
      LastUseSnoc(w.log, key, w.keyOf[id]);
      PlacedFate(w, key, made, id);
    } else {
      AbsentFate(w, key, made, id);
      OthersGrow(w.log, key, w.touched[id], w.keyOf[id]);
    }
  }

  lemma TrimmedFrom<K>(es: seq<Entry<K>>, capacity: nat, x: Entry<K>)
    ensures x in Trimmed(es, capacity) ==> x in es
  {
  }

  lemma LookupFate<K(!new), V>(w: World<K, V>, key: K, made: Option<V>, id: nat)
    requires Inv(w) && id in Next(w, Lookup(key, made)).alive
    ensures var w' := Next(w, Lookup(key, made)); id in w'.keyOf && id in w'.touched && Fate(w', id)
  {
    var got := Answer(w, key, made);
    if !got.Failed? && got.id == id {
      AnsweredFate(w, key, made);
    } else {
      UnansweredFate(w, key, made, id);
    }
  }

  lemma NextKeepsInv<K(!new), V>(w: World<K, V>, e: Event<K, V>)
    requires Inv(w) && Enabled(w, e)
    ensures Inv(Next(w, e))
  {
    var w' := Next(w, e);
    match e
    case Lookup(key, made) =>
      LookupKeepsNumbers(w, key, made);
      LookupKeepsEntries(w, key, made);
      forall id | id in w'.alive
        ensures Fate(w', id)
      {
        LookupFate(w, key, made, id);
      }
    case Die(d) =>
      forall id | id in w'.alive
        ensures Fate(w', id)
      {
        assert Fate(w, id);
      }
    case RunEvictor(d) => EvictKeepsInv(w, d);
  }

  /** A late evictor removes the entry of its own value, if it is still there, and nothing else. */
  lemma EvictorRemovesOnlyItsOwn<K(!new), V>(w: World<K, V>, d: nat, x: Entry<K>)
    requires Inv(w) && Enabled(w, RunEvictor(d))
    ensures x in Next(w, RunEvictor(d)).cache.entries <==> x in w.cache.entries && x.id != d
  {
    var es, i := w.cache.entries, Find(w.cache.entries, w.keyOf[d]);
    assert x in es ==> Owned(w, x);
    if i < |es| && es[i].id == d {
      RemovedAt(es, i);
      var rest := Removed(es, i);
      if x in es && x.id != d {
        var k :| 0 <= k < |es| && es[k] == x;
        assert rest[if k < i then k else k - 1] == x;
      }
    }
  }

  lemma EvictKeepsInv<K(!new), V>(w: World<K, V>, d: nat)
    requires Inv(w) && Enabled(w, RunEvictor(d))
    ensures Inv(Next(w, RunEvictor(d)))
  {
    var w' := Next(w, RunEvictor(d));
    var es, i := w.cache.entries, Find(w.cache.entries, w.keyOf[d]);
    if i < |es| && es[i].id == d {
      RemovedOrdered(es, i, w.log);
    }
    forall k | 0 <= k < |w'.cache.entries|
      ensures Owned(w', w'.cache.entries[k])
    {
      EvictorRemovesOnlyItsOwn(w, d, w'.cache.entries[k]);
      assert Owned(w, w'.cache.entries[k]);
    }
    forall id | id in w'.alive
      ensures Fate(w', id)
    {
      assert Fate(w, id);
      EvictorRemovesOnlyItsOwn(w, d, Entry(w.keyOf[id], id));
    }
  }

  lemma {:induction false} RunKeepsInv<K(!new), V>(w: World<K, V>, run: seq<Event<K, V>>)
    requires Inv(w) && Feasible(w, run)
    ensures Inv(After(w, run)) && After(w, run).cache.capacity == w.cache.capacity
    decreases |run|
  {
    if run != [] {
      NextKeepsInv(w, run[0]);
      RunKeepsInv(Next(w, run[0]), run[1..]);
    }
  }

  /** In every run: bounded, one entry a key and a value, and never a dead entry without an evictor to come. */
  lemma EveryRunIsSound<K(!new), V>(capacity: nat, run: seq<Event<K, V>>)
    requires Feasible(Initial(capacity), run)
    ensures var w := After(Initial(capacity), run);
            && |w.cache.entries| <= capacity
            && (forall i, j :: 0 <= i < j < |w.cache.entries| ==>
                  w.cache.entries[i].key != w.cache.entries[j].key && w.cache.entries[i].id != w.cache.entries[j].id)
            && (forall i :: 0 <= i < |w.cache.entries| ==> w.cache.entries[i].id in w.alive || w.cache.entries[i].id in w.evicting)
  {
    RunKeepsInv(Initial(capacity), run);
    var w := After(Initial(capacity), run);
    assert forall i :: 0 <= i < |w.cache.entries| ==> Owned(w, w.cache.entries[i]);
  }

  /**
   The promise of a least-recently-used cache, for every run: a value that is still alive, and
   since whose last use fewer other keys than the capacity were looked up, is returned by the next
   lookup of its key; nothing is rebuilt.
   */
  lemma RecentlyUsedIsHit<K(!new), V>(capacity: nat, run: seq<Event<K, V>>, id: nat, made: Option<V>)
    requires Feasible(Initial(capacity), run)
    requires var w := After(Initial(capacity), run);
             && id in w.alive && id in w.keyOf && id in w.touched && w.touched[id] < |w.log|
             && |OthersSince(w.log, w.touched[id], w.keyOf[id])| < capacity
    ensures var w := After(Initial(capacity), run);
            && Answer(w, w.keyOf[id], made) == Hit(id)
            && Next(w, Lookup(w.keyOf[id], made)).valueOf == w.valueOf
            && Next(w, Lookup(w.keyOf[id], made)).cache.nextId == w.cache.nextId
  {
    RunKeepsInv(Initial(capacity), run);
    var w := After(Initial(capacity), run);
    assert Fate(w, id) && InCache(w, id);
    var es := w.cache.entries;
    FoundByKey(es, Entry(w.keyOf[id], id));
  }

  /** A living value loses its slot only as the least recently used one of a full cache, to a value just built. */
  lemma LiveSlotLostOnlyToLru<K(!new), V>(w: World<K, V>, e: Event<K, V>, id: nat)
    requires Inv(w) && Enabled(w, e) && id in w.alive && InCache(w, id)
    requires id in Next(w, e).alive && id in Next(w, e).keyOf && !InCache(Next(w, e), id)
    ensures e.Lookup? && Answer(w, e.key, e.made).Built?
    ensures |w.cache.entries| == w.cache.capacity && w.cache.entries[0] == Entry(w.keyOf[id], id)
  {
    match e
    case Lookup(key, made) => SlotLostByLookup(w, key, made, id);
    case Die(d) =>
    case RunEvictor(d) => EvictorRemovesOnlyItsOwn(w, d, Entry(w.keyOf[id], id));
  }

  lemma SlotLostByLookup<K(!new), V>(w: World<K, V>, key: K, made: Option<V>, id: nat)
    requires Inv(w) && id in w.alive && InCache(w, id)
    requires Entry(w.keyOf[id], id) !in Next(w, Lookup(key, made)).cache.entries
    ensures Answer(w, key, made).Built?
    ensures |w.cache.entries| == w.cache.capacity && w.cache.entries[0] == Entry(w.keyOf[id], id)
  {
    var x, placed := Entry(w.keyOf[id], id), Placed(w, key, made);
    LookupEntries(w, key, made);
    PlacedOrdered(w, key, made);
    if Answer(w, key, made) == Hit(id) {
      assert Owned(w, x);
      InsertedMembers(w.cache.entries, Entry(key, id), x);
    } else {
      OthersPlaced(w, key, made, id);
    }
    TrimDropsOldest(placed, w.cache.capacity, x);
  }

  /** What a lookup returns was built for the key that was looked up; what it builds is what was made. */
  lemma LookupReturns<K(!new), V>(w: World<K, V>, key: K, made: Option<V>)
    requires Inv(w)
    ensures var w', got := Next(w, Lookup(key, made)), Answer(w, key, made);
            && (got.Hit? ==> got.id in w.keyOf && w.keyOf[got.id] == key && got.id in w.alive
                             && w'.keyOf == w.keyOf && w'.valueOf == w.valueOf)
            && (got.Built? ==> made.Some? && got.id !in w.keyOf
                               && w'.keyOf == w.keyOf[got.id := key] && w'.valueOf == w.valueOf[got.id := made.value])
            && (got.Failed? ==> made.None? && w'.keyOf == w.keyOf && w'.valueOf == w.valueOf)
  {
    var es, i := w.cache.entries, Find(w.cache.entries, key);
    if i < |es| {
      assert Owned(w, es[i]);
    }
  }

  /** What one lookup returned, the next lookup of the key returns again. */
  lemma LookupThenHit<K(!new), V>(w: World<K, V>, key: K, made: Option<V>, made': Option<V>)
    requires Inv(w) && w.cache.capacity > 0 && !Answer(w, key, made).Failed?
    ensures Answer(Next(w, Lookup(key, made)), key, made') == Hit(Answer(w, key, made).id)
  {
    var w', id := Next(w, Lookup(key, made)), Answer(w, key, made).id;
    NextKeepsInv(w, Lookup(key, made));
    LookupReturns(w, key, made);
    AnsweredFate(w, key, made);
    NothingSince(w.log, key);
    assert InCache(w', id);
    FoundByKey(w'.cache.entries, Entry(key, id));
  }

  lemma NothingSince<K>(log: seq<K>, key: K)
    ensures OthersSince(log + [key], |log|, key) == {}
  {
    assert (log + [key])[|log| + 1..] == [];
  }
}
