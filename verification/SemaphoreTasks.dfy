/**
 Any number of tasks on one semaphore: the futures and permits they own, as objects that share the
 linked queue.  Every event of a run is carried out on the objects, and the objects follow the run.
 */
module SemaphoreTasks {
  import opened Options
  import opened DeficitSemaphore
  import Spec = SemaphoreSpec
  import Runs = SemaphoreRuns

  type Nodes = map<Runs.Future, Node?>

  /** The object's state is the run's, every queued future being known by its node. */
  ghost predicate Named(s: Spec.Sem<Node?>, t: Spec.Sem<Runs.Future>, nodeOf: Nodes) {
    && s.total == t.total && s.outstanding == t.outstanding && |s.queue| == |t.queue|
    && (forall i {:trigger s.queue[i]} {:trigger t.queue[i]} :: 0 <= i < |t.queue| ==>
          && t.queue[i].id in nodeOf && nodeOf[t.queue[i].id] == s.queue[i].id
          && s.queue[i].waker == t.queue[i].waker)
  }

  lemma WakeNamed(s: Spec.Sem<Node?>, t: Spec.Sem<Runs.Future>, nodeOf: Nodes)
    requires Named(s, t, nodeOf)
    ensures Named(Spec.MaybeWake(s).sem, Spec.MaybeWake(t).sem, nodeOf)
    ensures Spec.MaybeWake(s).woken == Spec.MaybeWake(t).woken
  {
  }

  /** A poll does the same to a future and to its node. */
  lemma PollNamed(s: Spec.Sem<Node?>, n: Node?, t: Spec.Sem<Runs.Future>, id: Runs.Future, w: Waker, nodeOf: Nodes)
    requires Named(s, t, nodeOf) && id in nodeOf && nodeOf[id] == n
    requires Spec.Position(s.queue, n) == Spec.Position(t.queue, id)
    ensures var p, q := Spec.Poll(s, n, w), Spec.Poll(t, id, w);
            Named(p.sem, q.sem, nodeOf) && p.ready == q.ready && p.woken == q.woken
  {
    if !(s.queue == [] && Spec.HasPermits(s)) {
      var a, b := Spec.Enqueued(s.queue, n), Spec.Enqueued(t.queue, id);
      EnqueuedAt(s.queue, n);
      EnqueuedAt(t.queue, id);
      if Spec.Position(b, id) == 0 && Spec.HasPermits(s) {
        WakeNamed(Spec.Sem(s.total, s.outstanding + 1, a[1..]), Spec.Sem(t.total, t.outstanding + 1, b[1..]), nodeOf);
      }
    }
  }

  lemma EnqueuedAt<T>(q: seq<Spec.Waiter<T>>, id: T)
    ensures Spec.Position(Spec.Enqueued(q, id), id) == Spec.Position(q, id)
  {
    var r := Spec.Enqueued(q, id);
    assert forall i :: 0 <= i < |q| ==> r[i] == q[i];
  }

  lemma CancelNamed(s: Spec.Sem<Node?>, n: Node?, t: Spec.Sem<Runs.Future>, id: Runs.Future, nodeOf: Nodes)
    requires Named(s, t, nodeOf) && Spec.Position(s.queue, n) == Spec.Position(t.queue, id)
    ensures Named(Spec.Cancel(s, n).sem, Spec.Cancel(t, id).sem, nodeOf)
    ensures Spec.Cancel(s, n).woken == Spec.Cancel(t, id).woken
  {
    var i := Spec.Position(t.queue, id);
    if i < |t.queue| {
      var a, b := s.queue[..i] + s.queue[i + 1..], t.queue[..i] + t.queue[i + 1..];
      forall k | 0 <= k < |b|
        ensures b[k].id in nodeOf && nodeOf[b[k].id] == a[k].id && a[k].waker == b[k].waker
      {
        var j := if k < i then k else k + 1;
        assert a[k] == s.queue[j] && b[k] == t.queue[j];
      }
      WakeNamed(s.(queue := a), t.(queue := b), nodeOf);
    }
  }

  /** Names that agree on the queued futures are as good. */
  lemma Renamed(s: Spec.Sem<Node?>, t: Spec.Sem<Runs.Future>, nodeOf: Nodes, nodeOf': Nodes)
    requires Named(s, t, nodeOf)
    requires forall x :: x in nodeOf && Spec.Queued(t, x) ==> x in nodeOf' && nodeOf'[x] == nodeOf[x]
    ensures Named(s, t, nodeOf')
  {
    forall i | 0 <= i < |t.queue|
      ensures t.queue[i].id in nodeOf' && nodeOf'[t.queue[i].id] == s.queue[i].id
    {
      assert Spec.Queued(t, t.queue[i].id);
    }
  }

  /** A future has a node exactly while it waits. */
  ghost predicate OnlyWaiting(t: Spec.Sem<Runs.Future>, nodeOf: Nodes) {
    forall x :: x in nodeOf ==> (nodeOf[x] != null <==> Spec.Queued(t, x))
  }

  /** The queue is the run's queue, and holds exactly the nodes of the waiting futures. */
  ghost predicate Follows(s: Spec.Sem<Node?>, t: Spec.Sem<Runs.Future>, nodeOf: Nodes) {
    Named(s, t, nodeOf) && OnlyWaiting(t, nodeOf) && Spec.DistinctIds(s.queue)
  }

  ghost predicate InQueue(s: Spec.Sem<Node?>, n: Node?) {
    exists i :: 0 <= i < |s.queue| && s.queue[i].id == n
  }

  lemma FoundInQueue(s: Spec.Sem<Node?>, n: Node?)
    ensures Spec.Position(s.queue, n) < |s.queue| ==> InQueue(s, n)
  {
    var i := Spec.Position(s.queue, n);
    if i < |s.queue| {
      assert s.queue[i].id == n;
    }
  }

  lemma QueuedIsNamed(s: Spec.Sem<Node?>, t: Spec.Sem<Runs.Future>, nodeOf: Nodes, id: Runs.Future)
    requires Named(s, t, nodeOf)
    ensures Spec.Queued(t, id) ==> id in nodeOf
  {
    var i := Spec.Position(t.queue, id);
    if i < |t.queue| {
      assert t.queue[i].id in nodeOf;
    }
  }

  /** A future and its node stand at the same place. */
  lemma SamePlace(s: Spec.Sem<Node?>, n: Node?, t: Spec.Sem<Runs.Future>, id: Runs.Future, nodeOf: Nodes)
    requires Follows(s, t, nodeOf) && id in nodeOf
    requires if nodeOf[id] != null then n == nodeOf[id] else !InQueue(s, n)
    ensures Spec.Position(s.queue, n) == Spec.Position(t.queue, id)
  {
    var i := Spec.Position(t.queue, id);
    if i < |t.queue| {
      assert s.queue[i].id == n;
    }
    FoundInQueue(s, n);
  }

  lemma DistinctFutures(s: Spec.Sem<Node?>, t: Spec.Sem<Runs.Future>, nodeOf: Nodes)
    requires Named(s, t, nodeOf) && Spec.DistinctIds(s.queue)
    ensures Spec.DistinctIds(t.queue)
  {
    forall i, j | 0 <= i < j < |t.queue|
      ensures t.queue[i].id != t.queue[j].id
    {
      assert s.queue[i].id != s.queue[j].id;
    }
  }

  /** A new future changes nothing. */
  lemma JoinFollows(s: Spec.Sem<Node?>, t: Spec.Sem<Runs.Future>, nodeOf: Nodes, id: Runs.Future)
    requires Follows(s, t, nodeOf) && id !in nodeOf
    ensures Follows(s, t, nodeOf[id := null])
  {
    QueuedIsNamed(s, t, nodeOf, id);
    Renamed(s, t, nodeOf, nodeOf[id := null]);
  }

  lemma PollKeepsNames(s: Spec.Sem<Node?>, n: Node?, t: Spec.Sem<Runs.Future>, id: Runs.Future, w: Waker, nodeOf: Nodes)
    requires Follows(s, t, nodeOf) && id in nodeOf
    requires if nodeOf[id] != null then n == nodeOf[id] else !InQueue(s, n)
    ensures var p, q := Spec.Poll(s, n, w), Spec.Poll(t, id, w);
            Named(p.sem, q.sem, nodeOf[id := n]) && p.ready == q.ready && p.woken == q.woken
  {
    SamePlace(s, n, t, id, nodeOf);
    Renamed(s, t, nodeOf, nodeOf[id := n]);
    PollNamed(s, n, t, id, w, nodeOf[id := n]);
  }

  lemma PollKeepsWaiting(t: Spec.Sem<Runs.Future>, id: Runs.Future, w: Waker, nodeOf: Nodes, n: Node?)
    requires Spec.DistinctIds(t.queue) && OnlyWaiting(t, nodeOf) && (n != null <==> !Spec.Poll(t, id, w).ready)
    ensures OnlyWaiting(Spec.Poll(t, id, w).sem, nodeOf[id := n])
    ensures Spec.Poll(t, id, w).ready ==> !Spec.Queued(Spec.Poll(t, id, w).sem, id)
  {
    forall x {
      Runs.PollQueue(t, id, w, x);
    }
  }

  lemma PollFollows(s: Spec.Sem<Node?>, n: Node?, t: Spec.Sem<Runs.Future>, id: Runs.Future, w: Waker, nodeOf: Nodes)
    requires Follows(s, t, nodeOf) && id in nodeOf
    requires if nodeOf[id] != null then n == nodeOf[id] else !InQueue(s, n)
    requires Spec.DistinctIds(Spec.Poll(s, n, w).sem.queue)
    ensures var p, q := Spec.Poll(s, n, w), Spec.Poll(t, id, w);
            && p.ready == q.ready && p.woken == q.woken
            && ((p.ready || n != null) ==> Follows(p.sem, q.sem, nodeOf[id := if p.ready then null else n]))
  {
    DistinctFutures(s, t, nodeOf);
    PollKeepsNames(s, n, t, id, w, nodeOf);
    var p, q := Spec.Poll(s, n, w), Spec.Poll(t, id, w);
    var n' := if p.ready then null else n;
    if p.ready || n != null {
      PollKeepsWaiting(t, id, w, nodeOf, n');
      Renamed(p.sem, q.sem, nodeOf[id := n], nodeOf[id := n']);
    }
  }

  lemma CancelFollows(s: Spec.Sem<Node?>, t: Spec.Sem<Runs.Future>, id: Runs.Future, nodeOf: Nodes)
    requires Follows(s, t, nodeOf) && id in nodeOf && !InQueue(s, null)
    requires Spec.DistinctIds(Spec.Cancel(s, nodeOf[id]).sem.queue)
    ensures var o, q := Spec.Cancel(s, nodeOf[id]), Spec.Cancel(t, id);
            o.woken == q.woken && Follows(o.sem, q.sem, nodeOf - {id})
  {
    DistinctFutures(s, t, nodeOf);
    SamePlace(s, nodeOf[id], t, id, nodeOf);
    CancelNamed(s, nodeOf[id], t, id, nodeOf);
    forall x
      ensures Spec.Queued(Spec.Cancel(t, id).sem, x) <==> x != id && Spec.Queued(t, x)
    {
      Runs.CancelQueue(t, id, x);
    }
    Renamed(Spec.Cancel(s, nodeOf[id]).sem, Spec.Cancel(t, id).sem, nodeOf, nodeOf - {id});
  }

  /** Waking the head changes nobody's place. */
  lemma WakeFollows(s: Spec.Sem<Node?>, t: Spec.Sem<Runs.Future>, nodeOf: Nodes)
    requires Follows(s, t, nodeOf)
    ensures Spec.MaybeWake(s).woken == Spec.MaybeWake(t).woken
    ensures Follows(Spec.MaybeWake(s).sem, Spec.MaybeWake(t).sem, nodeOf)
  {
    WakeNamed(s, t, nodeOf);
    forall x
      ensures Spec.Queued(Spec.MaybeWake(t).sem, x) <==> Spec.Queued(t, x)
    {
      Runs.WakeQueue(t, x);
    }
  }

  /** Nor does changing the counters. */
  lemma CountFollows(s: Spec.Sem<Node?>, t: Spec.Sem<Runs.Future>, total: nat, outstanding: nat, nodeOf: Nodes)
    requires Follows(s, t, nodeOf)
    ensures Follows(s.(total := total, outstanding := outstanding), t.(total := total, outstanding := outstanding), nodeOf)
  {
    var t' := t.(total := total, outstanding := outstanding);
    assert forall x :: Spec.Queued(t', x) <==> Spec.Queued(t, x);
  }

  lemma AddFollows(s: Spec.Sem<Node?>, t: Spec.Sem<Runs.Future>, n: nat, nodeOf: Nodes)
    requires Follows(s, t, nodeOf)
    ensures var a, b := Spec.Add(s, n), Spec.Add(t, n);
            a.Some? == b.Some? && (a.Some? ==> a.value.woken == b.value.woken && Follows(a.value.sem, b.value.sem, nodeOf))
  {
    CountFollows(s, t, t.total + n, t.outstanding, nodeOf);
    WakeFollows(s.(total := t.total + n), t.(total := t.total + n), nodeOf);
  }

  lemma RemoveFollows(s: Spec.Sem<Node?>, t: Spec.Sem<Runs.Future>, n: nat, nodeOf: Nodes)
    requires Follows(s, t, nodeOf)
    ensures var a, b := Spec.Remove(s, n), Spec.Remove(t, n);
            a.Some? == b.Some? && (a.Some? ==> Follows(a.value, b.value, nodeOf))
  {
    if n <= t.total {
      CountFollows(s, t, t.total - n, t.outstanding, nodeOf);
    }
  }

  lemma ReleaseFollows(s: Spec.Sem<Node?>, t: Spec.Sem<Runs.Future>, nodeOf: Nodes)
    requires Follows(s, t, nodeOf) && t.outstanding > 0
    ensures Spec.Release(s).woken == Spec.Release(t).woken
    ensures Follows(Spec.Release(s).sem, Spec.Release(t).sem, nodeOf)
  {
    CountFollows(s, t, t.total, t.outstanding - 1, nodeOf);
    WakeFollows(s.(outstanding := t.outstanding - 1), t.(outstanding := t.outstanding - 1), nodeOf);
  }

  /** A poll of one future, in terms of the identities in the queue: its node is its own or is new. */
  method PollNode(f: Acquire, waker: Waker) returns (permit: Permit?, ghost n: Node?)
    requires f.Valid()
    modifies f`node, f.semaphore, f.semaphore.queue
    ensures f.semaphore.Valid() && Spec.DistinctIds(f.semaphore.view.queue)
    ensures if old(f.node) != null then n == old(f.node) else !InQueue(old(f.semaphore.view), n)
    ensures var p := Spec.Poll(old(f.semaphore.view), n, waker);
            && f.semaphore.view == p.sem && f.semaphore.wakes == Log(old(f.semaphore.wakes), p.woken)
            && (permit != null <==> p.ready)
    ensures f.node == (if permit != null then null else n) && (permit == null ==> n != null)
    ensures permit != null ==> permit.semaphore == f.semaphore
    ensures forall i :: 0 <= i < |f.semaphore.queue| ==> f.semaphore.queue[i] in old(f.semaphore.queue) || fresh(f.semaphore.queue[i])
  {
    permit := f.Poll(waker);
    n := if old(f.node) != null then old(f.node) else f.node;
    assert forall i :: 0 <= i < |old(f.semaphore.queue)| ==> old(f.semaphore.view).queue[i].id == old(f.semaphore.queue)[i];
  }

  /** Polling a future's object is polling the future in the run. */
  method PollFollowing(f: Acquire, waker: Waker, ghost t: Spec.Sem<Runs.Future>, ghost id: Runs.Future, ghost nodeOf: Nodes)
    returns (permit: Permit?)
    requires f.Valid() && Follows(f.semaphore.view, t, nodeOf) && id in nodeOf && nodeOf[id] == f.node
    modifies f`node, f.semaphore, f.semaphore.queue
    ensures f.semaphore.Valid()
    ensures var p := Spec.Poll(t, id, waker);
            && Follows(f.semaphore.view, p.sem, nodeOf[id := f.node])
            && (permit != null <==> p.ready) && f.semaphore.wakes == Log(old(f.semaphore.wakes), p.woken)
    ensures permit != null ==> permit.semaphore == f.semaphore
    ensures forall i :: 0 <= i < |f.semaphore.queue| ==> f.semaphore.queue[i] in old(f.semaphore.queue) || fresh(f.semaphore.queue[i])
  {
    ghost var n;
    permit, n := PollNode(f, waker);
    PollFollows(old(f.semaphore.view), n, t, id, waker, nodeOf);
  }

  // ----- all the futures of one semaphore

  ghost function NodeOf(futures: map<Runs.Future, Acquire>): Nodes
    reads futures.Values
  {
    map id | id in futures :: futures[id].node
  }

  /** Every future is its own object and uses this semaphore. */
  ghost predicate Own(semaphore: Semaphore, futures: map<Runs.Future, Acquire>) {
    && (forall id :: id in futures ==> futures[id].semaphore == semaphore)
    && (forall a, b :: a in futures && b in futures && a != b ==> futures[a] != futures[b])
  }

  /** The pointers describe one queue, which holds exactly the waiting futures' nodes and is the run's. */
  ghost predicate Serving(semaphore: Semaphore, futures: map<Runs.Future, Acquire>, t: Spec.Sem<Runs.Future>)
    reads semaphore, semaphore.queue, futures.Values
  {
    semaphore.Valid() && Own(semaphore, futures) && Follows(semaphore.view, t, NodeOf(futures))
  }

  /** The queue holds the node of every waiting future, in the run's order, each once, and no other. */
  lemma QueueIsWaiters(semaphore: Semaphore, futures: map<Runs.Future, Acquire>, t: Spec.Sem<Runs.Future>)
    requires Serving(semaphore, futures, t)
    ensures |semaphore.queue| == |t.queue|
    ensures forall i :: 0 <= i < |t.queue| ==>
              t.queue[i].id in futures && futures[t.queue[i].id].node == semaphore.queue[i]
    ensures forall id :: id in futures && futures[id].node != null ==> futures[id].node in semaphore.queue
    ensures forall a, b :: a in futures && b in futures && a != b && futures[a].node != null ==>
              futures[a].node != futures[b].node
  {
    var nodeOf := NodeOf(futures);
    WaitersInLine(semaphore.view, t, nodeOf);
    assert forall i :: 0 <= i < |t.queue| ==> semaphore.view.queue[i].id == semaphore.queue[i];
    forall id | id in futures && futures[id].node != null
      ensures futures[id].node in semaphore.queue
    {
      var i := Spec.Position(t.queue, id);
      assert nodeOf[id] == semaphore.queue[i];
    }
    forall a, b | a in futures && b in futures && a != b && futures[a].node != null
      ensures futures[a].node != futures[b].node
    {
      assert nodeOf[a] != nodeOf[b];
    }
  }

  /** Every waiting future's node is at the future's place; so no two of them have the same node. */
  lemma WaitersInLine(s: Spec.Sem<Node?>, t: Spec.Sem<Runs.Future>, nodeOf: Nodes)
    requires Follows(s, t, nodeOf)
    ensures forall id :: id in nodeOf && nodeOf[id] != null ==>
              Spec.Position(t.queue, id) < |t.queue| && s.queue[Spec.Position(t.queue, id)].id == nodeOf[id]
    ensures forall a, b :: a in nodeOf && b in nodeOf && a != b && nodeOf[a] != null ==> nodeOf[a] != nodeOf[b]
  {
    forall id | id in nodeOf && nodeOf[id] != null
      ensures Spec.Position(t.queue, id) < |t.queue| && s.queue[Spec.Position(t.queue, id)].id == nodeOf[id]
    {
      assert Spec.Queued(t, id);
    }
    forall a, b | a in nodeOf && b in nodeOf && a != b && nodeOf[a] != null && nodeOf[b] != null
      ensures nodeOf[a] != nodeOf[b]
    {
      var i, j := Spec.Position(t.queue, a), Spec.Position(t.queue, b);
      assert t.queue[i].id == a && t.queue[j].id == b;
      assert i != j;
    }
  }

  lemma Placed(semaphore: Semaphore, futures: map<Runs.Future, Acquire>, t: Spec.Sem<Runs.Future>, id: Runs.Future)
    requires Serving(semaphore, futures, t) && id in futures
    ensures futures[id].Valid()
  {
    QueueIsWaiters(semaphore, futures, t);
  }

  method PollTask(semaphore: Semaphore, futures: map<Runs.Future, Acquire>, id: Runs.Future, waker: Waker,
                  ghost t: Spec.Sem<Runs.Future>)
    returns (permit: Permit?)
    requires Serving(semaphore, futures, t) && id in futures
    modifies semaphore, semaphore.queue, futures[id]
    ensures var p := Spec.Poll(t, id, waker);
            && Serving(semaphore, futures, p.sem)
            && (permit != null <==> p.ready) && semaphore.wakes == Log(old(semaphore.wakes), p.woken)
    ensures permit != null ==> permit.semaphore == semaphore
    ensures forall i :: 0 <= i < |semaphore.queue| ==> semaphore.queue[i] in old(semaphore.queue) || fresh(semaphore.queue[i])
  {
    Placed(semaphore, futures, t, id);
    ghost var nodeOf := NodeOf(futures);
    permit := PollFollowing(futures[id], waker, t, id, nodeOf);
    assert NodeOf(futures) == nodeOf[id := futures[id].node];
  }

  /** Dropping a future's object is dropping the future in the run. */
  method DropFollowing(f: Acquire, ghost t: Spec.Sem<Runs.Future>, ghost id: Runs.Future, ghost nodeOf: Nodes)
    requires f.Valid() && Follows(f.semaphore.view, t, nodeOf) && id in nodeOf && nodeOf[id] == f.node
    modifies f`node, f.semaphore, f.semaphore.queue
    ensures f.semaphore.Valid()
    ensures var o := Spec.Cancel(t, id);
            Follows(f.semaphore.view, o.sem, nodeOf - {id}) && f.semaphore.wakes == Log(old(f.semaphore.wakes), o.woken)
    ensures forall i :: 0 <= i < |f.semaphore.queue| ==> f.semaphore.queue[i] in old(f.semaphore.queue)
  {
    assert !InQueue(f.semaphore.view, null);
    f.Drop();
    assert Spec.DistinctIds(f.semaphore.view.queue);
    CancelFollows(old(f.semaphore.view), t, id, nodeOf);
  }

  method DropTask(semaphore: Semaphore, futures: map<Runs.Future, Acquire>, id: Runs.Future, ghost t: Spec.Sem<Runs.Future>)
    requires Serving(semaphore, futures, t) && id in futures
    modifies semaphore, semaphore.queue, futures[id]
    ensures var o := Spec.Cancel(t, id);
            && Serving(semaphore, futures - {id}, o.sem) && semaphore.wakes == Log(old(semaphore.wakes), o.woken)
    ensures forall i :: 0 <= i < |semaphore.queue| ==> semaphore.queue[i] in old(semaphore.queue)
  {
    Placed(semaphore, futures, t, id);
    ghost var nodeOf := NodeOf(futures);
    DropFollowing(futures[id], t, id, nodeOf);
    assert NodeOf(futures - {id}) == nodeOf - {id};
  }

  /** A future that was not polled yet waits nowhere. */
  method NewTask(semaphore: Semaphore, futures: map<Runs.Future, Acquire>, id: Runs.Future, ghost t: Spec.Sem<Runs.Future>)
    returns (f: Acquire)
    requires Serving(semaphore, futures, t) && id !in futures
    ensures fresh(f) && Serving(semaphore, futures[id := f], t)
  {
    f := new Acquire(semaphore);
    JoinFollows(semaphore.view, t, NodeOf(futures), id);
    assert NodeOf(futures[id := f]) == NodeOf(futures)[id := null];
  }

  method ReleaseTask(semaphore: Semaphore, futures: map<Runs.Future, Acquire>, permit: Permit, ghost t: Spec.Sem<Runs.Future>)
    requires Serving(semaphore, futures, t) && permit.semaphore == semaphore && t.outstanding > 0
    modifies semaphore, semaphore.queue
    ensures Serving(semaphore, futures, Spec.Release(t).sem)
    ensures semaphore.wakes == Log(old(semaphore.wakes), Spec.Release(t).woken) && semaphore.queue == old(semaphore.queue)
  {
    ReleaseFollows(semaphore.view, t, NodeOf(futures));
    permit.Drop();
  }

  method AddTo(semaphore: Semaphore, futures: map<Runs.Future, Acquire>, n: nat, ghost t: Spec.Sem<Runs.Future>) returns (ok: bool)
    requires Serving(semaphore, futures, t)
    modifies semaphore, semaphore.queue
    ensures ok == Spec.Add(t, n).Some? && semaphore.queue == old(semaphore.queue)
    ensures Serving(semaphore, futures, if ok then Spec.Add(t, n).value.sem else t)
    ensures semaphore.wakes == Log(old(semaphore.wakes), if ok then Spec.Add(t, n).value.woken else None)
  {
    AddFollows(semaphore.view, t, n, NodeOf(futures));
    ok := semaphore.AddPermits(n);
  }

  method RemoveFrom(semaphore: Semaphore, futures: map<Runs.Future, Acquire>, n: nat, ghost t: Spec.Sem<Runs.Future>) returns (ok: bool)
    requires Serving(semaphore, futures, t)
    modifies semaphore
    ensures ok == Spec.Remove(t, n).Some? && semaphore.queue == old(semaphore.queue) && semaphore.wakes == old(semaphore.wakes)
    ensures Serving(semaphore, futures, if ok then Spec.Remove(t, n).value else t)
  {
    RemoveFollows(semaphore.view, t, n, NodeOf(futures));
    ok := semaphore.RemovePermits(n);
  }

  // ----- runs

  ghost predicate HoldPermits(semaphore: Semaphore, permits: map<Runs.Future, Permit>, held: set<Runs.Future>) {
    held <= permits.Keys && forall id :: id in permits ==> permits[id].semaphore == semaphore
  }

  /** The tasks' futures after an event: those there were, and perhaps a new one. */
  twostate predicate Grown(semaphore: Semaphore, futures: map<Runs.Future, Acquire>, new futures': map<Runs.Future, Acquire>)
    reads semaphore
  {
    && (forall i :: 0 <= i < |semaphore.queue| ==> semaphore.queue[i] in old(semaphore.queue) || fresh(semaphore.queue[i]))
    && (forall id :: id in futures' ==> (id in futures && futures'[id] == futures[id]) || fresh(futures'[id]))
  }

  method PollEvent(semaphore: Semaphore, futures: map<Runs.Future, Acquire>, permits: map<Runs.Future, Permit>,
                   id: Runs.Future, waker: Waker, ghost w: Runs.World)
    returns (futures': map<Runs.Future, Acquire>, permits': map<Runs.Future, Permit>)
    requires Serving(semaphore, futures, w.sem) && HoldPermits(semaphore, permits, w.held)
    requires Runs.Enabled(w, Runs.PollFuture(id, waker))
    modifies semaphore, semaphore.queue, futures.Values
    ensures var w' := Runs.Next(w, Runs.PollFuture(id, waker));
            Serving(semaphore, futures', w'.sem) && HoldPermits(semaphore, permits', w'.held)
    ensures semaphore.wakes == Log(old(semaphore.wakes), Runs.Woken(w, Runs.PollFuture(id, waker)))
    ensures Grown(semaphore, futures, futures')
  {
    futures', permits' := futures, permits;
    if id !in futures {
      var f := NewTask(semaphore, futures, id, w.sem);
      futures' := futures[id := f];
    }
    var permit := PollTask(semaphore, futures', id, waker, w.sem);
    if permit != null {
      permits' := permits[id := permit];
    }
  }

  method DropEvent(semaphore: Semaphore, futures: map<Runs.Future, Acquire>, id: Runs.Future, ghost w: Runs.World)
    returns (futures': map<Runs.Future, Acquire>)
    requires Serving(semaphore, futures, w.sem) && Runs.Enabled(w, Runs.DropFuture(id))
    modifies semaphore, semaphore.queue, futures.Values
    ensures Serving(semaphore, futures', Runs.Next(w, Runs.DropFuture(id)).sem)
    ensures semaphore.wakes == Log(old(semaphore.wakes), Runs.Woken(w, Runs.DropFuture(id)))
    ensures Grown(semaphore, futures, futures')
  {
    if id in futures {
      DropTask(semaphore, futures, id, w.sem);
      futures' := futures - {id};
    } else {
      futures' := futures;
      NotQueued(semaphore.view, w.sem, NodeOf(futures), id);
    }
  }

  lemma NotQueued(s: Spec.Sem<Node?>, t: Spec.Sem<Runs.Future>, nodeOf: Nodes, id: Runs.Future)
    requires Named(s, t, nodeOf) && id !in nodeOf
    ensures Spec.Cancel(t, id) == Spec.Outcome(t, None)
  {
    QueuedIsNamed(s, t, nodeOf, id);
  }

  /** One event of a run, carried out on the objects. */
  method Step(semaphore: Semaphore, futures: map<Runs.Future, Acquire>, permits: map<Runs.Future, Permit>,
              e: Runs.Event, ghost w: Runs.World)
    returns (futures': map<Runs.Future, Acquire>, permits': map<Runs.Future, Permit>)
    requires Serving(semaphore, futures, w.sem) && HoldPermits(semaphore, permits, w.held) && Runs.Enabled(w, e)
    modifies semaphore, semaphore.queue, futures.Values
    ensures var w' := Runs.Next(w, e);
            Serving(semaphore, futures', w'.sem) && HoldPermits(semaphore, permits', w'.held)
    ensures semaphore.wakes == Log(old(semaphore.wakes), Runs.Woken(w, e))
    ensures Grown(semaphore, futures, futures')
  {
    futures', permits' := futures, permits;
    match e
    case PollFuture(id, waker) =>
      futures', permits' := PollEvent(semaphore, futures, permits, id, waker, w);
    case DropFuture(id) =>
      futures' := DropEvent(semaphore, futures, id, w);
    case DropPermit(id) =>
      ReleaseTask(semaphore, futures, permits[id], w.sem);
      permits' := permits - {id};
    case AddPermits(n) =>
      var _ := AddTo(semaphore, futures, n, w.sem);
    case RemovePermits(n) =>
      var _ := RemoveFrom(semaphore, futures, n, w.sem);
  }

  /** The wakers that a run calls, in order. */
  ghost function Calls(w: Runs.World, run: seq<Runs.Event>): seq<Waker>
    requires Runs.Feasible(w, run)
    decreases |run|
  {
    if run == [] then [] else Log([], Runs.Woken(w, run[0])) + Calls(Runs.Next(w, run[0]), run[1..])
  }

  lemma CallsNext(wakes: seq<Waker>, w: Runs.World, run: seq<Runs.Event>)
    requires Runs.Feasible(w, run) && run != []
    ensures wakes + Calls(w, run) == Log(wakes, Runs.Woken(w, run[0])) + Calls(Runs.Next(w, run[0]), run[1..])
  {
    var woken, rest := Runs.Woken(w, run[0]), Calls(Runs.Next(w, run[0]), run[1..]);
    assert wakes + (Log([], woken) + rest) == (wakes + Log([], woken)) + rest;
    assert wakes + Log([], woken) == Log(wakes, woken);
  }

  /**
   Every run, carried out on the objects from the start: at its end the pointers describe exactly the
   queue of the run, made of the nodes of the futures that wait, and the wakers of the run were called.
   */
  method Run(total: nat, run: seq<Runs.Event>)
    returns (semaphore: Semaphore, futures: map<Runs.Future, Acquire>, permits: map<Runs.Future, Permit>)
    requires Runs.Feasible(Runs.Initial(total), run)
    ensures var w := Runs.After(Runs.Initial(total), run);
            Serving(semaphore, futures, w.sem) && HoldPermits(semaphore, permits, w.held)
    ensures semaphore.wakes == Calls(Runs.Initial(total), run)
  {
    semaphore := new Semaphore(total);
    futures, permits := map[], map[];
    ghost var w := Runs.Initial(total);
    for i := 0 to |run|
      invariant fresh(semaphore) && (forall k :: 0 <= k < |semaphore.queue| ==> fresh(semaphore.queue[k]))
      invariant forall id :: id in futures ==> fresh(futures[id])
      invariant Serving(semaphore, futures, w.sem) && HoldPermits(semaphore, permits, w.held)
      invariant Runs.Feasible(w, run[i..]) && semaphore.wakes + Calls(w, run[i..]) == Calls(Runs.Initial(total), run)
      invariant Runs.After(w, run[i..]) == Runs.After(Runs.Initial(total), run)
    {
      assert run[i..][0] == run[i] && run[i..][1..] == run[i + 1..];
      CallsNext(semaphore.wakes, w, run[i..]);
      futures, permits := Step(semaphore, futures, permits, run[i], w);
      w := Runs.Next(w, run[i]);
    }
  }
}
