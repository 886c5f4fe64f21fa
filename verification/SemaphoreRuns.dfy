/**
 Whole runs of one semaphore: any interleaving of polls, dropped futures, dropped permits and
 adjustments of the total.  The history kept beside the semaphore never influences it.
 */
module SemaphoreRuns {
  import opened Options
  import opened SemaphoreSpec

  /** A future names one acquisition; acquiring again takes a new future. */
  type Future = nat

  datatype Event =
    | PollFuture(id: Future, waker: Waker)
    | DropFuture(id: Future)
    | DropPermit(id: Future)
    | AddPermits(n: nat)
    | RemovePermits(n: nat)

  datatype World = World(
    sem: Sem<Future>,
    arrivals: seq<Future>,   // futures in the order of their first polls
    grants: seq<Future>,     // futures in the order they were granted permits
    cancelled: set<Future>,  // futures dropped before they were granted a permit
    held: set<Future>,       // futures whose permit is alive
    awake: set<Future>,      // futures whose task was woken since they were last polled
    wakerOf: map<Future, Waker>)  // the waker each future was last polled with

  function Initial(total: nat): World {
    World(Sem(total, 0, []), [], [], {}, {}, {}, map[])
  }

  /**
   A completed or dropped future is never polled, a dropped one is never dropped again, and a
   permit is dropped once: the language and the contract of futures see to that.
   */
  predicate Enabled(w: World, e: Event) {
    match e
    case PollFuture(id, _) => id !in w.grants && id !in w.cancelled
    case DropFuture(id) => id !in w.cancelled
    case DropPermit(id) => id in w.held && w.sem.outstanding > 0
    case AddPermits(_) => true
    case RemovePermits(_) => true
  }

  /** The waker that an event calls, if any. */
  function Woken(w: World, e: Event): Option<Waker>
    requires Enabled(w, e)
  {
    match e
    case PollFuture(id, waker) => Poll(w.sem, id, waker).woken
    case DropFuture(id) => Cancel(w.sem, id).woken
    case DropPermit(_) => Release(w.sem).woken
    case AddPermits(n) => var o := Add(w.sem, n); if o.Some? then o.value.woken else None
    case RemovePermits(_) => None
  }

  /** The waiting futures whose task a waker wakes: those last polled with that waker. */
  function Reached(q: seq<Waiter<Future>>, wakerOf: map<Future, Waker>, woken: Option<Waker>): set<Future> {
    set i | 0 <= i < |q| && q[i].id in wakerOf && woken == Some(wakerOf[q[i].id]) :: q[i].id
  }

  function NextSem(w: World, e: Event): Sem<Future>
    requires Enabled(w, e)
  {
    match e
    case PollFuture(id, waker) => Poll(w.sem, id, waker).sem
    case DropFuture(id) => Cancel(w.sem, id).sem
    case DropPermit(_) => Release(w.sem).sem
    // a panic leaves the state as it was
    case AddPermits(n) => var o := Add(w.sem, n); if o.Some? then o.value.sem else w.sem
    case RemovePermits(n) => var s := Remove(w.sem, n); if s.Some? then s.value else w.sem
  }

  function NextWakerOf(w: World, e: Event): map<Future, Waker> {
    if e.PollFuture? then w.wakerOf[e.id := e.waker] else w.wakerOf
  }

  function NextAwake(w: World, e: Event): set<Future>
    requires Enabled(w, e)
  {
    (if e.PollFuture? || e.DropFuture? then w.awake - {e.id} else w.awake)
    + Reached(NextSem(w, e).queue, NextWakerOf(w, e), Woken(w, e))
  }

  function Next(w: World, e: Event): World
    requires Enabled(w, e)
  {
    var w' := w.(sem := NextSem(w, e), awake := NextAwake(w, e), wakerOf := NextWakerOf(w, e));
    match e
    case PollFuture(id, waker) =>
      var ready := Poll(w.sem, id, waker).ready;
      w'.(arrivals := if id in w.arrivals then w.arrivals else w.arrivals + [id],
          grants := if ready then w.grants + [id] else w.grants,
          held := if ready then w.held + {id} else w.held)
    case DropFuture(id) => w'.(cancelled := if id in w.grants then w.cancelled else w.cancelled + {id})
    case DropPermit(id) => w'.(held := w.held - {id})
    case _ => w'
  }

  ghost predicate Feasible(w: World, run: seq<Event>)
    decreases |run|
  {
    run == [] || (Enabled(w, run[0]) && Feasible(Next(w, run[0]), run[1..]))
  }

  ghost function After(w: World, run: seq<Event>): World
    requires Feasible(w, run)
    decreases |run|
  {
    if run == [] then w else After(Next(w, run[0]), run[1..])
  }

  // ----- sequences without some elements

  function Without(s: seq<Future>, gone: set<Future>): seq<Future> {
    if s == [] then [] else
      var front, last := Without(s[..|s| - 1], gone), s[|s| - 1];
      if last in gone then front else front + [last]
  }

  ghost predicate NoDuplicates(s: seq<Future>) {
    forall i, j :: 0 <= i < j < |s| ==> s[i] != s[j]
  }

  lemma {:induction false} WithoutMembers(s: seq<Future>, gone: set<Future>)
    ensures forall x :: x in Without(s, gone) <==> x in s && x !in gone
  {
    if s != [] {
      WithoutMembers(s[..|s| - 1], gone);
      assert s == s[..|s| - 1] + [s[|s| - 1]];
    }
  }

  lemma WithoutSnoc(s: seq<Future>, x: Future, gone: set<Future>)
    ensures Without(s + [x], gone) == if x in gone then Without(s, gone) else Without(s, gone) + [x]
  {
    assert (s + [x])[..|s + [x]| - 1] == s;
  }

  lemma {:induction false} WithoutDuplicates(s: seq<Future>, gone: set<Future>)
    requires NoDuplicates(s)
    ensures NoDuplicates(Without(s, gone))
  {
    if s != [] {
      WithoutDuplicates(s[..|s| - 1], gone);
      WithoutMembers(s[..|s| - 1], gone);
    }
  }

  /** Dropping elements that are not there changes nothing. */
  lemma {:induction false} WithoutAbsent(s: seq<Future>, gone: set<Future>)
    requires forall x :: x in s ==> x !in gone
    ensures Without(s, gone) == s
  {
    if s != [] {
      WithoutAbsent(s[..|s| - 1], gone);
    }
  }

  lemma {:induction false} WithoutConcat(a: seq<Future>, b: seq<Future>, gone: set<Future>)
    ensures Without(a + b, gone) == Without(a, gone) + Without(b, gone)
  {
    if b == [] {
      assert a + b == a;
    } else {
      WithoutConcat(a, b[..|b| - 1], gone);
      assert a + b == a + b[..|b| - 1] + [b[|b| - 1]];
      WithoutSnoc(a + b[..|b| - 1], b[|b| - 1], gone);
    }
  }

  lemma {:induction false} WithoutTwice(s: seq<Future>, gone: set<Future>, more: set<Future>)
    ensures Without(s, gone + more) == Without(Without(s, gone), more)
  {
    if s != [] {
      var front, last := s[..|s| - 1], s[|s| - 1];
      WithoutTwice(front, gone, more);
      WithoutSnoc(Without(front, gone), last, more);
    }
  }

  /** Dropping one element deletes it at its place and keeps the order of the others. */
  lemma WithoutOne(a: seq<Future>, x: Future, b: seq<Future>)
    requires NoDuplicates(a + [x] + b)
    ensures Without(a + [x] + b, {x}) == a + b
  {
    var s := a + [x] + b;
    assert forall i :: 0 <= i < |a| ==> s[i] == a[i];
    assert s[|a|] == x;
    assert forall i :: 0 <= i < |b| ==> s[|a| + 1 + i] == b[i];
    WithoutConcat(a + [x], b, {x});
    WithoutSnoc(a, x, {x});
    WithoutAbsent(a, {x});
    WithoutAbsent(b, {x});
  }

  // ----- the invariant of every run

  /** In line: the futures that were not cancelled, in the order of arrival, are the granted and then the queued. */
  ghost predicate InLine(w: World) {
    NoDuplicates(w.arrivals) && Without(w.arrivals, w.cancelled) == w.grants + Ids(w.sem.queue)
  }

  ghost predicate HeldAreOutstanding(w: World) {
    |w.held| == w.sem.outstanding && forall x :: x in w.held ==> x in w.grants
  }

  /** A waiter without a waker was woken and has not been polled since. */
  ghost predicate WokenAreAwake(q: seq<Waiter<Future>>, awake: set<Future>) {
    forall i :: 0 <= i < |q| && q[i].waker.None? ==> q[i].id in awake
  }

  /** A waiter's waker is the one its future was last polled with. */
  ghost predicate ArmedByTask(q: seq<Waiter<Future>>, wakerOf: map<Future, Waker>) {
    forall i :: 0 <= i < |q| ==> q[i].id in wakerOf && (q[i].waker.Some? ==> q[i].waker.value == wakerOf[q[i].id])
  }

  /** Every waiter can be woken through its own task, or has been. */
  ghost predicate Wakeable(q: seq<Waiter<Future>>, wakerOf: map<Future, Waker>, awake: set<Future>) {
    ArmedByTask(q, wakerOf) && WokenAreAwake(q, awake)
  }

  ghost predicate WorldInv(w: World) {
    && Inv(w.sem)
    && InLine(w)
    && HeldAreOutstanding(w)
    && Wakeable(w.sem.queue, w.wakerOf, w.awake)
  }

  lemma WakeIds(s: Sem<Future>)
    ensures Ids(MaybeWake(s).sem.queue) == Ids(s.queue)
  {
  }

  lemma QueuedIff(w: World, id: Future)
    requires WorldInv(w)
    ensures Queued(w.sem, id) <==> id in Ids(w.sem.queue)
    ensures id in w.grants ==> !Queued(w.sem, id)
    ensures id in w.arrivals && id !in w.grants && id !in w.cancelled ==> Queued(w.sem, id)
    ensures Queued(w.sem, id) ==> id in w.arrivals && id !in w.cancelled
  {
    var ids := Ids(w.sem.queue);
    var live := Without(w.arrivals, w.cancelled);
    WithoutMembers(w.arrivals, w.cancelled);
    assert id in live <==> id in w.grants || id in ids;
    WithoutDuplicates(w.arrivals, w.cancelled);
    var i := Position(w.sem.queue, id);
    if i < |w.sem.queue| {
      assert live[|w.grants| + i] == ids[i] == id;
      assert forall j :: 0 <= j < |w.grants| ==> live[j] == w.grants[j];
    }
  }

  /** Polling never reorders: the polled future joins at the back, and is granted only at the front. */
  lemma PollIds(s: Sem<Future>, id: Future, waker: Waker)
    ensures var p := Poll(s, id, waker);
            var joined := if Queued(s, id) then Ids(s.queue) else Ids(s.queue) + [id];
            if p.ready then [id] + Ids(p.sem.queue) == joined else Ids(p.sem.queue) == joined
  {
    if !(s.queue == [] && HasPermits(s)) {
      var q := Enqueued(s.queue, id);
      var i := Position(q, id);
      assert Ids(q) == if Queued(s, id) then Ids(s.queue) else Ids(s.queue) + [id];
      if i == 0 && HasPermits(s) {
        WakeIds(Sem(s.total, s.outstanding + 1, q[1..]));
        assert [id] + Ids(q[1..]) == Ids(q);
      } else {
        assert Ids(q[i := Waiter(id, Some(waker))]) == Ids(q);
      }
    }
  }

  /** A newcomer stands behind everyone who is still in line. */
  lemma JoinLine(arrivals: seq<Future>, cancelled: set<Future>, grants: seq<Future>, ids: seq<Future>, id: Future)
    requires NoDuplicates(arrivals) && Without(arrivals, cancelled) == grants + ids && id !in arrivals && id !in cancelled
    ensures NoDuplicates(arrivals + [id]) && Without(arrivals + [id], cancelled) == grants + (ids + [id])
  {
    WithoutSnoc(arrivals, id, cancelled);
    Regroup(grants, ids, [id]);
  }

  lemma Regroup(a: seq<Future>, b: seq<Future>, c: seq<Future>)
    ensures a + b + c == a + (b + c)
  {
  }

  lemma PollKeepsOrder(w: World, id: Future, waker: Waker)
    requires WorldInv(w) && Enabled(w, PollFuture(id, waker))
    ensures InLine(Next(w, PollFuture(id, waker)))
  {
    var p := Poll(w.sem, id, waker);
    QueuedIff(w, id);
    PollIds(w.sem, id, waker);
    if id !in w.arrivals {
      JoinLine(w.arrivals, w.cancelled, w.grants, Ids(w.sem.queue), id);
    }
    Regroup(w.grants, [id], Ids(p.sem.queue));
  }

  lemma PollKeepsHeld(w: World, id: Future, waker: Waker)
    requires HeldAreOutstanding(w) && Enabled(w, PollFuture(id, waker))
    ensures HeldAreOutstanding(Next(w, PollFuture(id, waker)))
  {
    assert id !in w.held;
  }

  /** Waking the head calls the waker of its latest poll, so the head is awake. */
  lemma WakeReaches(s: Sem<Future>, wakerOf: map<Future, Waker>, awake: set<Future>)
    requires Wakeable(s.queue, wakerOf, awake)
    ensures var o := MaybeWake(s);
            && Wakeable(o.sem.queue, wakerOf, awake + Reached(o.sem.queue, wakerOf, o.woken))
            && (o.woken.Some? ==> o.sem.queue != [] && o.woken == Some(wakerOf[o.sem.queue[0].id]))
  {
    var o := MaybeWake(s);
    if o.woken.Some? {
      assert o.sem.queue[0].id in Reached(o.sem.queue, wakerOf, o.woken);
    }
  }

  /** What an event that called `woken` must have done: it called the waker of the head's latest poll. */
  ghost predicate CalledHead(q: seq<Waiter<Future>>, wakerOf: map<Future, Waker>, woken: Option<Waker>) {
    woken.Some? ==> q != [] && q[0].id in wakerOf && woken.value == wakerOf[q[0].id]
  }

  ghost predicate WakesRightly(w: World, e: Event)
    requires Enabled(w, e)
  {
    var w' := Next(w, e);
    Wakeable(w'.sem.queue, w'.wakerOf, w'.awake) && CalledHead(w'.sem.queue, w'.wakerOf, Woken(w, e))
  }

  /** Behind the head that is granted, and around the waiter that is armed, the others are as wakeable as they were. */
  lemma PolledWakeable(q: seq<Waiter<Future>>, i: nat, waker: Waker, wakerOf: map<Future, Waker>, awake: set<Future>)
    requires DistinctIds(q) && i < |q| && forall k :: 0 <= k < |q| && k != i ==>
               && q[k].id in wakerOf && (q[k].waker.Some? ==> q[k].waker.value == wakerOf[q[k].id])
               && (q[k].waker.None? ==> q[k].id in awake)
    ensures var id := q[i].id;
            && Wakeable(q[i := Waiter(id, Some(waker))], wakerOf[id := waker], awake - {id})
            && (i == 0 ==> Wakeable(q[1..], wakerOf[id := waker], awake - {id}))
  {
    var id := q[i].id;
    assert forall k :: 0 <= k < |q| && k != i ==> q[k].id != id;
  }

  lemma PollKeepsAwake(w: World, id: Future, waker: Waker)
    requires Inv(w.sem) && Wakeable(w.sem.queue, w.wakerOf, w.awake) && Enabled(w, PollFuture(id, waker))
    ensures WakesRightly(w, PollFuture(id, waker))
  {
    var s := w.sem;
    if !(s.queue == [] && HasPermits(s)) {
      var q := Enqueued(s.queue, id);
      var i := Position(q, id);
      assert DistinctIds(q);
      PolledWakeable(q, i, waker, w.wakerOf, w.awake);
      if i == 0 && HasPermits(s) {
        WakeReaches(Sem(s.total, s.outstanding + 1, q[1..]), w.wakerOf[id := waker], w.awake - {id});
      } else {
        assert Reached(q[i := Waiter(id, Some(waker))], w.wakerOf[id := waker], None) == {};
      }
    }
  }

  lemma PollKeepsWorld(w: World, id: Future, waker: Waker)
    requires WorldInv(w) && Enabled(w, PollFuture(id, waker))
    ensures WorldInv(Next(w, PollFuture(id, waker)))
  {
    PollKeepsInv(w.sem, id, waker);
    PollKeepsOrder(w, id, waker);
    PollKeepsHeld(w, id, waker);
    PollKeepsAwake(w, id, waker);
  }

  lemma CancelIds(s: Sem<Future>, id: Future)
    requires Queued(s, id)
    ensures var i := Position(s.queue, id);
            Ids(Cancel(s, id).sem.queue) == Ids(s.queue)[..i] + Ids(s.queue)[i + 1..]
  {
    var i := Position(s.queue, id);
    var cut := s.queue[..i] + s.queue[i + 1..];
    assert Ids(cut) == Ids(s.queue)[..i] + Ids(s.queue)[i + 1..];
    WakeIds(s.(queue := cut));
  }

  lemma InQueue(s: Sem<Future>, x: Future)
    ensures Queued(s, x) <==> x in Ids(s.queue)
  {
    var i := Position(s.queue, x);
    assert i < |s.queue| ==> Ids(s.queue)[i] == x;
  }

  /** A poll queues the future or grants it; it touches nobody else's place. */
  lemma PollQueue(s: Sem<Future>, id: Future, w: Waker, x: Future)
    requires DistinctIds(s.queue)
    ensures var p := Poll(s, id, w);
            && (x != id ==> (Queued(p.sem, x) <==> Queued(s, x)))
            && (Queued(p.sem, id) <==> !p.ready)
  {
    var p := Poll(s, id, w);
    PollIds(s, id, w);
    InQueue(s, x);
    InQueue(p.sem, x);
    InQueue(s, id);
    InQueue(p.sem, id);
    var ids := Ids(s.queue);
    var joined := if Queued(s, id) then ids else ids + [id];
    assert id in joined && (x != id ==> (x in joined <==> x in ids));
    if p.ready {
      var after := Ids(p.sem.queue);
      assert joined == [id] + after;
      assert forall k :: 1 <= k < |joined| ==> joined[k] == after[k - 1] && joined[k] != joined[0];
    }
  }

  lemma CancelQueue(s: Sem<Future>, id: Future, x: Future)
    requires DistinctIds(s.queue)
    ensures var s' := Cancel(s, id).sem;
            Queued(s', x) <==> x != id && Queued(s, x)
  {
    var s' := Cancel(s, id).sem;
    InQueue(s, x);
    InQueue(s', x);
    if Queued(s, id) {
      CancelIds(s, id);
      CutOut(Ids(s.queue), Position(s.queue, id), x);
    }
  }

  lemma CutOut(ids: seq<Future>, i: nat, x: Future)
    requires i < |ids| && forall a, b :: 0 <= a < b < |ids| ==> ids[a] != ids[b]
    ensures x in ids[..i] + ids[i + 1..] <==> x in ids && x != ids[i]
  {
    assert ids == ids[..i] + [ids[i]] + ids[i + 1..];
  }

  lemma WakeQueue(s: Sem<Future>, x: Future)
    ensures Queued(MaybeWake(s).sem, x) <==> Queued(s, x)
  {
    InQueue(s, x);
    InQueue(MaybeWake(s).sem, x);
    WakeIds(s);
  }

  lemma CancelInLine(arrivals: seq<Future>, cancelled: set<Future>, grants: seq<Future>, ids: seq<Future>, i: nat)
    requires NoDuplicates(arrivals) && Without(arrivals, cancelled) == grants + ids && i < |ids|
    ensures Without(arrivals, cancelled + {ids[i]}) == grants + (ids[..i] + ids[i + 1..])
  {
    WithoutTwice(arrivals, cancelled, {ids[i]});
    WithoutDuplicates(arrivals, cancelled);
    var before, after := grants + ids[..i], ids[i + 1..];
    SplitAt(grants, ids, i);
    WithoutOne(before, ids[i], after);
    Regroup(grants, ids[..i], after);
  }

  lemma SplitAt(a: seq<Future>, b: seq<Future>, i: nat)
    requires i < |b|
    ensures a + b == a + b[..i] + [b[i]] + b[i + 1..]
  {
  }

  lemma DropKeepsOrder(w: World, id: Future)
    requires WorldInv(w) && Enabled(w, DropFuture(id))
    ensures InLine(Next(w, DropFuture(id)))
  {
    QueuedIff(w, id);
    if Queued(w.sem, id) {
      CancelIds(w.sem, id);
      CancelInLine(w.arrivals, w.cancelled, w.grants, Ids(w.sem.queue), Position(w.sem.queue, id));
    } else if id !in w.grants {
      WithoutTwice(w.arrivals, w.cancelled, {id});
      WithoutMembers(w.arrivals, w.cancelled);
      WithoutAbsent(Without(w.arrivals, w.cancelled), {id});
    }
  }

  lemma DropKeepsAwake(w: World, id: Future)
    requires Inv(w.sem) && Wakeable(w.sem.queue, w.wakerOf, w.awake) && Enabled(w, DropFuture(id))
    ensures WakesRightly(w, DropFuture(id))
  {
    var i := Position(w.sem.queue, id);
    if i < |w.sem.queue| {
      var cut := w.sem.queue[..i] + w.sem.queue[i + 1..];
      forall k | 0 <= k < |cut|
        ensures cut[k].id in w.wakerOf && (cut[k].waker.Some? ==> cut[k].waker.value == w.wakerOf[cut[k].id])
        ensures cut[k].waker.None? ==> cut[k].id in w.awake && cut[k].id != id
      {
        assert cut[k] == w.sem.queue[if k < i then k else k + 1];
      }
      WakeReaches(w.sem.(queue := cut), w.wakerOf, w.awake - {id});
    }
  }

  lemma AdjustKeepsAwake(w: World, e: Event)
    requires Wakeable(w.sem.queue, w.wakerOf, w.awake) && Enabled(w, e) && (e.AddPermits? || e.RemovePermits? || e.DropPermit?)
    ensures WakesRightly(w, e)
  {
    match e
    case DropPermit(id) => WakeReaches(w.sem.(outstanding := w.sem.outstanding - 1), w.wakerOf, w.awake);
    case AddPermits(n) => WakeReaches(w.sem.(total := w.sem.total + n), w.wakerOf, w.awake);
    case RemovePermits(n) =>
  }

  lemma DropKeepsWorld(w: World, id: Future)
    requires WorldInv(w) && Enabled(w, DropFuture(id))
    ensures WorldInv(Next(w, DropFuture(id)))
  {
    CancelKeepsInv(w.sem, id);
    DropKeepsOrder(w, id);
    DropKeepsAwake(w, id);
  }

  lemma AdjustKeepsWorld(w: World, e: Event)
    requires WorldInv(w) && Enabled(w, e) && (e.AddPermits? || e.RemovePermits? || e.DropPermit?)
    ensures WorldInv(Next(w, e))
  {
    AdjustKeepsAwake(w, e);
    match e
    case DropPermit(id) => WakeIds(w.sem.(outstanding := w.sem.outstanding - 1));
    case AddPermits(n) => WakeIds(w.sem.(total := w.sem.total + n));
    case RemovePermits(n) =>
  }

  lemma NextKeepsWorld(w: World, e: Event)
    requires WorldInv(w) && Enabled(w, e)
    ensures WorldInv(Next(w, e))
  {
    match e
    case PollFuture(id, waker) => PollKeepsWorld(w, id, waker);
    case DropFuture(id) => DropKeepsWorld(w, id);
    case _ => AdjustKeepsWorld(w, e);
  }

  lemma {:induction false} RunKeepsWorld(w: World, run: seq<Event>)
    requires WorldInv(w) && Feasible(w, run)
    ensures WorldInv(After(w, run))
    decreases |run|
  {
    if run != [] {
      NextKeepsWorld(w, run[0]);
      RunKeepsWorld(Next(w, run[0]), run[1..]);
    }
  }

  /**
   Absolute fairness: in every run the futures that were not dropped before their grant have
   been granted permits in exactly the order of their first polls, and the rest wait in that order.
   */
  lemma AbsolutelyFair(total: nat, run: seq<Event>)
    requires Feasible(Initial(total), run)
    ensures var w := After(Initial(total), run);
            && Without(w.arrivals, w.cancelled) == w.grants + Ids(w.sem.queue)
            && |w.held| == w.sem.outstanding
  {
    RunKeepsWorld(Initial(total), run);
  }

  lemma {:induction false} WithoutKeepsOrder(s: seq<Future>, gone: set<Future>, i: nat, j: nat) returns (a: nat, b: nat)
    requires i < j < |s| && s[i] !in gone && s[j] !in gone
    ensures a < b < |Without(s, gone)| && Without(s, gone)[a] == s[i] && Without(s, gone)[b] == s[j]
  {
    var front := s[..|s| - 1];
    if j < |s| - 1 {
      a, b := WithoutKeepsOrder(front, gone, i, j);
    } else {
      b := |Without(front, gone)|;
      WithoutMembers(front, gone);
      assert front[i] in Without(front, gone);
      a :| 0 <= a < b && Without(front, gone)[a] == front[i];
    }
  }

  /** No overtaking: a granted future never leaves an earlier one, still interested, behind. */
  lemma NoOvertaking(total: nat, run: seq<Event>, i: nat, j: nat)
    requires Feasible(Initial(total), run)
    requires i < j < |After(Initial(total), run).arrivals|
    requires var w := After(Initial(total), run); w.arrivals[i] !in w.cancelled && w.arrivals[j] in w.grants
    ensures var w := After(Initial(total), run);
            exists a, b :: 0 <= a < b < |w.grants| && w.grants[a] == w.arrivals[i] && w.grants[b] == w.arrivals[j]
  {
    var w := After(Initial(total), run);
    RunKeepsWorld(Initial(total), run);
    var a, b := GrantedInOrder(w.arrivals, w.cancelled, w.grants, Ids(w.sem.queue), i, j);
  }

  /** Of two in line, the later one being granted, both are, in order. */
  lemma GrantedInOrder(arrivals: seq<Future>, cancelled: set<Future>, grants: seq<Future>, ids: seq<Future>, i: nat, j: nat)
    returns (a: nat, b: nat)
    requires NoDuplicates(arrivals) && Without(arrivals, cancelled) == grants + ids
    requires i < j < |arrivals| && arrivals[i] !in cancelled && arrivals[j] in grants
    ensures a < b < |grants| && grants[a] == arrivals[i] && grants[b] == arrivals[j]
  {
    var live := grants + ids;
    WithoutDuplicates(arrivals, cancelled);
    WithoutMembers(arrivals, cancelled);
    var k :| 0 <= k < |grants| && grants[k] == arrivals[j];
    assert live[k] == arrivals[j] && arrivals[j] in live;
    a, b := WithoutKeepsOrder(arrivals, cancelled, i, j);
    assert b == k;
    assert grants[a] == live[a];
  }

  /**
   No lost wake-up over whole runs: if a permit is free while futures wait, the task of the first of them has
   been woken and has not polled it since; every other waiter still holds a waker, the one it was last
   polled with.
   */
  lemma NoLostWakeup(total: nat, run: seq<Event>)
    requires Feasible(Initial(total), run)
    ensures var w := After(Initial(total), run);
            && (HasPermits(w.sem) && w.sem.queue != [] ==> w.sem.queue[0].id in w.awake)
            && (forall i :: 0 <= i < |w.sem.queue| ==>
                  && w.sem.queue[i].id in w.wakerOf
                  && (w.sem.queue[i].waker == Some(w.wakerOf[w.sem.queue[i].id])
                      || (i == 0 && w.sem.queue[i].id in w.awake)))
  {
    RunKeepsWorld(Initial(total), run);
  }

  /** Whoever is woken, in any run, is the first in line afterwards, through the waker of its latest poll. */
  lemma WakesTheHead(total: nat, run: seq<Event>, e: Event)
    requires Feasible(Initial(total), run) && Enabled(After(Initial(total), run), e)
    ensures var w := After(Initial(total), run);
            var w' := Next(w, e);
            Woken(w, e).Some? ==>
              && w'.sem.queue != [] && w'.sem.queue[0].id in w'.wakerOf
              && Woken(w, e).value == w'.wakerOf[w'.sem.queue[0].id] && w'.sem.queue[0].id in w'.awake
  {
    RunKeepsWorld(Initial(total), run);
    EventWakesRightly(After(Initial(total), run), e);
  }

  lemma EventWakesRightly(w: World, e: Event)
    requires WorldInv(w) && Enabled(w, e)
    ensures WakesRightly(w, e)
    ensures Woken(w, e).Some? ==> Next(w, e).sem.queue != [] && Next(w, e).sem.queue[0].id in Next(w, e).awake
  {
    match e {
      case PollFuture(id, waker) => PollKeepsAwake(w, id, waker);
      case DropFuture(id) => DropKeepsAwake(w, id);
      case _ => AdjustKeepsAwake(w, e);
    }
    if Woken(w, e).Some? {
      WokenIsReached(NextSem(w, e).queue, NextWakerOf(w, e), Woken(w, e));
    }
  }

  lemma WokenIsReached(q: seq<Waiter<Future>>, wakerOf: map<Future, Waker>, woken: Option<Waker>)
    requires CalledHead(q, wakerOf, woken) && woken.Some?
    ensures q[0].id in Reached(q, wakerOf, woken)
  {
  }

  /** Every live permit can be dropped: the counter of outstanding permits never underflows. */
  lemma LivePermitIsOutstanding(w: World, id: Future)
    requires WorldInv(w) && id in w.held
    ensures Enabled(w, DropPermit(id))
  {
    assert w.held != {};
  }

  /** The deficit, permits alive beyond the total, grows only when the total is lowered. */
  lemma {:induction false} DeficitGrowsOnlyByRemoval(w: World, run: seq<Event>)
    requires Feasible(w, run) && forall i :: 0 <= i < |run| ==> !run[i].RemovePermits?
    ensures Deficit(After(w, run).sem) <= Deficit(w.sem)
    decreases |run|
  {
    if run != [] {
      assert Deficit(Next(w, run[0]).sem) <= Deficit(w.sem);
      DeficitGrowsOnlyByRemoval(Next(w, run[0]), run[1..]);
    }
  }
}
