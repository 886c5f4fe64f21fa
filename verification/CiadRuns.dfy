/**
 A concurrency limiter under every interleaving of its atomic steps.  A request is one thread of
 the run; between any two of its steps any other request may take any of its own.
 */
module CiadRuns {
  import opened Options
  import opened Tallies
  import opened CiadSpec
  import Spec = SemaphoreSpec
  import SemaphoreRuns

  type Waker = Spec.Waker

  datatype Phase =
    | Idle                                              // has not asked for a permit
    | Waiting                                           // queued in the semaphore
    | Granted                                           // holds a semaphore permit, not counted in flight yet
    | Live(snapshot: nat, mode: Mode)                   // the caller holds the permit
    | Leaving(snapshot: nat, mode: Mode)                // no longer in flight, limit not read yet
    | Deciding(snapshot: nat, mode: Mode, seen: real)   // about to compare-and-exchange the limit
    | Adjusting(delta: int)                             // limit exchanged, semaphore total not adjusted yet
    | Releasing                                         // about to drop the semaphore permit
    | Done

  datatype Ciad = Ciad(
    sem: Spec.Sem<nat>,
    limit: real,
    inFlight: nat,
    threads: seq<Phase>,
    peak: nat,               // the most requests ever in flight
    updates: seq<Update>,    // updates of the limit in the order of their exchanges
    lostRemovals: nat,       // permits whose removal panicked
    lostAdditions: nat)      // permits whose addition panicked

  function Initial(requests: nat): Ciad {
    Ciad(Spec.Sem(20, 0, []), INITIAL_LIMIT, 0, seq(requests, _ => Idle), 0, [], 0, 0)
  }

  datatype Step =
    | Poll(waker: Waker)
    | Cancel
    | Count
    | Respond(mode: Mode)
    | Leave
    | Load
    | Exchange
    | Adjust
    | Release

  predicate Enabled(c: Ciad, t: nat, e: Step) {
    t < |c.threads| &&
    match e
    case Poll(_) => c.threads[t].Idle? || c.threads[t].Waiting?
    case Cancel => c.threads[t].Idle? || c.threads[t].Waiting?
    case Count => c.threads[t].Granted?
    case Respond(_) => c.threads[t].Live?
    case Leave => c.threads[t].Live? && c.inFlight > 0
    case Load => c.threads[t].Leaving?
    case Exchange => c.threads[t].Deciding? && c.threads[t].seen > 0.0
    case Adjust => c.threads[t].Adjusting?
    case Release => c.threads[t].Releasing? && c.sem.outstanding > 0
  }

  function Move(c: Ciad, t: nat, p: Phase): Ciad
    requires t < |c.threads|
  {
    c.(threads := c.threads[t := p])
  }

  function Exchanged(c: Ciad, t: nat): Ciad
    requires t < |c.threads| && c.threads[t].Deciding? && c.threads[t].seen > 0.0
  {
    var Deciding(snapshot, mode, seen) := c.threads[t];
    var proposal := Proposal(mode, snapshot, seen);
    if proposal.None? then
      Move(c, t, Releasing)
    else if c.limit == seen then
      var delta := proposal.value.Floor - seen.Floor;
      Move(c.(limit := proposal.value, updates := c.updates + [Update(mode, snapshot)]),
           t, if delta == 0 then Releasing else Adjusting(delta))
    else
      Move(c, t, Deciding(snapshot, mode, c.limit))
  }

  function Adjusted(c: Ciad, t: nat): Ciad
    requires t < |c.threads| && c.threads[t].Adjusting?
  {
    var delta := c.threads[t].delta;
    var c' := Move(c, t, Releasing);
    if delta > 0 then
      var o := Spec.Add(c.sem, delta);
      if o.Some? then c'.(sem := o.value.sem) else c'.(lostAdditions := c.lostAdditions + delta)
    else
      var s := Spec.Remove(c.sem, -delta);
      if s.Some? then c'.(sem := s.value) else c'.(lostRemovals := c.lostRemovals - delta)
  }

  function Next(c: Ciad, t: nat, e: Step): Ciad
    requires Enabled(c, t, e)
  {
    match e
    case Poll(waker) =>
      var p := Spec.Poll(c.sem, t, waker);
      Move(c.(sem := p.sem), t, if p.ready then Granted else Waiting)
    case Cancel => Move(c.(sem := Spec.Cancel(c.sem, t).sem), t, Done)
    case Count =>
      var n := c.inFlight + 1;
      Move(c.(inFlight := n, peak := if n > c.peak then n else c.peak), t, Live(n, Ignore))
    case Respond(mode) => Move(c, t, Live(c.threads[t].snapshot, mode))
    case Leave =>
      var Live(snapshot, mode) := c.threads[t];
      Move(c.(inFlight := c.inFlight - 1), t, if mode == Ignore then Releasing else Leaving(snapshot, mode))
    case Load =>
      var Leaving(snapshot, mode) := c.threads[t];
      Move(c, t, Deciding(snapshot, mode, c.limit))
    case Exchange => Exchanged(c, t)
    case Adjust => Adjusted(c, t)
    case Release => Move(c.(sem := Spec.Release(c.sem).sem), t, Done)
  }

  /**
   The phases that a step can lead from and to.  A request carries the snapshot it was counted with and the mode
   of its last response to its exchange, unless the mode is Ignore.
   */
  predicate Moves(e: Step, p: Phase, p': Phase) {
    match e
    case Poll(_) => (p.Idle? || p.Waiting?) && (p'.Granted? || p'.Waiting?)
    case Cancel => (p.Idle? || p.Waiting?) && p'.Done?
    case Count => p.Granted? && p'.Live?
    case Respond(mode) => p.Live? && p' == Live(p.snapshot, mode)
    case Leave => p.Live? && p' == if p.mode == Ignore then Releasing else Leaving(p.snapshot, p.mode)
    case Load => p.Leaving? && p'.Deciding? && p'.snapshot == p.snapshot && p'.mode == p.mode
    case Exchange => p.Deciding? && (p'.Deciding? ==> p'.snapshot == p.snapshot && p'.mode == p.mode)
                     && (p'.Releasing? || p'.Adjusting? || p'.Deciding?)
    case Adjust => p.Adjusting? && p'.Releasing?
    case Release => p.Releasing? && p'.Done?
  }

  lemma NextMoves(c: Ciad, t: nat, e: Step)
    requires Enabled(c, t, e)
    ensures var c' := Next(c, t, e);
            && |c'.threads| == |c.threads|
            && Moves(e, c.threads[t], c'.threads[t])
            && (forall x :: 0 <= x < |c.threads| && x != t ==> c'.threads[x] == c.threads[x])
  {
  }

  // ----- what a thread contributes to the books

  function Holds(p: Phase): int {
    if p.Idle? || p.Waiting? || p.Done? then 0 else 1
  }

  function Counted(p: Phase): int {
    if p.Live? then 1 else 0
  }

  function Added(p: Phase): int {
    if p.Adjusting? && p.delta > 0 then p.delta else 0
  }

  function Removed(p: Phase): int {
    if p.Adjusting? && p.delta < 0 then -p.delta else 0
  }

  function PendingAdds(c: Ciad): int {
    Tally(Added, c.threads)
  }

  function PendingRemoves(c: Ciad): int {
    Tally(Removed, c.threads)
  }

  /** The semaphore's total, corrected by what is still to be applied, is the whole part of the limit. */
  ghost predicate Ledger(c: Ciad) {
    c.sem.total + PendingAdds(c) - PendingRemoves(c) == c.limit.Floor + c.lostRemovals - c.lostAdditions
  }

  ghost predicate Books(c: Ciad) {
    && c.sem.outstanding == Tally(Holds, c.threads)
    && c.inFlight == Tally(Counted, c.threads)
    && Ledger(c)
  }

  /** The semaphore's queue holds exactly the waiting threads. */
  ghost predicate QueueMatches(c: Ciad) {
    forall x: nat :: Spec.Queued(c.sem, x) <==> x < |c.threads| && c.threads[x].Waiting?
  }

  /** The limit is the sequential fold of the exchanges, whatever interleaving produced them. */
  ghost predicate LimitIsFold(c: Ciad) {
    && InRange(c.limit) && c.limit == Fold(INITIAL_LIMIT, c.updates)
    && (forall t :: 0 <= t < |c.threads| && c.threads[t].Deciding? ==> InRange(c.threads[t].seen))
  }

  predicate SawAtMost(p: Phase, peak: nat) {
    (p.Live? || p.Leaving? || p.Deciding?) ==> p.snapshot <= peak
  }

  /** No permit and no update was ever told of more requests in flight than there were at the peak. */
  ghost predicate PeakBounds(c: Ciad) {
    && c.inFlight <= c.peak
    && (forall t :: 0 <= t < |c.threads| ==> SawAtMost(c.threads[t], c.peak))
    && (forall u :: u in c.updates ==> u.snapshot <= c.peak)
  }

  ghost predicate Inv(c: Ciad) {
    && Spec.Inv(c.sem)
    && Books(c)
    && QueueMatches(c)
    && LimitIsFold(c)
    && PeakBounds(c)
  }

  lemma TalliesMove(c: Ciad, t: nat, p: Phase)
    requires t < |c.threads|
    ensures var ts := c.threads[t := p];
            && Tally(Holds, ts) == Tally(Holds, c.threads) - Holds(c.threads[t]) + Holds(p)
            && Tally(Counted, ts) == Tally(Counted, c.threads) - Counted(c.threads[t]) + Counted(p)
            && Tally(Added, ts) == Tally(Added, c.threads) - Added(c.threads[t]) + Added(p)
            && Tally(Removed, ts) == Tally(Removed, c.threads) - Removed(c.threads[t]) + Removed(p)
  {
    TallyUpdate(Holds, c.threads, t, p);
    TallyUpdate(Counted, c.threads, t, p);
    TallyUpdate(Added, c.threads, t, p);
    TallyUpdate(Removed, c.threads, t, p);
  }

  lemma NextKeepsSem(c: Ciad, t: nat, e: Step)
    requires Spec.Inv(c.sem) && Enabled(c, t, e)
    ensures Spec.Inv(Next(c, t, e).sem)
  {
    match e
    case Poll(waker) => Spec.PollKeepsInv(c.sem, t, waker);
    case Cancel => Spec.CancelKeepsInv(c.sem, t);
    case Adjust =>
      var d := c.threads[t].delta;
      Spec.AdjustKeepsInv(c.sem, if d > 0 then d else -d);
    case Release => Spec.AdjustKeepsInv(c.sem, 0);
    case _ =>
  }

  /** How an operation of the semaphore moves its two counters. */
  lemma Counters(s: Spec.Sem<nat>, id: nat, w: Waker)
    ensures var p := Spec.Poll(s, id, w);
            p.sem.total == s.total && p.sem.outstanding == s.outstanding + if p.ready then 1 else 0
    ensures var s' := Spec.Cancel(s, id).sem; s'.total == s.total && s'.outstanding == s.outstanding
  {
  }

  lemma SemStepKeepsBooks(c: Ciad, t: nat, e: Step)
    requires Books(c) && Enabled(c, t, e) && (e.Poll? || e.Cancel? || e.Release?)
    ensures Books(Next(c, t, e))
  {
    TalliesMove(c, t, Next(c, t, e).threads[t]);
    if e.Poll? || e.Cancel? {
      Counters(c.sem, t, if e.Poll? then e.waker else 0);
    }
  }

  lemma LocalStepKeepsBooks(c: Ciad, t: nat, e: Step)
    requires Books(c) && Enabled(c, t, e) && (e.Count? || e.Respond? || e.Leave? || e.Load?)
    ensures Books(Next(c, t, e))
  {
    TalliesMove(c, t, Next(c, t, e).threads[t]);
  }

  lemma ExchangeKeepsBooks(c: Ciad, t: nat)
    requires Books(c) && Enabled(c, t, Exchange)
    ensures Books(Exchanged(c, t))
  {
    TalliesMove(c, t, Exchanged(c, t).threads[t]);
  }

  lemma AdjustKeepsBooks(c: Ciad, t: nat)
    requires Books(c) && Enabled(c, t, Adjust)
    ensures Books(Adjusted(c, t))
  {
    TalliesMove(c, t, Releasing);
  }

  lemma ExchangeKeepsFold(c: Ciad, t: nat)
    requires LimitIsFold(c) && Enabled(c, t, Exchange)
    ensures LimitIsFold(Exchanged(c, t))
  {
    var c' := Exchanged(c, t);
    assert InRange(c.threads[t].seen);
    if c'.updates != c.updates {
      assert c'.updates[..|c'.updates| - 1] == c.updates;
    }
  }

  /** A step queues or unqueues its own thread only. */
  lemma QueuedAfter(c: Ciad, t: nat, e: Step, x: nat)
    requires Spec.DistinctIds(c.sem.queue) && QueueMatches(c) && Enabled(c, t, e)
    ensures var c' := Next(c, t, e); Spec.Queued(c'.sem, x) <==> if x == t then c'.threads[t].Waiting? else Spec.Queued(c.sem, x)
  {
    var c' := Next(c, t, e);
    assert Spec.Queued(c.sem, t) <==> c.threads[t].Waiting?;
    match e
    case Poll(waker) => SemaphoreRuns.PollQueue(c.sem, t, waker, x);
    case Cancel => SemaphoreRuns.CancelQueue(c.sem, t, x);
    case Adjust => SemaphoreRuns.WakeQueue(c.sem.(total := c'.sem.total), x);
    case Release => SemaphoreRuns.WakeQueue(c.sem.(outstanding := c'.sem.outstanding), x);
    case _ =>
  }

  lemma NextKeepsQueue(c: Ciad, t: nat, e: Step)
    requires Spec.DistinctIds(c.sem.queue) && QueueMatches(c) && Enabled(c, t, e)
    ensures QueueMatches(Next(c, t, e))
  {
    forall x: nat {
      QueuedAfter(c, t, e, x);
    }
  }

  lemma NextKeepsBooks(c: Ciad, t: nat, e: Step)
    requires Books(c) && Enabled(c, t, e)
    ensures Books(Next(c, t, e))
  {
    match e
    case Exchange => ExchangeKeepsBooks(c, t);
    case Adjust => AdjustKeepsBooks(c, t);
    case Poll(_) => SemStepKeepsBooks(c, t, e);
    case Cancel => SemStepKeepsBooks(c, t, e);
    case Release => SemStepKeepsBooks(c, t, e);
    case _ => LocalStepKeepsBooks(c, t, e);
  }

  lemma NextKeepsFold(c: Ciad, t: nat, e: Step)
    requires LimitIsFold(c) && Enabled(c, t, e)
    ensures LimitIsFold(Next(c, t, e))
  {
    if e.Exchange? {
      ExchangeKeepsFold(c, t);
    } else {
      assert Next(c, t, e).limit == c.limit && Next(c, t, e).updates == c.updates;
    }
  }

  lemma NextKeepsPeak(c: Ciad, t: nat, e: Step)
    requires PeakBounds(c) && Enabled(c, t, e)
    ensures PeakBounds(Next(c, t, e))
  {
    var c' := Next(c, t, e);
    assert SawAtMost(c.threads[t], c.peak);
    forall x | 0 <= x < |c'.threads|
      ensures SawAtMost(c'.threads[x], c'.peak)
    {
      assert SawAtMost(c.threads[x], c.peak);
    }
  }

  lemma NextKeepsInv(c: Ciad, t: nat, e: Step)
    requires Inv(c) && Enabled(c, t, e)
    ensures Inv(Next(c, t, e))
  {
    NextKeepsSem(c, t, e);
    NextKeepsBooks(c, t, e);
    NextKeepsQueue(c, t, e);
    NextKeepsFold(c, t, e);
    NextKeepsPeak(c, t, e);
  }

  lemma InitialInv(requests: nat)
    ensures Inv(Initial(requests))
  {
    var c := Initial(requests);
    TallyZero(Holds, c.threads);
    TallyZero(Counted, c.threads);
    TallyZero(Added, c.threads);
    TallyZero(Removed, c.threads);
  }

  // ----- runs

  datatype Event = Event(thread: nat, step: Step)

  ghost predicate Feasible(c: Ciad, run: seq<Event>)
    decreases |run|
  {
    run == [] || (Enabled(c, run[0].thread, run[0].step)
                  && Feasible(Next(c, run[0].thread, run[0].step), run[1..]))
  }

  ghost function After(c: Ciad, run: seq<Event>): Ciad
    requires Feasible(c, run)
    decreases |run|
  {
    if run == [] then c else After(Next(c, run[0].thread, run[0].step), run[1..])
  }

  lemma {:induction false} RunKeepsInv(c: Ciad, run: seq<Event>)
    requires Inv(c) && Feasible(c, run)
    ensures Inv(After(c, run))
    decreases |run|
  {
    if run != [] {
      NextKeepsInv(c, run[0].thread, run[0].step);
      RunKeepsInv(Next(c, run[0].thread, run[0].step), run[1..]);
    }
  }

  /** No counter of a running request underflows, and no exchange divides by zero. */
  lemma CountersCover(c: Ciad, t: nat)
    requires Inv(c) && t < |c.threads|
    ensures c.threads[t].Live? ==> Enabled(c, t, Leave)
    ensures c.threads[t].Deciding? ==> Enabled(c, t, Exchange)
    ensures c.threads[t].Releasing? ==> Enabled(c, t, Release)
  {
    TallyAtLeast(Counted, c.threads);
    TallyAtLeast(Holds, c.threads);
  }

  predicate AtRest(c: Ciad) {
    forall t :: 0 <= t < |c.threads| ==> !c.threads[t].Adjusting?
  }

  /**
   In every state of every run: the permit ledger balances, the permits alive are the outstanding
   ones, the in-flight counter counts the live requests, and the limit is the sequential fold of
   the exchanges; at rest, and if nothing panicked, the total is the whole part of the limit.
   */
  lemma EveryRunBalances(requests: nat, run: seq<Event>)
    requires Feasible(Initial(requests), run)
    ensures var c := After(Initial(requests), run);
            && Books(c)
            && InRange(c.limit) && c.limit == Fold(INITIAL_LIMIT, c.updates)
            && (AtRest(c) ==> c.sem.total == c.limit.Floor + c.lostRemovals - c.lostAdditions)
  {
    InitialInv(requests);
    RunKeepsInv(Initial(requests), run);
    var c := After(Initial(requests), run);
    if AtRest(c) {
      TallyZero(Added, c.threads);
      TallyZero(Removed, c.threads);
    }
  }

  /**
   Exactly when a removal underflows: the additions still pending outweigh the whole part of the
   limit, what earlier panics left behind and the other removals still pending.
   */
  lemma RemovalPanicsIff(requests: nat, run: seq<Event>, t: nat)
    requires Feasible(Initial(requests), run)
    requires var c := After(Initial(requests), run);
             t < |c.threads| && c.threads[t].Adjusting? && c.threads[t].delta < 0
    ensures var c := After(Initial(requests), run);
            var n := -c.threads[t].delta;
            && (Spec.Remove(c.sem, n).None? <==>
                PendingAdds(c) > c.limit.Floor + c.lostRemovals - c.lostAdditions + (PendingRemoves(c) - n))
            && PendingRemoves(c) >= n
            && (PendingAdds(c) == 0 && c.lostAdditions == 0 ==> Spec.Remove(c.sem, n).Some?)
  {
    InitialInv(requests);
    RunKeepsInv(Initial(requests), run);
    var c := After(Initial(requests), run);
    TallyAtLeast(Removed, c.threads);
  }

  /** In every run the limit stays near the most requests that were ever in flight at once. */
  lemma LoadBoundsLimit(requests: nat, run: seq<Event>)
    requires Feasible(Initial(requests), run)
    ensures var c := After(Initial(requests), run);
            c.limit <= Max(INITIAL_LIMIT, 10.0 * (c.peak + 1) as real / 9.0 + 1.0)
  {
    InitialInv(requests);
    RunKeepsInv(Initial(requests), run);
    var c := After(Initial(requests), run);
    LimitFollowsLoad(c.updates, c.peak);
  }

  lemma {:induction false} UpdatesGrow(c: Ciad, run: seq<Event>)
    requires Feasible(c, run)
    ensures c.updates <= After(c, run).updates
    decreases |run|
  {
    if run != [] {
      var c' := Next(c, run[0].thread, run[0].step);
      assert c.updates <= c'.updates;
      UpdatesGrow(c', run[1..]);
    }
  }

  /**
   Over any stretch of any run the limit moves by the exchanges of that stretch alone: if all were
   eligible successes its square grew by two to three for each, short of the cap; if all were
   drops it shrank at least geometrically, down to one.
   */
  lemma StretchMovesLimit(requests: nat, before: seq<Event>, stretch: seq<Event>)
    requires Feasible(Initial(requests), before) && Feasible(After(Initial(requests), before), stretch)
    ensures var c := After(Initial(requests), before);
            var c' := After(c, stretch);
            && c.updates <= c'.updates && InRange(c.limit)
            && Moved(c.limit, c'.updates[|c.updates|..], c'.limit)
  {
    var c := After(Initial(requests), before);
    InitialInv(requests);
    RunKeepsInv(Initial(requests), before);
    RunKeepsInv(c, stretch);
    UpdatesGrow(c, stretch);
    LaterUpdatesMove(INITIAL_LIMIT, c.updates, After(c, stretch).updates);
  }

  // ----- what an exchange does

  /**
   One attempt at the exchange: a request that does not count leaves limit, total and history alone; one that
   counts and finds the limit changed tries again with what it found; else the limit is exchanged as
   described, recorded, and the difference of the whole parts is left to be adjusted.
   */
  lemma ExchangeIs(c: Ciad, t: nat)
    requires LimitIsFold(c) && Enabled(c, t, Exchange)
    ensures var d, c' := c.threads[t], Next(c, t, Exchange);
            var u := Update(d.mode, d.snapshot);
            && (!Counts(d.seen, u) ==> c' == Move(c, t, Releasing))
            && (Counts(d.seen, u) && c.limit != d.seen ==> c' == Move(c, t, Deciding(d.snapshot, d.mode, c.limit)))
            && (Counts(d.seen, u) && c.limit == d.seen ==>
                  && Exchanges(c.limit, d.mode, c'.limit) && c'.updates == c.updates + [u] && c'.sem == c.sem
                  && c'.threads[t] == if c'.limit.Floor == c.limit.Floor then Releasing
                                      else Adjusting(c'.limit.Floor - c.limit.Floor))
  {
    var d := c.threads[t];
    assert InRange(d.seen);
    ApplyIs(d.seen, Update(d.mode, d.snapshot));
  }

  /** Every exchange of the history counted, and moved the limit as described. */
  ghost predicate History(updates: seq<Update>) {
    forall i :: 0 <= i < |updates| ==> MovedAt(updates, i)
  }

  ghost predicate MovedAt(updates: seq<Update>, i: nat)
    requires i < |updates|
  {
    var before := Fold(INITIAL_LIMIT, updates[..i]);
    Counts(before, updates[i]) && Exchanges(before, updates[i].mode, Fold(INITIAL_LIMIT, updates[..i + 1]))
  }

  lemma HistoryGrows(updates: seq<Update>, u: Update)
    requires History(updates) && Counts(Fold(INITIAL_LIMIT, updates), u)
    ensures History(updates + [u])
  {
    var all := updates + [u];
    forall i | 0 <= i < |all|
      ensures MovedAt(all, i)
    {
      assert all[..i] == updates[..i];
      if i < |updates| {
        assert MovedAt(updates, i);
        assert all[..i + 1] == updates[..i + 1];
      } else {
        assert updates[..i] == updates && all[..i + 1] == all && all[..|all| - 1] == updates;
        ApplyIs(Fold(INITIAL_LIMIT, updates), u);
      }
    }
  }

  lemma NextKeepsHistory(c: Ciad, t: nat, e: Step)
    requires LimitIsFold(c) && History(c.updates) && Enabled(c, t, e)
    ensures History(Next(c, t, e).updates)
  {
    if e.Exchange? {
      ExchangeIs(c, t);
      var d := c.threads[t];
      if Counts(d.seen, Update(d.mode, d.snapshot)) && c.limit == d.seen {
        HistoryGrows(c.updates, Update(d.mode, d.snapshot));
      }
    }
  }

  lemma {:induction false} RunKeepsHistory(c: Ciad, run: seq<Event>)
    requires Inv(c) && History(c.updates) && Feasible(c, run)
    ensures History(After(c, run).updates)
    decreases |run|
  {
    if run != [] {
      NextKeepsInv(c, run[0].thread, run[0].step);
      NextKeepsHistory(c, run[0].thread, run[0].step);
      RunKeepsHistory(Next(c, run[0].thread, run[0].step), run[1..]);
    }
  }

  /**
   The whole history of the limit, in every run: from twenty, each exchange was a drop or a success with at least
   nine tenths of the limit in flight, and moved the limit by exactly what that calls for.
   */
  lemma EveryExchangeCounts(requests: nat, run: seq<Event>, i: nat)
    requires Feasible(Initial(requests), run) && i < |After(Initial(requests), run).updates|
    ensures var us := After(Initial(requests), run).updates;
            var before, after := Fold(20.0, us[..i]), Fold(20.0, us[..i + 1]);
            Counts(before, us[i]) && Exchanges(before, us[i].mode, after)
    ensures After(Initial(requests), run).limit == Fold(20.0, After(Initial(requests), run).updates)
  {
    InitialInv(requests);
    RunKeepsInv(Initial(requests), run);
    RunKeepsHistory(Initial(requests), run);
    assert MovedAt(After(Initial(requests), run).updates, i);
  }

  /** What a request sees when it is counted: how many are in flight, itself included. */
  lemma SnapshotCountsInFlight(c: Ciad, t: nat)
    requires Books(c) && Enabled(c, t, Count)
    ensures var c' := Next(c, t, Count);
            c'.threads[t].Live? && c'.threads[t].mode == Ignore && c'.threads[t].snapshot == Tally(Counted, c'.threads) >= 1
  {
    TallyUpdate(Counted, c.threads, t, Live(c.inFlight + 1, Ignore));
  }
}
