/**
 The limiter objects: a concurrency limiter over a deficit semaphore, its permits, and the
 two-level limiter of a node.  Interleavings of their atomic steps are in CiadRuns and LimiterRuns;
 here is what one call does, given what other threads store in between.
 */
module Ciad {
  import opened Options
  import opened CiadSpec
  import opened DeficitSemaphore
  import Spec = SemaphoreSpec
  import L = LimiterRuns

  datatype Level = HostLevel | EndpointLevel

  function ModeFor(level: Level, r: Response): Mode {
    if level.HostLevel? then HostMode(r) else EndpointMode(r)
  }

  /** The semaphore after its total follows the limit from `base` to `limit`; `None` is a panic. */
  function Following(s: Spec.Sem<Node?>, base: real, limit: real): Option<Spec.Sem<Node?>> {
    var d := limit.Floor - base.Floor;
    if d > 0 then
      var o := Spec.Add(s, d);
      if o.Some? then Some(o.value.sem) else None
    else if d < 0 then Spec.Remove(s, -d)
    else Some(s)
  }

  /** What other threads do to a limiter: the limit they leave, and the permits they add and remove. */
  datatype Rival = Rival(limit: real, added: nat, removed: nat)

  /** The semaphore after a rival's adjustments; one that panics changes nothing. */
  function Disturb(s: Spec.Sem<Node?>, rival: Rival): Spec.Sem<Node?> {
    var added := Spec.Add(s, rival.added);
    var s' := if added.Some? then added.value.sem else s;
    var removed := Spec.Remove(s', rival.removed);
    if removed.Some? then removed.value else s'
  }

  function Disturbed(s: Spec.Sem<Node?>, rivals: seq<Rival>): Spec.Sem<Node?> {
    if rivals == [] then s else Disturb(Disturbed(s, rivals[..|rivals| - 1]), rivals[|rivals| - 1])
  }

  lemma {:induction false} DisturbedOutstanding(s: Spec.Sem<Node?>, rivals: seq<Rival>)
    ensures Disturbed(s, rivals).outstanding == s.outstanding
  {
    if rivals != [] {
      DisturbedOutstanding(s, rivals[..|rivals| - 1]);
    }
  }

  /** The limit that stands after the rivals. */
  function Found(limit: real, rivals: seq<Rival>): real {
    if rivals == [] then limit else rivals[|rivals| - 1].limit
  }

  lemma NextRival(limit: real, s: Spec.Sem<Node?>, rivals: seq<Rival>, i: nat)
    requires i < |rivals|
    ensures Found(limit, rivals[..i + 1]) == rivals[i].limit
    ensures Disturbed(s, rivals[..i + 1]) == Disturb(Disturbed(s, rivals[..i]), rivals[i])
  {
    assert rivals[..i + 1][..i] == rivals[..i];
  }

  /** The new limit and semaphore of an update that acted on the limit `base` and the semaphore `s`. */
  ghost predicate Updated(mode: Mode, snapshot: nat, base: real, s: Spec.Sem<Node?>, limit: real, s': Spec.Sem<Node?>, ok: bool) {
    && InRange(base)
    && match Proposal(mode, snapshot, base)
       case None => ok && limit == base && s' == s
       case Some(proposed) =>
         && limit == proposed
         && ok == Following(s, base, proposed).Some?
         && s' == if ok then Following(s, base, proposed).value else s
  }

  /** The total follows by the difference of the whole parts, and nothing else moves; a panic is a total out of range. */
  lemma FollowingIs(s: Spec.Sem<Node?>, base: real, limit: real)
    ensures var moved := s.total + limit.Floor - base.Floor;
            && (s.total <= Spec.USIZE_MAX ==> (Following(s, base, limit).Some? <==> 0 <= moved <= Spec.USIZE_MAX))
            && (Following(s, base, limit).Some? ==>
                  && Following(s, base, limit).value.total == moved
                  && Following(s, base, limit).value.outstanding == s.outstanding)
  {
  }

  /**
   An update, in numbers: without a response, or after a success with too few requests in flight, nothing moves; after
   any other success the limit rises cautiously, after a drop it falls to nine tenths; the total follows.
   */
  lemma UpdatedIs(mode: Mode, snapshot: nat, base: real, s: Spec.Sem<Node?>, limit: real, s': Spec.Sem<Node?>, ok: bool)
    requires Updated(mode, snapshot, base, s, limit, s', ok)
    ensures mode == Ignore || (mode == Success && snapshot < (0.9 * base).Floor) ==> ok && limit == base && s' == s
    ensures mode == Dropped || (mode == Success && snapshot >= (0.9 * base).Floor) ==> Exchanges(base, mode, limit)
    ensures s'.outstanding == s.outstanding
    ensures s'.total == if ok then s.total + limit.Floor - base.Floor else s.total
    ensures s.total <= Spec.USIZE_MAX ==> (ok <==> 0 <= s.total + limit.Floor - base.Floor <= Spec.USIZE_MAX)
  {
    ApplyIs(base, Update(mode, snapshot));
    FollowingIs(s, base, limit);
  }

  class CiadLimiter {
    const level: Level
    const semaphore: Semaphore
    var limit: real
    var inFlight: nat

    constructor (level: Level)
      ensures Valid() && this.level == level && limit == INITIAL_LIMIT && inFlight == 0
      ensures fresh(semaphore) && semaphore.view == Spec.Sem(20, 0, []) && semaphore.queue == []
    {
      this.level := level;
      semaphore := new Semaphore(20);
      limit, inFlight := INITIAL_LIMIT, 0;
    }

    ghost predicate Valid()
      reads this, semaphore, semaphore.queue
    {
      semaphore.Valid() && InRange(limit)
    }

    /**
     Runs the compare-and-exchange loop against rivals: `rivals[i]` is what other threads do between this
     call's i-th look at the limit and its exchange.  The call meets the first `met` of them and acts
     on the limit it found last; the semaphore's total follows; `ok` is false on a panic.
     */
    method UpdateLimit(mode: Mode, snapshot: nat, rivals: seq<Rival>) returns (ok: bool, ghost met: nat)
      requires Valid() && forall i :: 0 <= i < |rivals| ==> InRange(rivals[i].limit)
      modifies this`limit, semaphore, semaphore.queue
      ensures Valid() && met <= |rivals| && semaphore.queue == old(semaphore.queue)
      ensures forall i :: 0 <= i < met - 1 ==> rivals[i].limit != Found(old(limit), rivals[..i])
      ensures Updated(mode, snapshot, Found(old(limit), rivals[..met]), Disturbed(old(semaphore.view), rivals[..met]),
                      limit, semaphore.view, ok)
    {
      var oldLimit := limit;
      var i := 0;
      assert rivals[..0] == [];
      while true
        invariant 0 <= i <= |rivals| && InRange(limit) && InRange(oldLimit)
        invariant limit == oldLimit == Found(old(limit), rivals[..i])
        invariant forall k :: 0 <= k < i ==> rivals[k].limit != Found(old(limit), rivals[..k])
        invariant semaphore.Valid() && semaphore.queue == old(semaphore.queue)
        invariant semaphore.view == Disturbed(old(semaphore.view), rivals[..i])
        decreases |rivals| - i
      {
        met := i;
        var proposal := Proposal(mode, snapshot, oldLimit);
        if proposal.None? {
          return true, met;
        }
        ProposalInRange(mode, snapshot, oldLimit);
        if i < |rivals| {
          NextRival(old(limit), old(semaphore.view), rivals, i);
          limit := rivals[i].limit;
          Interfere(rivals[i]);
          i := i + 1;
          met := i;
        }
        if limit == oldLimit {
          limit := proposal.value;
          ok := Follow(oldLimit, proposal.value);
          return;
        }
        oldLimit := limit;
      }
    }

    /** What other threads do to the semaphore. */
    method Interfere(rival: Rival)
      requires Valid()
      modifies semaphore, semaphore.queue
      ensures Valid() && semaphore.queue == old(semaphore.queue)
      ensures semaphore.view == Disturb(old(semaphore.view), rival)
    {
      var _ := semaphore.AddPermits(rival.added);
      var _ := semaphore.RemovePermits(rival.removed);
    }

    method Follow(oldLimit: real, newLimit: real) returns (ok: bool)
      requires Valid()
      modifies semaphore, semaphore.queue
      ensures Valid() && semaphore.queue == old(semaphore.queue)
      ensures ok == Following(old(semaphore.view), oldLimit, newLimit).Some?
      ensures semaphore.view == if ok then Following(old(semaphore.view), oldLimit, newLimit).value
                                else old(semaphore.view)
    {
      var before, after := oldLimit.Floor, newLimit.Floor;
      if after > before {
        ok := semaphore.AddPermits(after - before);
      } else if before > after {
        ok := semaphore.RemovePermits(before - after);
      } else {
        ok := true;
      }
    }

    /** What `acquire` does once the semaphore has granted its permit. */
    method Acquired(permit: Permit) returns (p: CiadPermit)
      requires Valid() && permit.semaphore == semaphore
      modifies this`inFlight
      ensures Valid() && inFlight == old(inFlight) + 1
      ensures fresh(p) && p.limiter == this && p.mode == Ignore && p.inFlightSnapshot == inFlight && p.permit == permit
    {
      inFlight := inFlight + 1;
      p := new CiadPermit(this, inFlight, permit);
    }
  }

  class CiadPermit {
    const limiter: CiadLimiter
    const inFlightSnapshot: nat
    const permit: Permit
    var mode: Mode

    constructor (limiter: CiadLimiter, snapshot: nat, permit: Permit)
      ensures this.limiter == limiter && inFlightSnapshot == snapshot && this.permit == permit && mode == Ignore
    {
      this.limiter, this.inFlightSnapshot, this.permit, this.mode := limiter, snapshot, permit, Ignore;
    }

    method OnResponse(r: Response)
      modifies this`mode
      ensures mode == ModeFor(limiter.level, r)
    {
      mode := if limiter.level.HostLevel? then HostMode(r) else EndpointMode(r);
    }

    /**
     The request leaves the in-flight count, its mode moves the limit it finds among its rivals, the
     total follows, and last the semaphore permit returns, even when following panicked.
     */
    method Drop(rivals: seq<Rival>) returns (ok: bool, ghost met: nat, ghost s: Spec.Sem<Node?>)
      requires limiter.Valid() && limiter.inFlight > 0
      requires permit.semaphore == limiter.semaphore && limiter.semaphore.outstandingPermits > 0
      requires forall i :: 0 <= i < |rivals| ==> InRange(rivals[i].limit)
      modifies limiter, limiter.semaphore, limiter.semaphore.queue
      ensures limiter.Valid() && limiter.inFlight == old(limiter.inFlight) - 1
      ensures limiter.semaphore.queue == old(limiter.semaphore.queue)
      ensures met <= |rivals| && (mode == Ignore ==> met == 0)
      ensures Updated(mode, inFlightSnapshot, Found(old(limiter.limit), rivals[..met]),
                      Disturbed(old(limiter.semaphore.view), rivals[..met]), limiter.limit, s, ok)
      ensures s.outstanding > 0 && limiter.semaphore.view == Spec.Release(s).sem
    {
      limiter.inFlight := limiter.inFlight - 1;
      ok, met := true, 0;
      assert rivals[..0] == [];
      if mode != Ignore {
        ok, met := limiter.UpdateLimit(mode, inFlightSnapshot, rivals);
        DisturbedOutstanding(old(limiter.semaphore.view), rivals[..met]);
      }
      s := limiter.semaphore.view;
      permit.Drop();
    }
  }

  class NodeLimiter {
    const host: CiadLimiter
    var endpoints: map<L.Endpoint, CiadLimiter>

    constructor ()
      ensures fresh(host) && host.Valid() && host.level.HostLevel? && endpoints == map[]
    {
      host := new CiadLimiter(HostLevel);
      endpoints := map[];
    }

    /** The endpoint's limiter: made on first use, the same one ever after. */
    method EndpointLimiter(e: L.Endpoint) returns (c: CiadLimiter)
      modifies this`endpoints
      ensures e in endpoints && endpoints[e] == c
      ensures old(endpoints).Keys <= endpoints.Keys
      ensures forall x :: x in old(endpoints) ==> endpoints[x] == old(endpoints)[x]
      ensures endpoints.Keys == old(endpoints).Keys + {e}
      ensures e !in old(endpoints) ==> fresh(c) && c.Valid() && c.level.EndpointLevel? && c.limit == INITIAL_LIMIT
    {
      if e !in endpoints {
        var made := new CiadLimiter(EndpointLevel);
        endpoints := endpoints[e := made];
      }
      c := endpoints[e];
    }
  }

  /** The pair of permits a request holds. */
  class NodePermit {
    const endpoint: CiadPermit
    const host: CiadPermit

    constructor (endpoint: CiadPermit, host: CiadPermit)
      ensures this.endpoint == endpoint && this.host == host
    {
      this.endpoint, this.host := endpoint, host;
    }

    /** A response moves at most one of the two limits down, and both up or none. */
    method OnResponse(r: Response)
      requires endpoint.limiter.level.EndpointLevel? && host.limiter.level.HostLevel?
      modifies endpoint`mode, host`mode
      ensures endpoint.mode == EndpointMode(r) && host.mode == HostMode(r)
      ensures !(endpoint.mode.Dropped? && host.mode.Dropped?)
      ensures endpoint.mode.Success? <==> host.mode.Success?
    {
      endpoint.OnResponse(r);
      host.OnResponse(r);
    }
  }
}
