/**
 The two-level limiter: a request takes a permit of its endpoint, then one of the host, and gives
 them back in the same order.  Runs interleave the atomic steps of all requests at both levels.
 */
module LimiterRuns {
  import opened Tallies
  import opened CiadSpec
  import C = CiadRuns
  import CiadOverflow
  import Spec = SemaphoreSpec

  datatype Endpoint = Endpoint(method_: string, pattern: string)

  /** `route[r]` is the endpoint of request `r`; the endpoints' limiters are made on first use. */
  datatype Limiter = Limiter(host: C.Ciad, endpoints: map<Endpoint, C.Ciad>, route: seq<Endpoint>)

  function Initial(route: seq<Endpoint>): Limiter {
    Limiter(C.Initial(|route|), map[], route)
  }

  function EndpointOf(l: Limiter, r: nat): C.Ciad
    requires r < |l.route|
  {
    if l.route[r] in l.endpoints then l.endpoints[l.route[r]] else C.Initial(|l.route|)
  }

  predicate Sized(l: Limiter) {
    && |l.host.threads| == |l.route|
    && (forall e :: e in l.endpoints ==> |l.endpoints[e].threads| == |l.route|)
  }

  function EndpointPhase(l: Limiter, r: nat): C.Phase
    requires Sized(l) && r < |l.route|
  {
    EndpointOf(l, r).threads[r]
  }

  datatype Event = AtEndpoint(request: nat, step: C.Step) | AtHost(request: nat, step: C.Step)

  /**
   The order of `Limiter::acquire` and of dropping a `Permit`: the host is asked only by a request
   that holds its endpoint permit; a response is reported only while both are held; the endpoint
   permit is dropped when both are held, or when the request gives up on the host; the host
   permit is dropped after the endpoint's.
   */
  predicate Enabled(l: Limiter, e: Event) {
    Sized(l) && e.request < |l.route| &&
    var r := e.request;
    match e
    case AtEndpoint(_, s) =>
      && C.Enabled(EndpointOf(l, r), r, s)
      && (s.Respond? ==> l.host.threads[r].Live?)
      && (s.Leave? ==> l.host.threads[r].Live? || l.host.threads[r].Done?)
    case AtHost(_, s) =>
      && C.Enabled(l.host, r, s)
      && (s.Poll? || s.Cancel? || s.Respond? ==> EndpointPhase(l, r).Live?)
      && (s.Leave? ==> EndpointPhase(l, r).Done?)
  }

  function Next(l: Limiter, e: Event): Limiter
    requires Enabled(l, e)
  {
    var r := e.request;
    match e
    case AtEndpoint(_, s) => l.(endpoints := l.endpoints[l.route[r] := C.Next(EndpointOf(l, r), r, s)])
    case AtHost(_, s) => l.(host := C.Next(l.host, r, s))
  }

  ghost predicate Feasible(l: Limiter, run: seq<Event>)
    decreases |run|
  {
    run == [] || (Enabled(l, run[0]) && Feasible(Next(l, run[0]), run[1..]))
  }

  ghost function After(l: Limiter, run: seq<Event>): Limiter
    requires Feasible(l, run)
    decreases |run|
  {
    if run == [] then l else After(Next(l, run[0]), run[1..])
  }

  /** Nobody asks the host, or holds a host permit it can still wait with, without the endpoint's. */
  predicate Ordered(endpoint: C.Phase, host: C.Phase) {
    && (host.Waiting? || host.Granted? ==> endpoint.Live?)
    && (endpoint.Idle? || endpoint.Waiting? || endpoint.Granted? ==> host.Idle?)
  }

  ghost predicate Sound(l: Limiter) {
    C.Inv(l.host) && forall e :: e in l.endpoints ==> C.Inv(l.endpoints[e])
  }

  /** A request uses no endpoint but its own, and uses the two levels in order. */
  ghost predicate Routed(l: Limiter) {
    && Sized(l)
    && (forall e, r :: e in l.endpoints && 0 <= r < |l.route| && l.route[r] != e ==> l.endpoints[e].threads[r].Idle?)
    && (forall r :: 0 <= r < |l.route| ==> Ordered(EndpointPhase(l, r), l.host.threads[r]))
  }

  lemma NextKeepsSound(l: Limiter, e: Event)
    requires Sound(l) && Enabled(l, e)
    ensures Sound(Next(l, e))
  {
    C.InitialInv(|l.route|);
    match e
    case AtEndpoint(r, s) => C.NextKeepsInv(EndpointOf(l, r), r, s);
    case AtHost(r, s) => C.NextKeepsInv(l.host, r, s);
  }

  lemma EndpointStepKeepsRouted(l: Limiter, r: nat, s: C.Step)
    requires Routed(l) && Enabled(l, AtEndpoint(r, s))
    ensures Routed(Next(l, AtEndpoint(r, s)))
  {
    var c := EndpointOf(l, r);
    C.NextMoves(c, r, s);
    var c' := C.Next(c, r, s);
    var l' := l.(endpoints := l.endpoints[l.route[r] := c']);
    forall x | 0 <= x < |l.route|
      ensures Ordered(EndpointPhase(l', x), l'.host.threads[x])
    {
      assert Ordered(EndpointPhase(l, x), l.host.threads[x]);
      if l.route[x] == l.route[r] {
        assert EndpointPhase(l', x) == c'.threads[x] && EndpointPhase(l, x) == c.threads[x];
      }
    }
  }

  lemma HostStepKeepsRouted(l: Limiter, r: nat, s: C.Step)
    requires Routed(l) && Enabled(l, AtHost(r, s))
    ensures Routed(Next(l, AtHost(r, s)))
  {
    C.NextMoves(l.host, r, s);
    var host := C.Next(l.host, r, s);
    var l' := l.(host := host);
    forall x | 0 <= x < |l.route|
      ensures Ordered(EndpointPhase(l', x), l'.host.threads[x])
    {
      assert Ordered(EndpointPhase(l, x), l.host.threads[x]);
    }
  }

  lemma NextKeepsRouted(l: Limiter, e: Event)
    requires Routed(l) && Enabled(l, e)
    ensures Routed(Next(l, e)) && Next(l, e).route == l.route
  {
    match e
    case AtEndpoint(r, s) => EndpointStepKeepsRouted(l, r, s);
    case AtHost(r, s) => HostStepKeepsRouted(l, r, s);
  }

  lemma {:induction false} RunKeepsInv(l: Limiter, run: seq<Event>)
    requires Sound(l) && Routed(l) && Feasible(l, run)
    ensures Sound(After(l, run)) && Routed(After(l, run)) && After(l, run).route == l.route
    decreases |run|
  {
    if run != [] {
      NextKeepsSound(l, run[0]);
      NextKeepsRouted(l, run[0]);
      RunKeepsInv(Next(l, run[0]), run[1..]);
    }
  }

  /**
   A throttled endpoint does not lock out the others: in every run, a request that waits for its
   endpoint holds no permit of the host and is not in line for one.
   */
  lemma EndpointWaitersLeaveHostAlone(route: seq<Endpoint>, run: seq<Event>, r: nat)
    requires Feasible(Initial(route), run)
    requires var l := After(Initial(route), run); Sized(l) && r < |l.route| && EndpointPhase(l, r).Waiting?
    ensures var l := After(Initial(route), run); l.host.threads[r].Idle? && !Spec.Queued(l.host.sem, r)
  {
    C.InitialInv(|route|);
    RunKeepsInv(Initial(route), run);
    var l := After(Initial(route), run);
    assert Ordered(EndpointPhase(l, r), l.host.threads[r]);
  }

  // ----- each level on its own

  /** What a run does at the host. */
  ghost function HostRun(run: seq<Event>): seq<C.Event> {
    if run == [] then []
    else if run[0].AtHost? then [C.Event(run[0].request, run[0].step)] + HostRun(run[1..])
    else HostRun(run[1..])
  }

  /** What a run does at one endpoint. */
  ghost function EndpointRun(route: seq<Endpoint>, run: seq<Event>, e: Endpoint): seq<C.Event> {
    if run == [] then []
    else
      var r, rest := run[0].request, EndpointRun(route, run[1..], e);
      if run[0].AtEndpoint? && r < |route| && route[r] == e then [C.Event(r, run[0].step)] + rest else rest
  }

  function At(l: Limiter, e: Endpoint): C.Ciad {
    if e in l.endpoints then l.endpoints[e] else C.Initial(|l.route|)
  }

  ghost predicate Leads(c: C.Ciad, run: seq<C.Event>, c': C.Ciad) {
    C.Feasible(c, run) && C.After(c, run) == c'
  }

  lemma LeadsCons(c: C.Ciad, e: C.Event, run: seq<C.Event>, c': C.Ciad)
    requires C.Enabled(c, e.thread, e.step) && Leads(C.Next(c, e.thread, e.step), run, c')
    ensures Leads(c, [e] + run, c')
  {
    assert ([e] + run)[1..] == run;
  }

  lemma {:induction false} HostLeads(l: Limiter, run: seq<Event>)
    requires Feasible(l, run)
    ensures Leads(l.host, HostRun(run), After(l, run).host)
    decreases |run|
  {
    if run != [] {
      HostLeads(Next(l, run[0]), run[1..]);
      if run[0].AtHost? {
        LeadsCons(l.host, C.Event(run[0].request, run[0].step), HostRun(run[1..]), After(l, run).host);
      }
    }
  }

  lemma {:induction false} EndpointLeads(l: Limiter, run: seq<Event>, e: Endpoint)
    requires Feasible(l, run)
    ensures Leads(At(l, e), EndpointRun(l.route, run, e), At(After(l, run), e))
    decreases |run|
  {
    if run != [] {
      var l' := Next(l, run[0]);
      EndpointLeads(l', run[1..], e);
      if run[0].AtEndpoint? && l.route[run[0].request] == e {
        LeadsCons(At(l, e), C.Event(run[0].request, run[0].step), EndpointRun(l.route, run[1..], e), At(After(l, run), e));
      }
    }
  }

  /**
   Each level is a limiter in its own right: over every run, the host and every endpoint are where the steps taken at them
   lead a single limiter, so that all that is known of every run of one holds at both levels.
   */
  lemma LevelsAreRuns(route: seq<Endpoint>, run: seq<Event>, e: Endpoint)
    requires Feasible(Initial(route), run)
    ensures Leads(C.Initial(|route|), HostRun(run), After(Initial(route), run).host)
    ensures Leads(C.Initial(|route|), EndpointRun(route, run, e), At(After(Initial(route), run), e))
  {
    HostLeads(Initial(route), run);
    EndpointLeads(Initial(route), run, e);
  }

  // ----- a waiting limiter is never stuck

  /**
   Every request is suspended waiting, or finished, or not begun: nobody is running, no limit
   update is pending and no caller holds a `Permit`.
   */
  predicate Suspended(endpoint: C.Phase, host: C.Phase) {
    || (endpoint.Idle? && host.Idle?)
    || (endpoint.Waiting? && host.Idle?)
    || (endpoint.Live? && host.Waiting?)
    || (endpoint.Done? && (host.Idle? || host.Done?))
  }

  ghost predicate Quiet(l: Limiter)
    requires Sized(l)
  {
    forall r :: 0 <= r < |l.route| ==> Suspended(EndpointPhase(l, r), l.host.threads[r])
  }

  /** No addition of permits ever overflowed the machine's word. */
  ghost predicate NoOverflow(l: Limiter) {
    l.host.lostAdditions == 0 && forall e :: e in l.endpoints ==> l.endpoints[e].lostAdditions == 0
  }

  ghost predicate Fits(l: Limiter) {
    CiadOverflow.Safe(l.host) && forall e :: e in l.endpoints ==> CiadOverflow.Safe(l.endpoints[e])
  }

  lemma NextKeepsFits(l: Limiter, e: Event)
    requires Sound(l) && Fits(l) && Enabled(l, e)
    ensures Fits(Next(l, e))
  {
    C.InitialInv(|l.route|);
    CiadOverflow.InitialSafe(|l.route|);
    match e
    case AtEndpoint(r, s) => CiadOverflow.NextKeepsSafe(EndpointOf(l, r), r, s);
    case AtHost(r, s) => CiadOverflow.NextKeepsSafe(l.host, r, s);
  }

  lemma {:induction false} RunKeepsFits(l: Limiter, run: seq<Event>)
    requires Sound(l) && Fits(l) && Feasible(l, run)
    ensures Fits(After(l, run))
    decreases |run|
  {
    if run != [] {
      NextKeepsSound(l, run[0]);
      NextKeepsFits(l, run[0]);
      RunKeepsFits(Next(l, run[0]), run[1..]);
    }
  }

  /** Fewer than some eighteen million million requests never overflow a semaphore. */
  lemma FewNeverOverflow(route: seq<Endpoint>, run: seq<Event>)
    requires Feasible(Initial(route), run) && CiadOverflow.Few(|route|)
    ensures NoOverflow(After(Initial(route), run))
  {
    C.InitialInv(|route|);
    CiadOverflow.InitialSafe(|route|);
    RunKeepsFits(Initial(route), run);
    RunKeepsInv(Initial(route), run);
  }

  /** The head of the queue has been woken, and its next poll takes a permit. */
  ghost predicate HeadCanRun(c: C.Ciad) {
    && c.sem.queue != []
    && c.sem.queue[0].waker.None?
    && (forall w :: Spec.Poll(c.sem, c.sem.queue[0].id, w).ready)
  }

  /** A limiter nobody holds a permit of has a permit to give, and has told the first in line. */
  lemma UnheldLimiterServes(c: C.Ciad, t: nat)
    requires C.Inv(c) && c.lostAdditions == 0 && t < |c.threads| && c.threads[t].Waiting?
    requires forall x :: 0 <= x < |c.threads| ==> c.threads[x].Idle? || c.threads[x].Waiting? || c.threads[x].Done?
    ensures HeadCanRun(c)
  {
    TallyZero(C.Holds, c.threads);
    TallyZero(C.Added, c.threads);
    TallyZero(C.Removed, c.threads);
    assert c.limit.Floor >= 1;
    assert Spec.Queued(c.sem, t);
    forall w
      ensures Spec.Poll(c.sem, c.sem.queue[0].id, w).ready
    {
      Spec.PollHead(c.sem, w);
    }
  }

  /**
   Never stuck: in every state of every run in which all requests are suspended, if any request
   waits for its endpoint or for the host, then some waiter has been woken and its next poll is granted.
   */
  lemma NeverStuck(route: seq<Endpoint>, run: seq<Event>, r: nat)
    requires Feasible(Initial(route), run)
    requires var l := After(Initial(route), run);
             && Sized(l) && Quiet(l) && (CiadOverflow.Few(|route|) || NoOverflow(l))
             && r < |l.route| && (EndpointPhase(l, r).Waiting? || l.host.threads[r].Waiting?)
    ensures var l := After(Initial(route), run);
            HeadCanRun(l.host) || exists e :: e in l.endpoints && HeadCanRun(l.endpoints[e])
  {
    C.InitialInv(|route|);
    RunKeepsInv(Initial(route), run);
    if CiadOverflow.Few(|route|) {
      FewNeverOverflow(route, run);
    }
    var l := After(Initial(route), run);
    if x :| 0 <= x < |l.route| && l.host.threads[x].Waiting? {
      forall y | 0 <= y < |l.host.threads|
        ensures l.host.threads[y].Idle? || l.host.threads[y].Waiting? || l.host.threads[y].Done?
      {
        assert Suspended(EndpointPhase(l, y), l.host.threads[y]);
      }
      UnheldLimiterServes(l.host, x);
    } else {
      var e := l.route[r];
      assert e in l.endpoints;
      var c := l.endpoints[e];
      forall y | 0 <= y < |c.threads|
        ensures c.threads[y].Idle? || c.threads[y].Waiting? || c.threads[y].Done?
      {
        if l.route[y] == e {
          assert Suspended(EndpointPhase(l, y), l.host.threads[y]);
        }
      }
      UnheldLimiterServes(c, r);
    }
  }
}
