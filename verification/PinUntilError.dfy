/**
 The pin-until-error selector over periodically reshuffled nodes, under every interleaving of its
 atomic steps.
 */
module PinUntilError {
  import opened Options

  // ----- permutations

  function Range(n: nat): (r: seq<nat>)
    ensures |r| == n && forall i :: 0 <= i < n ==> r[i] == i
  {
    seq(n, i => i)
  }

  /** A shuffle puts the same elements in some order. */
  ghost predicate Shuffled(a: seq<nat>, b: seq<nat>) {
    multiset(a) == multiset(b)
  }

  ghost predicate IsPermutation(s: seq<nat>, n: nat) {
    Shuffled(s, Range(n))
  }

  lemma {:induction false} CountRange(n: nat, x: nat)
    ensures multiset(Range(n))[x] == if x < n then 1 else 0
  {
    if n > 0 {
      CountRange(n - 1, x);
      assert Range(n) == Range(n - 1) + [n - 1];
    }
  }

  lemma TwiceCounted(s: seq<nat>, i: nat, j: nat)
    requires i < j < |s| && s[i] == s[j]
    ensures multiset(s)[s[i]] >= 2
  {
    assert s == s[..j] + s[j..];
    assert s[..j][i] in multiset(s[..j]);
    assert s[j..][0] in multiset(s[j..]);
  }

  /** A permutation is in bounds everywhere and hits nothing twice. */
  lemma PermutationIs(s: seq<nat>, n: nat)
    requires IsPermutation(s, n)
    ensures |s| == n
    ensures forall i :: 0 <= i < n ==> s[i] < n
    ensures forall i, j :: 0 <= i < j < n ==> s[i] != s[j]
  {
    assert |s| == |multiset(s)| == |multiset(Range(n))| == n;
    forall i | 0 <= i < n
      ensures s[i] < n
    {
      assert s[i] in multiset(s);
      CountRange(n, s[i]);
    }
    forall i, j | 0 <= i < j < n
      ensures s[i] != s[j]
    {
      if s[i] == s[j] {
        TwiceCounted(s, i, j);
        CountRange(n, s[i]);
      }
    }
  }

  // ----- the machine

  datatype Phase =
    | Idle
    | Pinned(pin: nat)                         // the pin was read
    | Timed(pin: nat, now: nat)                // the clock was read
    | Claiming(pin: nat, now: nat, due: nat)   // the time of the next reshuffle was read, and has come
    | Copying(pin: nat)                        // this request has claimed the reshuffle
    | Storing(pin: nat, order: seq<nat>)       // it has copied the order
    | Choosing(pin: nat)
    | Calling(pin: nat, node: nat)             // the request is at the node
    | Rotating(pin: nat)                       // it failed there

  datatype Selector = Selector(
    nodes: nat,
    pin: nat,
    order: seq<nat>,
    interval: nat,
    due: nat,              // nanoseconds from the start to the next reshuffle
    clock: nat,            // nanoseconds from the start
    requests: seq<Phase>,
    claims: nat,           // reshuffles claimed so far
    visits: seq<nat>)      // the nodes that requests went to, in turn

  /** `order` is the order drawn at the start. */
  function Initial(nodes: nat, order: seq<nat>, interval: nat, requests: nat): Selector {
    Selector(nodes, 0, order, interval, interval, 0, seq(requests, _ => Idle), 0, [])
  }

  datatype Step =
    | Tick(nanos: nat)
    | LoadPin(r: nat)
    | ReadClock(r: nat)
    | LoadDue(r: nat)
    | Claim(r: nat)
    | Copy(r: nat)
    | Store(r: nat, order: seq<nat>)
    | Choose(r: nat)
    | Answer(r: nat, failed: bool)
    | Rotate(r: nat)

  ghost predicate Enabled(s: Selector, e: Step) {
    match e
    case Tick(_) => true
    case LoadPin(r) => r < |s.requests| && s.requests[r].Idle?
    case ReadClock(r) => r < |s.requests| && s.requests[r].Pinned?
    case LoadDue(r) => r < |s.requests| && s.requests[r].Timed?
    case Claim(r) => r < |s.requests| && s.requests[r].Claiming?
    case Copy(r) => r < |s.requests| && s.requests[r].Copying?
    case Store(r, order) => r < |s.requests| && s.requests[r].Storing? && Shuffled(order, s.requests[r].order)
    case Choose(r) => r < |s.requests| && s.requests[r].Choosing?
    case Answer(r, _) => r < |s.requests| && s.requests[r].Calling?
    case Rotate(r) => r < |s.requests| && s.requests[r].Rotating? && s.nodes > 0
  }

  function Move(s: Selector, r: nat, p: Phase): Selector
    requires r < |s.requests|
  {
    s.(requests := s.requests[r := p])
  }

  /** The node under the pin; out of bounds the program would panic. */
  function NodeAt(s: Selector, pin: nat): nat {
    if pin < |s.order| then s.order[pin] else s.nodes
  }

  ghost function Next(s: Selector, e: Step): Selector
    requires Enabled(s, e)
  {
    match e
    case Tick(nanos) => s.(clock := s.clock + nanos)
    case LoadPin(r) => Move(s, r, Pinned(s.pin))
    case ReadClock(r) => Move(s, r, Timed(s.requests[r].pin, s.clock))
    case LoadDue(r) =>
      var Timed(pin, now) := s.requests[r];
      Move(s, r, if now < s.due then Choosing(pin) else Claiming(pin, now, s.due))
    case Claim(r) =>
      var Claiming(pin, now, due) := s.requests[r];
      if s.due == due then Move(s.(due := now + s.interval, claims := s.claims + 1), r, Copying(pin))
      else Move(s, r, Choosing(pin))
    case Copy(r) => Move(s, r, Storing(s.requests[r].pin, s.order))
    case Store(r, order) => Move(s.(order := order), r, Choosing(s.requests[r].pin))
    case Choose(r) =>
      var node := NodeAt(s, s.requests[r].pin);
      Move(s.(visits := s.visits + [node]), r, Calling(s.requests[r].pin, node))
    case Answer(r, failed) => Move(s, r, if failed then Rotating(s.requests[r].pin) else Idle)
    case Rotate(r) =>
      var pin := s.requests[r].pin;
      Move(if s.pin == pin then s.(pin := (pin + 1) % s.nodes) else s, r, Idle)
  }

  ghost predicate PhaseSound(s: Selector, p: Phase) {
    && (!p.Idle? ==> p.pin < s.nodes)
    && (p.Timed? ==> p.now <= s.clock)
    && (p.Claiming? ==> p.due <= p.now <= s.clock)
    && (p.Storing? ==> IsPermutation(p.order, s.nodes))
    && (p.Calling? ==> p.node < s.nodes)
  }

  ghost predicate Inv(s: Selector) {
    && s.pin < s.nodes
    && IsPermutation(s.order, s.nodes)
    && (s.claims + 1) * s.interval <= s.due
    && s.claims * s.interval <= s.clock
    && (forall r :: 0 <= r < |s.requests| ==> PhaseSound(s, s.requests[r]))
  }

  lemma OneMoreClaim(claims: nat, interval: nat)
    ensures (claims + 2) * interval == (claims + 1) * interval + interval
  {
  }

  lemma ClaimKeepsInv(s: Selector, r: nat)
    requires Inv(s) && Enabled(s, Claim(r))
    ensures Inv(Next(s, Claim(r)))
  {
    assert PhaseSound(s, s.requests[r]);
    OneMoreClaim(s.claims, s.interval);
    forall x | 0 <= x < |s.requests|
      ensures PhaseSound(Next(s, Claim(r)), Next(s, Claim(r)).requests[x])
    {
      assert PhaseSound(s, s.requests[x]);
    }
  }

  lemma NextKeepsInv(s: Selector, e: Step)
    requires Inv(s) && Enabled(s, e)
    ensures Inv(Next(s, e))
  {
    if e.Claim? {
      ClaimKeepsInv(s, e.r);
    } else {
      var s' := Next(s, e);
      PermutationIs(s.order, s.nodes);
      if !e.Tick? {
        assert PhaseSound(s, s.requests[e.r]);
      }
      assert s'.claims == s.claims && s'.interval == s.interval && s'.due == s.due && s.clock <= s'.clock;
      forall x | 0 <= x < |s'.requests|
        ensures PhaseSound(s', s'.requests[x])
      {
        assert PhaseSound(s, s.requests[x]);
      }
    }
  }

  ghost predicate Feasible(s: Selector, run: seq<Step>)
    decreases |run|
  {
    run == [] || (Enabled(s, run[0]) && Feasible(Next(s, run[0]), run[1..]))
  }

  ghost function After(s: Selector, run: seq<Step>): Selector
    requires Feasible(s, run)
    decreases |run|
  {
    if run == [] then s else After(Next(s, run[0]), run[1..])
  }

  lemma {:induction false} RunKeepsInv(s: Selector, run: seq<Step>)
    requires Inv(s) && Feasible(s, run)
    ensures Inv(After(s, run)) && After(s, run).interval == s.interval && After(s, run).nodes == s.nodes
    decreases |run|
  {
    if run != [] {
      NextKeepsInv(s, run[0]);
      RunKeepsInv(Next(s, run[0]), run[1..]);
    }
  }

  /**
   Under every interleaving: the pin stays in bounds, the order stays a permutation of the nodes, so
   every request goes to a node that exists; and the reshuffles claimed by time t are at most
   t / interval.
   */
  lemma EveryRunIsSound(nodes: nat, order: seq<nat>, interval: nat, requests: nat, run: seq<Step>)
    requires nodes > 0 && IsPermutation(order, nodes) && Feasible(Initial(nodes, order, interval, requests), run)
    ensures var s := After(Initial(nodes, order, interval, requests), run);
            && s.pin < nodes && IsPermutation(s.order, nodes)
            && s.claims * interval <= s.clock
            && (forall r :: 0 <= r < |s.requests| && s.requests[r].Calling? ==> s.requests[r].node < nodes)
  {
    var s0 := Initial(nodes, order, interval, requests);
    assert forall r :: 0 <= r < |s0.requests| ==> PhaseSound(s0, s0.requests[r]);
    RunKeepsInv(s0, run);
    var s := After(s0, run);
    assert forall r :: 0 <= r < |s.requests| ==> PhaseSound(s, s.requests[r]);
  }

  // ----- one failure after another

  /** A request that fails at its node, with the time that passes before each of its steps. */
  datatype Try = Try(request: nat, beforePin: nat, beforeClock: nat, beforeDue: nat, beforeChoice: nat, beforeAnswer: nat,
                     beforeRotation: nat)

  function Later(s: Selector, nanos: nat): Selector {
    s.(clock := s.clock + nanos)
  }

  /** A step after some time. */
  function Wait(nanos: nat, e: Step): seq<Step> {
    [Tick(nanos), e]
  }

  lemma Unroll(s: Selector, nanos: nat, e: Step, rest: seq<Step>)
    requires Enabled(Later(s, nanos), e) && Feasible(Next(Later(s, nanos), e), rest)
    ensures Feasible(s, Wait(nanos, e) + rest) && After(s, Wait(nanos, e) + rest) == After(Next(Later(s, nanos), e), rest)
  {
    var run := Wait(nanos, e) + rest;
    assert run[0] == Tick(nanos) && run[1..][0] == e && run[1..][1..] == rest;
  }

  /** The steps of a request up to its call of a node, when no reshuffle is due. */
  function Visit(t: Try): seq<Step> {
    var r := t.request;
    Wait(t.beforePin, LoadPin(r)) + (Wait(t.beforeClock, ReadClock(r)) +
      (Wait(t.beforeDue, LoadDue(r)) + (Wait(t.beforeChoice, Choose(r)) + [])))
  }

  /** The request's failure. */
  function Failure(t: Try): seq<Step> {
    Wait(t.beforeAnswer, Answer(t.request, true)) + (Wait(t.beforeRotation, Rotate(t.request)) + [])
  }

  function Arrived(clock: nat, t: Try): nat {
    clock + t.beforePin + t.beforeClock + t.beforeDue + t.beforeChoice
  }

  function Ended(clock: nat, t: Try): nat {
    Arrived(clock, t) + t.beforeAnswer + t.beforeRotation
  }

  /** The request can start, and reads the clock before the reshuffle is due. */
  ghost predicate OnTime(s: Selector, t: Try) {
    t.request < |s.requests| && s.requests[t.request].Idle? && s.clock + t.beforePin + t.beforeClock < s.due
  }

  /** The selector while the request is at the node under the pin. */
  function AtNode(s: Selector, t: Try): Selector
    requires s.pin < |s.order| && t.request < |s.requests|
  {
    var node := s.order[s.pin];
    Move(s.(visits := s.visits + [node], clock := Arrived(s.clock, t)), t.request, Calling(s.pin, node))
  }

  /** A request goes to the node under the pin. */
  lemma VisitsPinned(s: Selector, t: Try)
    requires Inv(s) && OnTime(s, t)
    ensures |s.order| == s.nodes && Feasible(s, Visit(t)) && After(s, Visit(t)) == AtNode(s, t)
  {
    PermutationIs(s.order, s.nodes);
    var r := t.request;
    var c1 := s.clock + t.beforePin;
    var c2 := c1 + t.beforeClock;
    var c3 := c2 + t.beforeDue;
    var s1 := Move(s.(clock := c1), r, Pinned(s.pin));
    var s2 := Move(s.(clock := c2), r, Timed(s.pin, c2));
    var s3 := Move(s.(clock := c3), r, Choosing(s.pin));
    assert Next(Later(s, t.beforePin), LoadPin(r)) == s1;
    assert Next(Later(s1, t.beforeClock), ReadClock(r)) == s2;
    assert Next(Later(s2, t.beforeDue), LoadDue(r)) == s3;
    assert Next(Later(s3, t.beforeChoice), Choose(r)) == AtNode(s, t);
    Unroll(s3, t.beforeChoice, Choose(r), []);
    Unroll(s2, t.beforeDue, LoadDue(r), Wait(t.beforeChoice, Choose(r)) + []);
    Unroll(s1, t.beforeClock, ReadClock(r), Wait(t.beforeDue, LoadDue(r)) + (Wait(t.beforeChoice, Choose(r)) + []));
    Unroll(s, t.beforePin, LoadPin(r),
           Wait(t.beforeClock, ReadClock(r)) + (Wait(t.beforeDue, LoadDue(r)) + (Wait(t.beforeChoice, Choose(r)) + [])));
  }

  /** The selector after a failing request. */
  function Failed(s: Selector, t: Try): Selector
    requires s.pin < |s.order| && s.nodes > 0
  {
    s.(pin := (s.pin + 1) % s.nodes, visits := s.visits + [s.order[s.pin]], clock := Ended(s.clock, t))
  }

  /** Failing there, it moves the pin on by one, round the order. */
  lemma FailureRotates(s: Selector, t: Try)
    requires s.pin < |s.order| && s.nodes > 0 && t.request < |s.requests| && s.requests[t.request].Idle?
    ensures Feasible(AtNode(s, t), Failure(t)) && After(AtNode(s, t), Failure(t)) == Failed(s, t)
  {
    var r := t.request;
    var at := AtNode(s, t);
    var failed := Move(Later(at, t.beforeAnswer), r, Rotating(s.pin));
    assert Next(Later(at, t.beforeAnswer), Answer(r, true)) == failed;
    assert Next(Later(failed, t.beforeRotation), Rotate(r)) == Failed(s, t) by {
      assert Next(Later(failed, t.beforeRotation), Rotate(r)).requests == s.requests;
    }
    Unroll(failed, t.beforeRotation, Rotate(r), []);
    Unroll(at, t.beforeAnswer, Answer(r, true), Wait(t.beforeRotation, Rotate(r)) + []);
  }

  lemma {:induction false} Chain(s: Selector, a: seq<Step>, b: seq<Step>)
    requires Feasible(s, a) && Feasible(After(s, a), b)
    ensures Feasible(s, a + b) && After(s, a + b) == After(After(s, a), b)
    decreases |a|
  {
    if a == [] {
      assert a + b == b;
    } else {
      Chain(Next(s, a[0]), a[1..], b);
      assert (a + b)[1..] == a[1..] + b;
    }
  }

  lemma ChainTo(s: Selector, a: seq<Step>, between: Selector, b: seq<Step>, s': Selector)
    requires Inv(s) && Feasible(s, a) && After(s, a) == between && Feasible(between, b) && After(between, b) == s'
    ensures Feasible(s, a + b) && After(s, a + b) == s' && Inv(s')
  {
    Chain(s, a, b);
    RunKeepsInv(s, a + b);
  }

  lemma OneFailure(s: Selector, t: Try)
    requires Inv(s) && OnTime(s, t)
    ensures |s.order| == s.nodes && Feasible(s, Visit(t) + Failure(t))
    ensures After(s, Visit(t) + Failure(t)) == Failed(s, t) && Inv(Failed(s, t))
  {
    var between := VisitThenFail(s, t);
    ChainTo(s, Visit(t), between, Failure(t), Failed(s, t));
  }

  lemma VisitThenFail(s: Selector, t: Try) returns (between: Selector)
    requires Inv(s) && OnTime(s, t)
    ensures |s.order| == s.nodes
    ensures Feasible(s, Visit(t)) && After(s, Visit(t)) == between
    ensures Feasible(between, Failure(t)) && After(between, Failure(t)) == Failed(s, t)
  {
    VisitsPinned(s, t);
    FailureRotates(s, t);
    between := AtNode(s, t);
  }

  lemma FailedInv(s: Selector, t: Try)
    requires Inv(s) && OnTime(s, t)
    ensures |s.order| == s.nodes && Inv(Failed(s, t))
  {
    OneFailure(s, t);
  }

  lemma FailThen(s: Selector, t: Try, rest: seq<Step>)
    requires Inv(s) && OnTime(s, t) && |s.order| == s.nodes && Feasible(Failed(s, t), rest)
    ensures Feasible(s, Visit(t) + Failure(t) + rest) && After(s, Visit(t) + Failure(t) + rest) == After(Failed(s, t), rest)
  {
    OneFailure(s, t);
    Chain(s, Visit(t) + Failure(t), rest);
  }

  /** Requests of any tasks, one after another, that fail at the node they were sent to. */
  function FailingRun(tries: seq<Try>): seq<Step> {
    if tries == [] then [] else (Visit(tries[0]) + Failure(tries[0])) + FailingRun(tries[1..])
  }

  /** Every one of them can start, and reads the clock before the reshuffle is due. */
  ghost predicate AllOnTime(s: Selector, clock: nat, tries: seq<Try>)
    decreases |tries|
  {
    tries == [] || (OnTime(s.(clock := clock), tries[0]) && AllOnTime(s, Ended(clock, tries[0]), tries[1..]))
  }

  /** Being on time depends on the requests, the clock and the due time only. */
  lemma {:induction false} StillOnTime(s: Selector, s': Selector, clock: nat, tries: seq<Try>)
    requires AllOnTime(s, clock, tries) && s'.requests == s.requests && s'.due == s.due
    ensures AllOnTime(s', clock, tries)
    decreases |tries|
  {
    if tries != [] {
      StillOnTime(s, s', Ended(clock, tries[0]), tries[1..]);
    }
  }

  /** Failing requests with no reshuffle in between go round the order from the pin on. */
  lemma {:induction false} FailuresGoRound(s: Selector, tries: seq<Try>)
    requires Inv(s) && AllOnTime(s, s.clock, tries)
    ensures |s.order| == s.nodes && Feasible(s, FailingRun(tries))
    ensures After(s, FailingRun(tries)).visits == s.visits + Visited(s.order, s.pin, |tries|)
    decreases |tries|
  {
    PermutationIs(s.order, s.nodes);
    if tries != [] {
      var t, rest := tries[0], tries[1..];
      assert OnTime(s, t);
      FailedInv(s, t);
      StillOnTime(s, Failed(s, t), Ended(s.clock, t), rest);
      FailuresGoRound(Failed(s, t), rest);
      FailThen(s, t, FailingRun(rest));
      Regroup(s.visits, [s.order[s.pin]], Visited(s.order, (s.pin + 1) % s.nodes, |rest|));
    } else {
      assert s.visits + [] == s.visits;
    }
  }

  lemma Regroup(a: seq<nat>, b: seq<nat>, c: seq<nat>)
    ensures a + b + c == a + (b + c)
  {
  }

  /** The nodes that `count` failing requests in a row go to, with no reshuffle in between. */
  function Visited(order: seq<nat>, pin: nat, count: nat): seq<nat>
    requires pin < |order|
    decreases count
  {
    if count == 0 then [] else [order[pin]] + Visited(order, (pin + 1) % |order|, count - 1)
  }

  lemma Wrap(pin: nat, n: nat)
    requires pin < n
    ensures (pin + 1) % n == if pin + 1 < n then pin + 1 else 0
  {
  }

  lemma {:induction false} VisitedAt(order: seq<nat>, pin: nat, count: nat, k: nat)
    requires pin < |order| && k < count <= |order|
    ensures |Visited(order, pin, count)| == count
    ensures Visited(order, pin, count)[k] == order[if pin + k < |order| then pin + k else pin + k - |order|]
    decreases count
  {
    Wrap(pin, |order|);
    var next := if pin + 1 < |order| then pin + 1 else 0;
    assert Visited(order, pin, count) == [order[pin]] + Visited(order, next, count - 1);
    if count > 1 {
      VisitedAt(order, next, count - 1, if k > 0 then k - 1 else 0);
    }
  }

  /** Going once round a permutation, from anywhere, is a permutation. */
  lemma RoundIsPermutation(order: seq<nat>, nodes: nat, pin: nat)
    requires IsPermutation(order, nodes) && pin < nodes
    ensures |order| == nodes && IsPermutation(Visited(order, pin, nodes), nodes)
  {
    PermutationIs(order, nodes);
    var v := Visited(order, pin, nodes);
    VisitedAt(order, pin, nodes, 0);
    var rotated := order[pin..] + order[..pin];
    forall k | 0 <= k < nodes
      ensures v[k] == rotated[k]
    {
      VisitedAt(order, pin, nodes, k);
    }
    assert v == rotated;
    assert order == order[..pin] + order[pin..];
  }

  /**
   As many failures in a row as there are nodes, of whichever requests and however long they take, as long as
   no reshuffle falls due when one of them looks, go to every node exactly once.
   */
  lemma FailuresVisitEveryNode(s: Selector, tries: seq<Try>)
    requires Inv(s) && AllOnTime(s, s.clock, tries) && |tries| == s.nodes
    ensures Feasible(s, FailingRun(tries))
    ensures var visits := After(s, FailingRun(tries)).visits;
            s.visits <= visits && IsPermutation(visits[|s.visits|..], s.nodes)
  {
    FailuresGoRound(s, tries);
    RoundIsPermutation(s.order, s.nodes, s.pin);
    var round := Visited(s.order, s.pin, s.nodes);
    assert (s.visits + round)[|s.visits|..] == round;
  }

  // ----- other single requests

  /** A success leaves the pin where it is. */
  lemma SuccessStays(s: Selector, t: Try)
    requires s.pin < |s.order| && t.request < |s.requests| && s.requests[t.request].Idle?
    ensures var run := Wait(t.beforeAnswer, Answer(t.request, false)) + [];
            && Feasible(AtNode(s, t), run)
            && After(AtNode(s, t), run).pin == s.pin && After(AtNode(s, t), run).requests == s.requests
  {
    var at := AtNode(s, t);
    assert Next(Later(at, t.beforeAnswer), Answer(t.request, false)).requests == s.requests;
    Unroll(at, t.beforeAnswer, Answer(t.request, false), []);
  }

  /** Requests that failed at the same pin move it on once between them, however many there are, and not at all if it has moved. */
  lemma {:induction false} FailuresAtOnePin(s: Selector, pin: nat, rs: seq<nat>)
    requires s.nodes > 1 && pin < s.nodes
    requires forall i :: 0 <= i < |rs| ==> rs[i] < |s.requests| && s.requests[rs[i]] == Rotating(pin)
    requires forall i, j :: 0 <= i < j < |rs| ==> rs[i] != rs[j]
    ensures Feasible(s, Rotations(rs))
    ensures After(s, Rotations(rs)).pin == if rs != [] && s.pin == pin then (pin + 1) % s.nodes else s.pin
    decreases |rs|
  {
    Wrap(pin, s.nodes);
    if rs != [] {
      var s' := Next(s, Rotate(rs[0]));
      assert Rotations(rs)[0] == Rotate(rs[0]) && Rotations(rs)[1..] == Rotations(rs[1..]);
      FailuresAtOnePin(s', pin, rs[1..]);
    }
  }

  function Rotations(rs: seq<nat>): seq<Step> {
    if rs == [] then [] else [Rotate(rs[0])] + Rotations(rs[1..])
  }

  /** The steps of a request that finds the reshuffle due and claims it. */
  function ClaimRun(r: nat): seq<Step> {
    Wait(0, LoadPin(r)) + (Wait(0, ReadClock(r)) + (Wait(0, LoadDue(r)) + (Wait(0, Claim(r)) + [])))
  }

  /** And then draws a new order, and goes by it. */
  function ShuffleRun(r: nat, order: seq<nat>): seq<Step> {
    Wait(0, Copy(r)) + (Wait(0, Store(r, order)) + (Wait(0, Choose(r)) + []))
  }

  function Claimed(s: Selector, r: nat): Selector
    requires r < |s.requests|
  {
    Move(s.(due := s.clock + s.interval, claims := s.claims + 1), r, Copying(s.pin))
  }

  lemma ClaimsWhenDue(s: Selector, r: nat)
    requires r < |s.requests| && s.requests[r].Idle? && s.clock >= s.due
    ensures Feasible(s, ClaimRun(r)) && After(s, ClaimRun(r)) == Claimed(s, r)
  {
    var s1, s2, s3 := Move(s, r, Pinned(s.pin)), Move(s, r, Timed(s.pin, s.clock)), Move(s, r, Claiming(s.pin, s.clock, s.due));
    assert Next(Later(s, 0), LoadPin(r)) == s1 && Next(Later(s1, 0), ReadClock(r)) == s2;
    assert Next(Later(s2, 0), LoadDue(r)) == s3 && Next(Later(s3, 0), Claim(r)) == Claimed(s, r);
    Unroll(s3, 0, Claim(r), []);
    Unroll(s2, 0, LoadDue(r), Wait(0, Claim(r)) + []);
    Unroll(s1, 0, ReadClock(r), Wait(0, LoadDue(r)) + (Wait(0, Claim(r)) + []));
    Unroll(s, 0, LoadPin(r), Wait(0, ReadClock(r)) + (Wait(0, LoadDue(r)) + (Wait(0, Claim(r)) + [])));
  }

  function Reordered(s: Selector, r: nat, order: seq<nat>): Selector
    requires r < |s.requests| && s.pin < |order|
  {
    Move(s.(order := order, visits := s.visits + [order[s.pin]]), r, Calling(s.pin, order[s.pin]))
  }

  lemma ShufflesWhenClaimed(s: Selector, r: nat, order: seq<nat>)
    requires r < |s.requests| && s.requests[r] == Copying(s.pin) && Shuffled(order, s.order) && s.pin < |order|
    ensures Feasible(s, ShuffleRun(r, order)) && After(s, ShuffleRun(r, order)) == Reordered(s, r, order)
  {
    var s1, s2 := Move(s, r, Storing(s.pin, s.order)), Move(s.(order := order), r, Choosing(s.pin));
    assert Next(Later(s, 0), Copy(r)) == s1 && Next(Later(s1, 0), Store(r, order)) == s2;
    assert Next(Later(s2, 0), Choose(r)) == Reordered(s, r, order);
    Unroll(s2, 0, Choose(r), []);
    Unroll(s1, 0, Store(r, order), Wait(0, Choose(r)) + []);
    Unroll(s, 0, Copy(r), Wait(0, Store(r, order)) + (Wait(0, Choose(r)) + []));
  }

  /** A request that finds the reshuffle due carries it out, once, puts off the next one, and goes by the new order. */
  lemma ReshufflesWhenDue(s: Selector, r: nat, order: seq<nat>)
    requires Inv(s) && r < |s.requests| && s.requests[r].Idle? && s.clock >= s.due && Shuffled(order, s.order)
    ensures |order| == s.nodes
    ensures Feasible(s, ClaimRun(r) + ShuffleRun(r, order))
    ensures After(s, ClaimRun(r) + ShuffleRun(r, order)) ==
              s.(order := order, due := s.clock + s.interval, claims := s.claims + 1, visits := s.visits + [order[s.pin]],
                 requests := s.requests[r := Calling(s.pin, order[s.pin])])
  {
    PermutationIs(order, s.nodes);
    ClaimsWhenDue(s, r);
    ShufflesWhenClaimed(Claimed(s, r), r, order);
    ChainTo(s, ClaimRun(r), Claimed(s, r), ShuffleRun(r, order), Reordered(Claimed(s, r), r, order));
  }

  // ----- the objects

  /** The reshuffling nodes; `shuffle` stands for the source of randomness. */
  class ReshufflingNodes {
    const nodes: nat
    const interval: nat
    var order: seq<nat>
    var due: nat

    constructor (nodes: nat, interval: nat, shuffle: seq<nat> -> seq<nat>)
      requires Shuffled(shuffle(Range(nodes)), Range(nodes))
      ensures Valid() && this.nodes == nodes && this.interval == interval && due == interval
    {
      this.nodes, this.interval, due := nodes, interval, interval;
      order := shuffle(Range(nodes));
    }

    ghost predicate Valid()
      reads this
    {
      IsPermutation(order, nodes)
    }

    /** `rival` is what another request stores as the next due time just before this one's claim. */
    method ReshuffleIfNecessary(now: nat, rival: Option<nat>, shuffle: seq<nat> -> seq<nat>)
      requires Valid() && Shuffled(shuffle(order), order)
      modifies this
      ensures Valid()
      ensures var claimed := now >= old(due) && (rival.None? || rival.value == old(due));
              && order == (if claimed then shuffle(old(order)) else old(order))
              && due == if claimed then now + interval
                        else if now >= old(due) && rival.Some? then rival.value else old(due)
    {
      var next := due;
      if now < next {
        return;
      }
      if rival.Some? {
        due := rival.value;
      }
      if due != next {
        return;
      }
      due := now + interval;
      order := shuffle(order);
    }

    /** `stored` is the order that another request stores before this one loads it. */
    method Get(index: nat, now: nat, rival: Option<nat>, stored: Option<seq<nat>>, shuffle: seq<nat> -> seq<nat>) returns (node: nat)
      requires Valid() && index < nodes && Shuffled(shuffle(order), order)
      requires stored.Some? ==> IsPermutation(stored.value, nodes)
      modifies this
      ensures Valid() && |order| == nodes && node == order[index] && node < nodes
      ensures var claimed := now >= old(due) && (rival.None? || rival.value == old(due));
              order == if stored.Some? then stored.value else if claimed then shuffle(old(order)) else old(order)
    {
      ReshuffleIfNecessary(now, rival, shuffle);
      if stored.Some? {
        order := stored.value;
      }
      PermutationIs(order, nodes);
      node := order[index];
    }
  }

  /** What other requests do to the selector during a call: the due time, the order and the pin that they store. */
  datatype Rivals = Rivals(due: Option<nat>, order: Option<seq<nat>>, pin: Option<nat>)

  class PinService {
    const nodes: ReshufflingNodes
    var currentPin: nat

    constructor (nodes: ReshufflingNodes)
      ensures this.nodes == nodes && currentPin == 0
    {
      this.nodes, currentPin := nodes, 0;
    }

    ghost predicate Valid()
      reads this, nodes
    {
      nodes.Valid() && currentPin < nodes.nodes
    }

    /** The pin moves on if the node it was read for fails, unless another request has moved it. */
    method Call(now: nat, shuffle: seq<nat> -> seq<nat>, fails: nat -> bool, rivals: Rivals) returns (node: nat)
      requires Valid() && Shuffled(shuffle(nodes.order), nodes.order)
      requires rivals.pin.Some? ==> rivals.pin.value < nodes.nodes
      requires rivals.order.Some? ==> IsPermutation(rivals.order.value, nodes.nodes)
      modifies this, nodes
      ensures Valid() && |nodes.order| == nodes.nodes && node == nodes.order[old(currentPin)]
      ensures var pin := if rivals.pin.Some? then rivals.pin.value else old(currentPin);
              currentPin == if fails(node) && pin == old(currentPin) then (pin + 1) % nodes.nodes else pin
    {
      var pin := currentPin;
      node := nodes.Get(pin, now, rivals.due, rivals.order, shuffle);
      if rivals.pin.Some? {
        currentPin := rivals.pin.value;
      }
      if fails(node) && currentPin == pin {
        currentPin := (pin + 1) % nodes.nodes;
      }
    }
  }
}
