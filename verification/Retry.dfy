/**
 The retry layer: which failures are retried, how often, after how long, and what happens to a
 streamed body in between.  The world is given as functions of the attempt number.
 */
module Retry {
  import opened Options
  import opened Config
  import opened HttpError

  datatype BodyKind = EmptyBody | FixedBody | StreamingBody

  /** `polled`: the connection asked for the body; `write`: the error of writing it, if it was asked for. */
  datatype Attempt = Attempt(polled: bool, write: Option<Error>, answer: Answer)

  datatype Service = Service(idempotency: Idempotency, maxRetries: nat, slot: nat, qos: ServerQos)

  /** What the layer does, in order. */
  datatype Action =
    | Start
    | WriteBody
    | Finish(outcome: Outcome)
    | Reset(ok: bool)
    | Sleep(nanos: nat, asked: bool)   // `asked`: the server named the time

  datatype Result = Returned(outcome: Outcome) | Panicked

  /** Longest duration: 2^64 - 1 seconds and 999999999 nanoseconds. */
  const DURATION_MAX: nat := 0x1_0000_0000_0000_0000 * 1_000_000_000 - 1

  // ----- one attempt

  /** A body error surfaces on the connection's side too; the connection's error gives way only to its cause. */
  function Deconflicted(body: Error, hyper: Error): Error {
    if hyper.cause.RequestBody? || RequestBody in hyper.sources then body else hyper
  }

  method DeconflictErrors(body: Error, hyper: Error) returns (e: Error)
    ensures e == Deconflicted(body, hyper)
  {
    var cause, i := hyper.cause, 0;
    while true
      invariant 0 <= i <= |hyper.sources|
      invariant cause == if i == 0 then hyper.cause else hyper.sources[i - 1]
      invariant i > 0 ==> !hyper.cause.RequestBody? && RequestBody !in hyper.sources[..i - 1]
      decreases |hyper.sources| - i
    {
      if cause.RequestBody? {
        return body;
      }
      if i == |hyper.sources| {
        return hyper;
      }
      cause, i := hyper.sources[i], i + 1;
    }
  }

  predicate Writes(body: BodyKind, a: Attempt) {
    body.StreamingBody? && a.polled
  }

  function SendRaw(qos: ServerQos, body: BodyKind, a: Attempt): Outcome {
    var response := Classify(qos, a.answer);
    if Writes(body, a) && a.write.Some? && response.Err? then Err(Deconflicted(a.write.value, response.error))
    else response
  }

  /** `Some(after)` if the failure is retried, `after` being the time the server asked for. */
  function Retried(idempotent: bool, o: Outcome): Option<Option<nat>> {
    if o.Ok? || !o.error.kind.ServiceKind? then None
    else
      match o.error.cause
      case Throttled(after) => Some(after)
      case Unavailable => Some(None)
      case RawClient => if idempotent then Some(None) else None
      case Remote(status) => if idempotent && status == 500 then Some(None) else None
      case _ => None
  }

  // ----- backoff

  function Pow2(n: nat): nat {
    if n == 0 then 1 else 2 * Pow2(n - 1)
  }

  /** `1 << (attempt - 1)` on 32 bits, where the shift distance wraps. */
  function Scale(attempt: nat): nat
    requires attempt > 0
  {
    Pow2((attempt - 1) % 32)
  }

  /** `slot` doubled `n` times. */
  function Doubled(slot: nat, n: nat): nat {
    if n == 0 then slot else 2 * Doubled(slot, n - 1)
  }

  lemma {:induction false} DoubledIs(slot: nat, n: nat)
    ensures Doubled(slot, n) == slot * Pow2(n)
  {
    if n > 0 {
      DoubledIs(slot, n - 1);
      var p := Pow2(n - 1);
      assert 2 * (slot * p) == slot * (2 * p);
    }
  }

  lemma {:induction false} DoubledMonotone(slot: nat, m: nat, n: nat)
    requires m <= n
    ensures Doubled(slot, m) <= Doubled(slot, n)
  {
    if m < n {
      DoubledMonotone(slot, m, n - 1);
    }
  }

  /** The most that the first `retries` pauses can add up to. */
  function Budget(slot: nat, retries: nat): nat {
    if retries == 0 then 0 else Budget(slot, retries - 1) + Doubled(slot, retries - 1)
  }

  /** Pauses that double each time add up to less than the next one would allow: slot * (2^retries - 1). */
  lemma {:induction false} BudgetIs(slot: nat, retries: nat)
    ensures Budget(slot, retries) + slot == Doubled(slot, retries) == slot * Pow2(retries)
  {
    DoubledIs(slot, retries);
    if retries > 0 {
      BudgetIs(slot, retries - 1);
    }
  }

  // ----- what a trace says

  datatype BodyState = Pristine | Dirty | Broken

  /** What an action does to the user's body; `None` if it comes at the wrong time. */
  function StepBody(b: Option<BodyState>, a: Action): Option<BodyState> {
    if b.None? then None
    else
      match a
      case Start => if b.value.Pristine? then b else None
      case WriteBody => if b.value.Pristine? then Some(Dirty) else None
      case Reset(ok) => if b.value.Dirty? then Some(if ok then Pristine else Broken) else None
      case _ => b
  }

  function BodyAfter(trace: seq<Action>): Option<BodyState> {
    if trace == [] then Some(Pristine) else StepBody(BodyAfter(trace[..|trace| - 1]), trace[|trace| - 1])
  }

  function Outcomes(trace: seq<Action>): seq<Outcome> {
    if trace == [] then []
    else
      var os := Outcomes(trace[..|trace| - 1]);
      match trace[|trace| - 1]
      case Finish(o) => os + [o]
      case _ => os
  }

  /** The time slept by the layer's own choice. */
  function Jitter(trace: seq<Action>): nat {
    if trace == [] then 0
    else
      Jitter(trace[..|trace| - 1]) +
      match trace[|trace| - 1]
      case Sleep(nanos, asked) => if asked then 0 else nanos
      case _ => 0
  }

  /** The pauses, in order. */
  function Pauses(trace: seq<Action>): seq<Action> {
    if trace == [] then []
    else Pauses(trace[..|trace| - 1]) + if trace[|trace| - 1].Sleep? then [trace[|trace| - 1]] else []
  }

  lemma Snoc(trace: seq<Action>, a: Action)
    ensures Pauses(trace + [a]) == Pauses(trace) + if a.Sleep? then [a] else []
    ensures BodyAfter(trace + [a]) == StepBody(BodyAfter(trace), a)
    ensures Outcomes(trace + [a]) == if a.Finish? then Outcomes(trace) + [a.outcome] else Outcomes(trace)
    ensures Jitter(trace + [a]) == Jitter(trace) + if a.Sleep? && !a.asked then a.nanos else 0
  {
    assert (trace + [a])[..|trace + [a]| - 1] == trace;
  }

  /** A pause before retry number `retry`: exactly as the server asked, or else within the doubled slot. */
  ghost predicate FitPause(slot: nat, retry: nat, asked: Option<nat>, pause: Action)
    requires retry > 0
  {
    && pause.Sleep?
    && if asked.Some? then pause == Sleep(asked.value, true)
       else !pause.asked && pause.nanos <= Doubled(slot, retry - 1)
  }

  /** Between any two attempts there is one pause, fit for the failure before it. */
  ghost predicate Paused(s: Service, idempotent: bool, os: seq<Outcome>, pauses: seq<Action>) {
    && |pauses| <= |os|
    && (forall i :: 0 <= i < |pauses| ==>
          Retried(idempotent, os[i]).Some? && FitPause(s.slot, i + 1, Retried(idempotent, os[i]).value, pauses[i]))
  }

  // ----- the layer

  predicate IsIdempotent(s: Service, methodIsIdempotent: bool) {
    match s.idempotency
    case Always => true
    case ByMethod => methodIsIdempotent
    case Never => false
  }

  datatype Verdict = Again | GiveUp | Panic

  /** The backoff before retry number `retry` exceeds the longest duration. */
  predicate Overflows(s: Service, retry: nat)
    requires retry > 0
  {
    s.slot * Scale(retry) > DURATION_MAX
  }

  /**
   What becomes of a call after its attempt number `i`, counted from zero: it is over when the outcome is not
   one to retry, no retry is left, or a body that was written cannot be reset.
   */
  function Decision(s: Service, idempotent: bool, body: BodyKind, a: Attempt, resetOk: bool, i: nat): Verdict {
    var retried := Retried(idempotent, SendRaw(s.qos, body, a));
    if retried.None? || i >= s.maxRetries || (Writes(body, a) && !resetOk) then GiveUp
    else if retried.value.None? && Overflows(s, i + 1) then Panic
    else Again
  }

  /** A backoff can overflow only if the slot doubled 31 times does. */
  lemma OverflowNeedsLongSlot(s: Service, retry: nat)
    requires retry > 0 && Overflows(s, retry)
    ensures Doubled(s.slot, 31) > DURATION_MAX
  {
    DoubledIs(s.slot, (retry - 1) % 32);
    DoubledMonotone(s.slot, (retry - 1) % 32, 31);
  }

  /** The first `n` attempts were all followed by another one. */
  ghost predicate AllAgain(s: Service, idempotent: bool, body: BodyKind, world: nat -> Attempt, resets: nat -> bool, n: nat) {
    forall i :: 0 <= i < n ==> Decision(s, idempotent, body, world(i), resets(i), i).Again?
  }

  ghost predicate AsSent(s: Service, body: BodyKind, world: nat -> Attempt, os: seq<Outcome>) {
    forall i :: 0 <= i < |os| ==> os[i] == SendRaw(s.qos, body, world(i))
  }

  /** The head of the loop: the body is pristine, and `attempt` attempts failed and were all to be retried. */
  ghost predicate UnderWay(s: Service, idempotent: bool, body: BodyKind, world: nat -> Attempt, resets: nat -> bool,
                           trace: seq<Action>, attempt: nat) {
    && attempt <= s.maxRetries && |Outcomes(trace)| == attempt
    && BodyAfter(trace) == Some(Pristine)
    && AsSent(s, body, world, Outcomes(trace)) && AllAgain(s, idempotent, body, world, resets, attempt)
    && Jitter(trace) <= Budget(s.slot, attempt)
    && |Pauses(trace)| == attempt && Paused(s, idempotent, Outcomes(trace), Pauses(trace))
  }

  /**
   The end of a call: the body was only ever sent and written pristine and reset dirty; there were at most
   maxRetries + 1 attempts, up to the first that the decision ends, with one pause between any two, as
   long as the server asked or within the layer's own budget; the caller gets the last attempt's outcome,
   or the panic of a backoff that overflows.
   */
  ghost predicate Completed(s: Service, idempotent: bool, body: BodyKind, world: nat -> Attempt, resets: nat -> bool,
                            result: Result, trace: seq<Action>) {
    var os := Outcomes(trace);
    && BodyAfter(trace).Some?
    && 1 <= |os| <= s.maxRetries + 1 && AsSent(s, body, world, os)
    && Jitter(trace) <= Budget(s.slot, |os| - 1)
    && |Pauses(trace)| == |os| - 1 && Paused(s, idempotent, os, Pauses(trace))
    && var last := |os| - 1;
       && AllAgain(s, idempotent, body, world, resets, last)
       && match Decision(s, idempotent, body, world(last), resets(last), last)
          case Again => false
          case GiveUp => result == Returned(os[last])
          case Panic => result == Panicked
  }

  predicate IsRefusal(o: Outcome) {
    o.Err? && o.error.kind.ServiceKind? && (o.error.cause.Throttled? || o.error.cause.Unavailable?)
  }

  /** Every attempt that was followed by another one was refused: throttled or unavailable. */
  ghost predicate RepeatsOnlyRefusals(trace: seq<Action>) {
    forall i :: 0 <= i < |Outcomes(trace)| - 1 ==> IsRefusal(Outcomes(trace)[i])
  }

  /** A failed connection, or an internal error of the server. */
  predicate IsRepeatable(o: Outcome) {
    o.Err? && o.error.kind.ServiceKind? && (o.error.cause.RawClient? || o.error.cause == Remote(500))
  }

  /** The last attempt did not fail that way, unless no retry was left, the body could not be reset, or the pause overflowed. */
  ghost predicate RepeatsFailures(s: Service, body: BodyKind, world: nat -> Attempt, resets: nat -> bool, result: Result,
                                  trace: seq<Action>) {
    var last := |Outcomes(trace)| - 1;
    && last >= 0
    && (IsRepeatable(Outcomes(trace)[last]) ==>
          last == s.maxRetries || (body.StreamingBody? && world(last).polled && !resets(last)) || result.Panicked?)
  }

  lemma OthersRepeatRefusals(s: Service, body: BodyKind, world: nat -> Attempt, resets: nat -> bool, result: Result, trace: seq<Action>)
    requires Completed(s, false, body, world, resets, result, trace)
    ensures RepeatsOnlyRefusals(trace)
  {
    forall i | 0 <= i < |Outcomes(trace)| - 1
      ensures IsRefusal(Outcomes(trace)[i])
    {
      CompletedNonIdempotent(s, body, world, resets, result, trace, i);
    }
  }

  lemma IdempotentRepeats(s: Service, body: BodyKind, world: nat -> Attempt, resets: nat -> bool, result: Result, trace: seq<Action>)
    requires Completed(s, true, body, world, resets, result, trace)
    ensures RepeatsFailures(s, body, world, resets, result, trace)
  {
  }

  /**
   One call.  `world`, `resets` and `random` say what each attempt meets, whether each reset
   succeeds, and which number the jitter draws.
   */
  method Call(s: Service, methodIsIdempotent: bool, body: BodyKind,
              world: nat -> Attempt, resets: nat -> bool, random: nat -> nat)
    returns (result: Result, trace: seq<Action>)
    ensures Completed(s, IsIdempotent(s, methodIsIdempotent), body, world, resets, result, trace)
    ensures s.idempotency.Never? || (s.idempotency.ByMethod? && !methodIsIdempotent) ==> RepeatsOnlyRefusals(trace)
    ensures s.idempotency.Always? || (s.idempotency.ByMethod? && methodIsIdempotent) ==>
              RepeatsFailures(s, body, world, resets, result, trace)
  {
    var idempotent := IsIdempotent(s, methodIsIdempotent);
    var attempt := 0;
    trace := [];
    while true
      invariant UnderWay(s, idempotent, body, world, resets, trace, attempt)
      decreases s.maxRetries - attempt
    {
      ghost var before := trace;
      var outcome, verdict;
      trace, outcome, verdict := Round(s, idempotent, body, world(attempt), attempt, resets(attempt), random(attempt), trace);
      After(s, idempotent, body, world, resets, before, attempt, trace, outcome, verdict);
      if !verdict.Again? {
        result := if verdict.Panic? then Panicked else Returned(outcome);
        if idempotent {
          IdempotentRepeats(s, body, world, resets, result, trace);
        } else {
          OthersRepeatRefusals(s, body, world, resets, result, trace);
        }
        return;
      }
      attempt := attempt + 1;
    }
  }

  /** What one turn of the loop guarantees. */
  ghost predicate Turned(s: Service, idempotent: bool, body: BodyKind, a: Attempt, attempt: nat, resetOk: bool,
                         before: seq<Action>, trace: seq<Action>, outcome: Outcome, verdict: Verdict) {
    && outcome == SendRaw(s.qos, body, a) && Outcomes(trace) == Outcomes(before) + [outcome]
    && verdict == Decision(s, idempotent, body, a, resetOk, attempt)
    && BodyAfter(trace).Some? && (verdict.Again? ==> BodyAfter(trace) == Some(Pristine))
    && Jitter(trace) <= Jitter(before) + (if verdict.Again? then Doubled(s.slot, attempt) else 0)
    && PausedOnce(s, Retried(idempotent, outcome), attempt + 1, before, trace, verdict.Again?)
  }

  /** A turn that leads to another one pauses once, at its end; any other does not pause. */
  ghost predicate PausedOnce(s: Service, retried: Option<Option<nat>>, retry: nat, before: seq<Action>, trace: seq<Action>, again: bool)
    requires retry > 0
  {
    if again then
      && |Pauses(trace)| == |Pauses(before)| + 1 && Pauses(before) <= Pauses(trace)
      && retried.Some? && FitPause(s.slot, retry, retried.value, Pauses(trace)[|Pauses(before)|])
    else Pauses(trace) == Pauses(before)
  }

  lemma After(s: Service, idempotent: bool, body: BodyKind, world: nat -> Attempt, resets: nat -> bool, before: seq<Action>,
              attempt: nat, trace: seq<Action>, outcome: Outcome, verdict: Verdict)
    requires UnderWay(s, idempotent, body, world, resets, before, attempt)
    requires Turned(s, idempotent, body, world(attempt), attempt, resets(attempt), before, trace, outcome, verdict)
    ensures verdict.Again? ==> UnderWay(s, idempotent, body, world, resets, trace, attempt + 1)
    ensures !verdict.Again? ==>
              Completed(s, idempotent, body, world, resets, if verdict.Panic? then Panicked else Returned(outcome), trace)
  {
    OnePause(s, idempotent, Outcomes(before), outcome, before, trace, verdict.Again?);
  }

  lemma OnePause(s: Service, idempotent: bool, os: seq<Outcome>, outcome: Outcome, before: seq<Action>, trace: seq<Action>, again: bool)
    requires |Pauses(before)| == |os| && Paused(s, idempotent, os, Pauses(before))
    requires PausedOnce(s, Retried(idempotent, outcome), |os| + 1, before, trace, again)
    ensures Paused(s, idempotent, os + [outcome], Pauses(trace))
  {
  }

  /** One turn of the loop: attempt number `attempt`, counted from zero, and what follows it. */
  method Round(s: Service, idempotent: bool, body: BodyKind, a: Attempt, attempt: nat, resetOk: bool, random: nat,
               before: seq<Action>)
    returns (trace: seq<Action>, outcome: Outcome, verdict: Verdict)
    requires BodyAfter(before) == Some(Pristine)
    ensures Turned(s, idempotent, body, a, attempt, resetOk, before, trace, outcome, verdict)
  {
    var wrote;
    trace, wrote, outcome := SendAttempt(s, body, a, before);
    var retry := Retried(idempotent, outcome);
    if retry.None? {
      verdict := GiveUp;
    } else {
      trace, verdict := PrepareForRetry(s, attempt + 1, wrote, retry.value, resetOk, random, trace);
    }
  }

  /** Counts the retry, resets a body that was written, and pauses. */
  method PrepareForRetry(s: Service, attempt: nat, wrote: bool, asked: Option<nat>, resetOk: bool, random: nat,
                         before: seq<Action>)
    returns (trace: seq<Action>, verdict: Verdict)
    requires attempt > 0 && BodyAfter(before) == Some(if wrote then Dirty else Pristine)
    ensures Outcomes(trace) == Outcomes(before)
    ensures BodyAfter(trace).Some?
    ensures verdict == if attempt > s.maxRetries || (wrote && !resetOk) then GiveUp
                       else if asked.None? && Overflows(s, attempt) then Panic else Again
    ensures verdict.Again? ==> BodyAfter(trace) == Some(Pristine)
    ensures attempt <= s.maxRetries && wrote && !resetOk ==> BodyAfter(trace) == Some(Broken)
    ensures Jitter(trace) <= Jitter(before) + if verdict.Again? then Doubled(s.slot, attempt - 1) else 0
    ensures PausedOnce(s, Some(asked), attempt, before, trace, verdict.Again?)
  {
    trace := before;
    if attempt > s.maxRetries {
      return trace, GiveUp;
    }
    if wrote {
      Snoc(trace, Reset(resetOk));
      trace := trace + [Reset(resetOk)];
      if !resetOk {
        return trace, GiveUp;
      }
    }
    var nanos := Backoff(s, attempt, asked, random);
    if nanos.None? {
      return trace, Panic;
    }
    Snoc(trace, Sleep(nanos.value, asked.Some?));
    trace := trace + [Sleep(nanos.value, asked.Some?)];
    return trace, Again;
  }

  /** One attempt, from a pristine body: the body is written at most once, and only if asked for. */
  method SendAttempt(s: Service, body: BodyKind, a: Attempt, before: seq<Action>)
    returns (trace: seq<Action>, wrote: bool, outcome: Outcome)
    requires BodyAfter(before) == Some(Pristine)
    ensures wrote == Writes(body, a) && outcome == SendRaw(s.qos, body, a)
    ensures trace == before + if body.StreamingBody? && a.polled then [Start, WriteBody, Finish(outcome)] else [Start, Finish(outcome)]
    ensures BodyAfter(trace) == Some(if wrote then Dirty else Pristine)
    ensures Outcomes(trace) == Outcomes(before) + [outcome] && Jitter(trace) == Jitter(before)
    ensures Pauses(trace) == Pauses(before)
  {
    wrote := false;
    Snoc(before, Start);
    trace := before + [Start];
    if body.StreamingBody? && a.polled {
      wrote := true;
      Snoc(trace, WriteBody);
      trace := trace + [WriteBody];
    }
    outcome := Classify(s.qos, a.answer);
    if wrote && a.write.Some? && outcome.Err? {
      var e := DeconflictErrors(a.write.value, outcome.error);
      outcome := Err(e);
    }
    Snoc(trace, Finish(outcome));
    trace := trace + [Finish(outcome)];
  }

  /**
   The pause before retry number `attempt`: as asked, or below the slot doubled each time; up to the 32nd retry the
   random source can draw any pause below that, and no other.
   */
  method Backoff(s: Service, attempt: nat, asked: Option<nat>, random: nat) returns (nanos: Option<nat>)
    requires attempt > 0
    ensures asked.Some? ==> nanos == asked
    ensures asked.None? && nanos.Some? ==>
              nanos.value <= Doubled(s.slot, attempt - 1) && (s.slot > 0 ==> nanos.value < Doubled(s.slot, attempt - 1))
    ensures nanos.None? <==> asked.None? && Overflows(s, attempt)
    ensures asked.None? && attempt <= 32 ==>
              if Doubled(s.slot, attempt - 1) > DURATION_MAX then nanos.None?
              else random < Doubled(s.slot, attempt - 1) ==> nanos == Some(random)
  {
    if asked.Some? {
      return asked;
    }
    var max := s.slot * Scale(attempt);
    ScaleDoubles(s.slot, attempt);
    if max > DURATION_MAX {
      return None;  // panics
    }
    if max == 0 {
      DoubledMonotone(s.slot, 0, attempt - 1);
      return Some(0);
    }
    Draw(random, max);
    return Some(random % max);
  }

  /** Scaling the slot is doubling it, once for every earlier retry up to the 32nd, and never more often. */
  lemma ScaleDoubles(slot: nat, attempt: nat)
    requires attempt > 0
    ensures slot * Scale(attempt) <= Doubled(slot, attempt - 1)
    ensures attempt <= 32 ==> slot * Scale(attempt) == Doubled(slot, attempt - 1)
    ensures slot > 0 ==> slot * Scale(attempt) > 0
  {
    DoubledIs(slot, (attempt - 1) % 32);
    DoubledMonotone(slot, (attempt - 1) % 32, attempt - 1);
    DoubledMonotone(slot, 0, (attempt - 1) % 32);
  }

  lemma Draw(random: nat, max: nat)
    requires max > 0
    ensures 0 <= random % max < max && (random < max ==> random % max == random)
  {
  }

  /** A request that is not idempotent is sent again only after a refusal: throttled or unavailable. */
  lemma NonIdempotentRetriesOnlyRefusals(o: Outcome)
    ensures Retried(false, o).Some? <==> IsRefusal(o)
  {
  }

  /**
   Which answers are retried, from the wire to the decision: throttling and unavailability unless they
   are propagated, and, for an idempotent request, an internal error of the server or a failed connection.
   If the connection failed because of the body, the error of the body's writer decides instead.
   */
  lemma WhichAnswersAreRetried(qos: ServerQos, idempotent: bool, body: BodyKind, a: Attempt)
    ensures a.answer.Response? ==>
              (Retried(idempotent, SendRaw(qos, body, a)).Some? <==>
                 || (qos.AutomaticRetry? && (a.answer.status == 429 || a.answer.status == 503))
                 || (idempotent && a.answer.status == 500))
    ensures a.answer.Response? ==> (SendRaw(qos, body, a).Ok? <==> IsSuccess(a.answer.status))
    ensures a.answer.Failure? && a.answer.error.kind.ServiceKind? && a.answer.error.cause.RawClient? ==>
              (Retried(idempotent, SendRaw(qos, body, a)).Some? <==>
                 if Writes(body, a) && a.write.Some? && RequestBody in a.answer.error.sources
                 then Retried(idempotent, Err(a.write.value)).Some? else idempotent)
    ensures a.answer.Failure? ==>
              var e := a.answer.error;
              SendRaw(qos, body, a) == Err(if body.StreamingBody? && a.polled && a.write.Some?
                                              && (e.cause == RequestBody || RequestBody in e.sources)
                                           then a.write.value else e)
  {
  }

  /** When 429 and 503 are propagated, such a response ends the call whatever the body's writer reports. */
  lemma PropagatedQosEndsTheCall(idempotent: bool, body: BodyKind, a: Attempt)
    requires a.answer.Response? && (a.answer.status == 429 || a.answer.status == 503)
    ensures Retried(idempotent, SendRaw(Propagate429And503ToCaller, body, a)).None?
    ensures Retried(idempotent, SendRaw(AutomaticRetry, body, a)).Some?
  {
  }

  /** Every attempt but the last was answered as `world` says and failed in a way that is retried. */
  lemma EarlierAttempt(s: Service, idempotent: bool, body: BodyKind, world: nat -> Attempt, resets: nat -> bool,
                       result: Result, trace: seq<Action>, i: nat)
    requires Completed(s, idempotent, body, world, resets, result, trace) && i < |Outcomes(trace)| - 1
    ensures Outcomes(trace)[i] == SendRaw(s.qos, body, world(i)) && Retried(idempotent, Outcomes(trace)[i]).Some?
  {
    assert Decision(s, idempotent, body, world(i), resets(i), i).Again?;
  }

  /** r retries pause for at most slot * (2^r - 1) of the layer's own choice. */
  lemma CompletedPauses(s: Service, idempotent: bool, body: BodyKind, world: nat -> Attempt, resets: nat -> bool, result: Result, trace: seq<Action>)
    requires Completed(s, idempotent, body, world, resets, result, trace)
    ensures Jitter(trace) + s.slot <= s.slot * Pow2(|Outcomes(trace)| - 1)
  {
    BudgetIs(s.slot, |Outcomes(trace)| - 1);
  }

  /** A retried 429 response that names a time is followed by a pause of exactly that time. */
  lemma CompletedHonoursRetryAfter(s: Service, idempotent: bool, body: BodyKind, world: nat -> Attempt, resets: nat -> bool, result: Result,
                                   trace: seq<Action>, i: nat)
    requires Completed(s, idempotent, body, world, resets, result, trace) && i < |Outcomes(trace)| - 1
    requires world(i).answer.Response? && world(i).answer.status == 429 && world(i).answer.retryAfter.Some?
    ensures |Pauses(trace)| == |Outcomes(trace)| - 1
    ensures Pauses(trace)[i] == Sleep(world(i).answer.retryAfter.value, true)
  {
    EarlierAttempt(s, idempotent, body, world, resets, result, trace, i);
  }

  /** A request that is not idempotent is sent again only after a refusal. */
  lemma CompletedNonIdempotent(s: Service, body: BodyKind, world: nat -> Attempt, resets: nat -> bool, result: Result, trace: seq<Action>, i: nat)
    requires Completed(s, false, body, world, resets, result, trace) && i < |Outcomes(trace)| - 1
    ensures IsRefusal(Outcomes(trace)[i])
  {
    EarlierAttempt(s, false, body, world, resets, result, trace, i);
    NonIdempotentRetriesOnlyRefusals(Outcomes(trace)[i]);
  }

  /** When 429 and 503 are propagated, no attempt follows such a response. */
  lemma CompletedPropagation(s: Service, idempotent: bool, body: BodyKind, world: nat -> Attempt, resets: nat -> bool, result: Result,
                             trace: seq<Action>, i: nat)
    requires Completed(s, idempotent, body, world, resets, result, trace) && i < |Outcomes(trace)| - 1
    requires s.qos.Propagate429And503ToCaller?
    ensures world(i).answer.Failure? || (world(i).answer.status != 429 && world(i).answer.status != 503)
  {
    EarlierAttempt(s, idempotent, body, world, resets, result, trace, i);
    if world(i).answer.Response? && (world(i).answer.status == 429 || world(i).answer.status == 503) {
      PropagatedQosEndsTheCall(idempotent, body, world(i));
    }
  }

  /** A call panics exactly if its last attempt is to be retried, and could be, but for a backoff that overflows. */
  lemma CompletedPanicsIff(s: Service, idempotent: bool, body: BodyKind, world: nat -> Attempt, resets: nat -> bool, result: Result,
                           trace: seq<Action>)
    requires Completed(s, idempotent, body, world, resets, result, trace)
    ensures var last := |Outcomes(trace)| - 1;
            result.Panicked? <==>
              && Retried(idempotent, Outcomes(trace)[last]) == Some(None) && last < s.maxRetries
              && (Writes(body, world(last)) ==> resets(last)) && Overflows(s, last + 1)
    ensures result.Panicked? ==> Doubled(s.slot, 31) > DURATION_MAX
  {
    if result.Panicked? {
      OverflowNeedsLongSlot(s, |Outcomes(trace)|);
    }
  }

  /** The decision ends a call at the first attempt that it does not follow by another. */
  lemma LastAttempt(s: Service, idempotent: bool, body: BodyKind, world: nat -> Attempt, resets: nat -> bool, result: Result,
                    trace: seq<Action>, n: nat)
    requires Completed(s, idempotent, body, world, resets, result, trace)
    requires AllAgain(s, idempotent, body, world, resets, n)
    requires !Decision(s, idempotent, body, world(n), resets(n), n).Again?
    ensures |Outcomes(trace)| == n + 1
    ensures result.Panicked? <==> Decision(s, idempotent, body, world(n), resets(n), n).Panic?
  {
  }

  /** With the longest slot, the second backoff of the layer's own overflows. */
  lemma LongestSlotOverflows(s: Service, a: Attempt)
    requires s == Service(Always, 2, DURATION_MAX, AutomaticRetry) && a == Attempt(false, None, Response(503, None))
    ensures Decision(s, true, EmptyBody, a, true, 0).Again? && Decision(s, true, EmptyBody, a, true, 1).Panic?
  {
    assert Scale(1) == 1 && Scale(2) == 2;
  }

  /** For instance: with the longest slot, a service that is unavailable twice makes the call panic. */
  method PanickingCall() returns (result: Result, trace: seq<Action>)
    ensures result.Panicked? && |Outcomes(trace)| == 2
  {
    var s := Service(Always, 2, DURATION_MAX, AutomaticRetry);
    var a := Attempt(false, None, Response(503, None));
    var world, resets := (i: nat) => a, (i: nat) => true;
    result, trace := Call(s, true, EmptyBody, world, resets, i => 0);
    LongestSlotOverflows(s, a);
    LastAttempt(s, true, EmptyBody, world, resets, result, trace, 1);
  }

  /**
   What the caller of a returned call is told, in terms of the last answer: the status of a success; a throttled or
   unavailable error, of its own kind when it is propagated; the remote status of any other response.
   */
  lemma CallerIsTold(s: Service, idempotent: bool, body: BodyKind, world: nat -> Attempt, resets: nat -> bool, result: Result,
                     trace: seq<Action>)
    requires Completed(s, idempotent, body, world, resets, result, trace) && result.Returned?
    ensures var last := world(|Outcomes(trace)| - 1).answer;
            last.Response? ==>
              if 200 <= last.status < 300 then result.outcome == Ok(last.status)
              else
                && result.outcome.Err?
                && var e := result.outcome.error;
                   if last.status == 429 then
                     e.cause == Throttled(last.retryAfter) && e.kind == (if s.qos.AutomaticRetry? then ServiceKind else ThrottleKind)
                   else if last.status == 503 then
                     e.cause == Unavailable && e.kind == (if s.qos.AutomaticRetry? then ServiceKind else UnavailableKind)
                   else e.cause == Remote(last.status) && e.kind == ServiceKind
  {
  }
}
