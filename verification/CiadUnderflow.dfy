/**
 A run in which lowering the limit panics.  Eighteen requests are admitted; fourteen fail, one after
 another, and bring the limit down to one; then a success, a failure, a success and a failure
 exchange the limit before any of the four adjusts the semaphore, and the two removals come first.
 */
module CiadUnderflow {
  import opened Options
  import opened CiadSpec
  import opened CiadRuns
  import Spec = SemaphoreSpec

  const REQUESTS: nat := 18

  ghost predicate Reached(run: seq<Event>, c: Ciad) {
    Feasible(Initial(REQUESTS), run) && After(Initial(REQUESTS), run) == c
  }

  lemma {:induction false} ExtendFrom(c: Ciad, run: seq<Event>, t: nat, e: Step)
    requires Feasible(c, run) && Enabled(After(c, run), t, e)
    ensures Feasible(c, run + [Event(t, e)]) && After(c, run + [Event(t, e)]) == Next(After(c, run), t, e)
    decreases |run|
  {
    var more := run + [Event(t, e)];
    if run == [] {
      assert more[1..] == [];
    } else {
      ExtendFrom(Next(c, run[0].thread, run[0].step), run[1..], t, e);
      assert more[1..] == run[1..] + [Event(t, e)];
    }
  }

  lemma Extend(run: seq<Event>, c: Ciad, t: nat, e: Step) returns (run': seq<Event>)
    requires Reached(run, c) && Enabled(c, t, e)
    ensures Reached(run', Next(c, t, e))
  {
    ExtendFrom(Initial(REQUESTS), run, t, e);
    run' := run + [Event(t, e)];
  }

  /** A live request leaves with `mode` and exchanges the limit; its adjustment is still to come. */
  lemma Depart(run: seq<Event>, c: Ciad, t: nat, mode: Mode, limit: real) returns (run': seq<Event>, c': Ciad)
    requires Reached(run, c) && t < |c.threads| && c.threads[t].Live? && c.inFlight > 0 && InRange(c.limit) && mode != Ignore
    requires Proposal(mode, c.threads[t].snapshot, c.limit) == Some(limit) && limit.Floor != c.limit.Floor
    ensures Reached(run', c')
    ensures c' == c.(threads := c.threads[t := Adjusting(limit.Floor - c.limit.Floor)], inFlight := c.inFlight - 1,
                     limit := limit, updates := c'.updates)
  {
    var snapshot := c.threads[t].snapshot;
    var c1 := Next(c, t, Respond(mode));
    run' := Extend(run, c, t, Respond(mode));
    var c2 := Next(c1, t, Leave);
    run' := Extend(run', c1, t, Leave);
    assert c2.threads[t] == Leaving(snapshot, mode);
    var c3 := Next(c2, t, Load);
    run' := Extend(run', c2, t, Load);
    assert c3.threads[t] == Deciding(snapshot, mode, c.limit) && c3.limit == c.limit;
    c' := Next(c3, t, Exchange);
    run' := Extend(run', c3, t, Exchange);
    assert c'.threads == c.threads[t := Adjusting(limit.Floor - c.limit.Floor)];
  }

  /** `admitted` requests hold permits, after the first `gone` of them left; the limit is `limit`. */
  ghost predicate Stage(c: Ciad, gone: nat, admitted: nat, limit: nat) {
    && gone <= admitted <= REQUESTS && |c.threads| == REQUESTS
    && c.sem == Spec.Sem(limit, admitted - gone, [])
    && c.limit == limit as real && c.inFlight == admitted - gone
    && (forall t :: gone <= t < admitted ==> c.threads[t].Live?)
    && (forall t :: admitted <= t < REQUESTS ==> c.threads[t].Idle?)
  }

  lemma {:induction false} Admit(admitted: nat) returns (run: seq<Event>, c: Ciad)
    requires admitted <= REQUESTS
    ensures Reached(run, c) && Stage(c, 0, admitted, 20)
  {
    if admitted == 0 {
      run, c := [], Initial(REQUESTS);
    } else {
      var t := admitted - 1;
      run, c := Admit(t);
      var c1 := Next(c, t, Poll(0));
      assert Spec.HasPermits(c.sem);
      run := Extend(run, c, t, Poll(0));
      assert c1.threads[t].Granted?;
      run := Extend(run, c1, t, Count);
      c := Next(c1, t, Count);
    }
  }

  function Lowered(limit: nat): nat
    requires limit >= 2
  {
    (limit as real * BACKOFF_RATIO).Floor
  }

  /** One failure from start to finish. */
  lemma Fail(run: seq<Event>, c: Ciad, gone: nat, limit: nat) returns (run': seq<Event>, c': Ciad)
    requires Reached(run, c) && Stage(c, gone, REQUESTS, limit) && gone < REQUESTS && 2 <= limit <= 20
    ensures 1 <= Lowered(limit) < limit && Reached(run', c') && Stage(c', gone + 1, REQUESTS, Lowered(limit))
  {
    assert 1.8 <= limit as real * BACKOFF_RATIO <= limit as real - 0.2;
    var lower := Lowered(limit);
    var c1;
    run', c1 := Depart(run, c, gone, Dropped, lower as real);
    var c2 := Next(c1, gone, Adjust);
    run' := Extend(run', c1, gone, Adjust);
    assert c2.sem == c.sem.(total := lower) && c2.threads[gone].Releasing?;
    c' := Next(c2, gone, Release);
    run' := Extend(run', c2, gone, Release);
  }

  /** The limits that fourteen failures lead through. */
  lemma Ladder()
    ensures Lowered(20) == 18 && Lowered(18) == 16 && Lowered(16) == 14 && Lowered(14) == 12 && Lowered(12) == 10
    ensures Lowered(10) == 9 && Lowered(9) == 8 && Lowered(8) == 7 && Lowered(7) == 6 && Lowered(6) == 5
    ensures Lowered(5) == 4 && Lowered(4) == 3 && Lowered(3) == 2 && Lowered(2) == 1
  {
  }

  lemma LimitOfOne() returns (run: seq<Event>, c: Ciad)
    ensures Reached(run, c) && Stage(c, 14, REQUESTS, 1)
  {
    Ladder();
    run, c := Admit(REQUESTS);
    run, c := Fail(run, c, 0, 20);
    run, c := Fail(run, c, 1, 18);
    run, c := Fail(run, c, 2, 16);
    run, c := Fail(run, c, 3, 14);
    run, c := Fail(run, c, 4, 12);
    run, c := Fail(run, c, 5, 10);
    run, c := Fail(run, c, 6, 9);
    run, c := Fail(run, c, 7, 8);
    run, c := Fail(run, c, 8, 7);
    run, c := Fail(run, c, 9, 6);
    run, c := Fail(run, c, 10, 5);
    run, c := Fail(run, c, 11, 4);
    run, c := Fail(run, c, 12, 3);
    run, c := Fail(run, c, 13, 2);
  }

  /** A removal of permits can underflow: the program then panics while a permit is dropped. */
  lemma RemovalCanPanic() returns (run: seq<Event>, t: nat)
    ensures Feasible(Initial(REQUESTS), run)
    ensures var c := After(Initial(REQUESTS), run);
            && t < |c.threads| && c.threads[t] == Adjusting(-1)
            && Spec.Remove(c.sem, 1).None?
  {
    var c;
    run, c := LimitOfOne();
    assert (1.0 * BACKOFF_RATIO).Floor == 0 && (2.0 * BACKOFF_RATIO).Floor == 1;
    run, c := Depart(run, c, 14, Success, 2.0);
    run, c := Depart(run, c, 15, Dropped, 1.0);
    run, c := Depart(run, c, 16, Success, 2.0);
    run, c := Depart(run, c, 17, Dropped, 1.0);
    run := Extend(run, c, 15, Adjust);
    t := 17;
  }
}
