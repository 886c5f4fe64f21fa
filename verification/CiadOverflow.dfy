/**
 Adding permits cannot overflow the machine's word unless astronomically many requests pass through
 one limiter: each request moves the total once, by less than the largest limit.
 */
module CiadOverflow {
  import opened Tallies
  import opened CiadSpec
  import opened CiadRuns
  import Spec = SemaphoreSpec

  const LARGEST_MOVE: nat := 1000000

  /** Few enough requests for the total to fit the machine's word, whatever they do. */
  predicate Few(requests: nat) {
    1000000 * (requests + 1) <= 0xFFFF_FFFF_FFFF_FFFF
  }

  function Past(p: Phase): int {
    if p.Adjusting? || p.Releasing? || p.Done? then 1 else 0
  }

  /** What removals may still take, or failed to take, is bounded by the requests past their exchange. */
  ghost predicate Bounded(c: Ciad) {
    c.lostRemovals + PendingRemoves(c) <= LARGEST_MOVE * Tally(Past, c.threads)
  }

  ghost predicate Safe(c: Ciad) {
    Bounded(c) && (Few(|c.threads|) ==> c.lostAdditions == 0)
  }

  lemma NextKeepsBounded(c: Ciad, t: nat, e: Step)
    requires LimitIsFold(c) && Bounded(c) && Enabled(c, t, e)
    ensures Bounded(Next(c, t, e))
  {
    var c' := Next(c, t, e);
    var p := c'.threads[t];
    TallyUpdate(Past, c.threads, t, p);
    TallyUpdate(Removed, c.threads, t, p);
    if e.Exchange? {
      ExchangeKeepsFold(c, t);
    }
  }

  lemma AdditionFits(c: Ciad, t: nat)
    requires Books(c) && InRange(c.limit) && Bounded(c) && Few(|c.threads|)
    requires t < |c.threads| && c.threads[t].Adjusting? && c.threads[t].delta > 0
    ensures Spec.Add(c.sem, c.threads[t].delta).Some?
  {
    TallyAtLeast(Added, c.threads);
    TallyAtMost(Past, c.threads);
  }

  lemma NextKeepsSafe(c: Ciad, t: nat, e: Step)
    requires Inv(c) && Safe(c) && Enabled(c, t, e)
    ensures Safe(Next(c, t, e))
  {
    NextKeepsBounded(c, t, e);
    if e.Adjust? && c.threads[t].delta > 0 && Few(|c.threads|) {
      AdditionFits(c, t);
    }
  }

  lemma InitialSafe(requests: nat)
    ensures Safe(Initial(requests))
  {
    TallyZero(Removed, Initial(requests).threads);
    TallyZero(Past, Initial(requests).threads);
  }
}
