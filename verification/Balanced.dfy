/**
 The balanced node selector: nodes much worse than a busy better one are skipped, and of the others
 the best-scoring one that is ready is used.
 */
module Balanced {
  import opened Options

  const INFLIGHT_COMPARISON_THRESHOLD: nat := 5
  const UNHEALTHY_SCORE_MULTIPLIER: nat := 2
  const USIZE_MAX: nat := 0xFFFF_FFFF_FFFF_FFFF

  datatype Snapshot = Snapshot(node: nat, inFlight: nat, score: nat)

  function Saturated(n: nat): nat {
    if n > USIZE_MAX then USIZE_MAX else n
  }

  /** Failures are rounded half up; the conversion and the sum saturate, so a score never falls below the load. */
  function Score(inFlight: nat, recentFailures: real): (score: nat)
    requires recentFailures >= 0.0
    ensures Saturated(inFlight) <= score <= USIZE_MAX
    ensures recentFailures < 0.5 ==> score == Saturated(inFlight)
    ensures inFlight as real + recentFailures + 0.5 <= USIZE_MAX as real ==>
              inFlight as real + recentFailures - 0.5 < score as real <= inFlight as real + recentFailures + 0.5
    ensures inFlight as real + recentFailures - 0.5 >= USIZE_MAX as real ==> score == USIZE_MAX
  {
    Saturated(inFlight + Saturated((recentFailures + 0.5).Floor))
  }

  // ----- sorting by score, earlier nodes first among equals

  predicate Sorted(s: seq<Snapshot>) {
    forall i, j :: 0 <= i < j < |s| ==> s[i].score <= s[j].score
  }

  function Insert(x: Snapshot, s: seq<Snapshot>): (r: seq<Snapshot>)
    ensures multiset(r) == multiset(s) + multiset{x}
  {
    if s == [] || s[|s| - 1].score <= x.score then s + [x]
    else
      assert s == s[..|s| - 1] + [s[|s| - 1]];
      Insert(x, s[..|s| - 1]) + [s[|s| - 1]]
  }

  function SortByScore(s: seq<Snapshot>): (r: seq<Snapshot>)
    ensures multiset(r) == multiset(s)
  {
    if s == [] then [] else
      assert s == s[..|s| - 1] + [s[|s| - 1]];
      Insert(s[|s| - 1], SortByScore(s[..|s| - 1]))
  }

  lemma {:induction false} InsertSorts(x: Snapshot, s: seq<Snapshot>)
    requires Sorted(s)
    ensures Sorted(Insert(x, s))
  {
    if s != [] && s[|s| - 1].score > x.score {
      var front, last := s[..|s| - 1], s[|s| - 1];
      InsertSorts(x, front);
      var r := Insert(x, front);
      forall i | 0 <= i < |r|
        ensures r[i].score <= last.score
      {
        assert r[i] in multiset(r);
        assert r[i] == x || r[i] in multiset(front);
      }
    }
  }

  lemma {:induction false} SortSorts(s: seq<Snapshot>)
    ensures Sorted(SortByScore(s))
  {
    if s != [] {
      SortSorts(s[..|s| - 1]);
      InsertSorts(s[|s| - 1], SortByScore(s[..|s| - 1]));
    }
  }

  /** The snapshots of one score, in order. */
  function OfScore(s: seq<Snapshot>, score: nat): seq<Snapshot> {
    if s == [] then []
    else OfScore(s[..|s| - 1], score) + if s[|s| - 1].score == score then [s[|s| - 1]] else []
  }

  lemma OfScoreSnoc(s: seq<Snapshot>, x: Snapshot, score: nat)
    ensures OfScore(s + [x], score) == OfScore(s, score) + if x.score == score then [x] else []
  {
    assert (s + [x])[..|s + [x]| - 1] == s;
  }

  lemma {:induction false} InsertIsStable(x: Snapshot, s: seq<Snapshot>, score: nat)
    ensures OfScore(Insert(x, s), score) == OfScore(s, score) + if x.score == score then [x] else []
  {
    if s == [] || s[|s| - 1].score <= x.score {
      OfScoreSnoc(s, x, score);
    } else {
      var front, last := s[..|s| - 1], s[|s| - 1];
      InsertIsStable(x, front, score);
      OfScoreSnoc(Insert(x, front), last, score);
    }
  }

  /** Sorting keeps nodes of equal score in the order they came in. */
  lemma {:induction false} SortIsStable(s: seq<Snapshot>, score: nat)
    ensures OfScore(SortByScore(s), score) == OfScore(s, score)
  {
    if s != [] {
      SortIsStable(s[..|s| - 1], score);
      InsertIsStable(s[|s| - 1], SortByScore(s[..|s| - 1]), score);
    }
  }

  // ----- the filter

  /** Twice the score of the last busy node of a list, or no bound if none is busy. */
  function GiveUpThreshold(s: seq<Snapshot>): nat {
    if s == [] then USIZE_MAX
    else if s[|s| - 1].inFlight > INFLIGHT_COMPARISON_THRESHOLD then Saturated(s[|s| - 1].score * UNHEALTHY_SCORE_MULTIPLIER)
    else GiveUpThreshold(s[..|s| - 1])
  }

  /** The first `n` of the sorted nodes are those that are not much worse than a busy one before them. */
  ghost predicate Kept(sorted: seq<Snapshot>, n: nat) {
    && n <= |sorted|
    && (forall i :: 0 <= i < n ==> sorted[i].score <= GiveUpThreshold(sorted[..i]))
    && (n < |sorted| ==> sorted[n].score > GiveUpThreshold(sorted[..n]))
  }

  /** After looking at the first `i` sorted nodes, the first `n` of them have been kept. */
  ghost predicate Scanned(sorted: seq<Snapshot>, i: nat, n: nat) {
    && n <= i <= |sorted|
    && (forall k :: 0 <= k < n ==> sorted[k].score <= GiveUpThreshold(sorted[..k]))
    && (n < i ==> sorted[n].score > GiveUpThreshold(sorted[..n]))
    && (i > 0 ==> n > 0)
  }

  /** Once a node has been skipped every later one is, since the threshold stands and scores do not fall. */
  lemma ScanStep(sorted: seq<Snapshot>, i: nat, n: nat)
    requires Sorted(sorted) && Scanned(sorted, i, n) && i < |sorted| && sorted[i].score <= USIZE_MAX
    ensures sorted[i].score > GiveUpThreshold(sorted[..n]) ==> Scanned(sorted, i + 1, n)
    ensures sorted[i].score <= GiveUpThreshold(sorted[..n]) ==> n == i && Scanned(sorted, i + 1, i + 1)
  {
  }

  lemma NextThreshold(sorted: seq<Snapshot>, n: nat)
    requires n < |sorted|
    ensures GiveUpThreshold(sorted[..n + 1])
            == if sorted[n].inFlight > INFLIGHT_COMPARISON_THRESHOLD then Saturated(sorted[n].score * UNHEALTHY_SCORE_MULTIPLIER)
               else GiveUpThreshold(sorted[..n])
  {
    assert sorted[..n + 1][..n] == sorted[..n];
  }

  /** The loop over the sorted snapshots. */
  method KeepHealthy(sorted: seq<Snapshot>) returns (nodes: seq<Snapshot>)
    requires Sorted(sorted) && forall i :: 0 <= i < |sorted| ==> sorted[i].score <= USIZE_MAX
    ensures nodes <= sorted && Kept(sorted, |nodes|)
    ensures sorted != [] ==> nodes != []
  {
    nodes := [];
    var threshold := USIZE_MAX;
    for i := 0 to |sorted|
      invariant nodes <= sorted && threshold == GiveUpThreshold(sorted[..|nodes|])
      invariant Scanned(sorted, i, |nodes|)
    {
      var snapshot := sorted[i];
      ScanStep(sorted, i, |nodes|);
      if snapshot.score > threshold {
        continue;
      }
      NextThreshold(sorted, i);
      if snapshot.inFlight > INFLIGHT_COMPARISON_THRESHOLD {
        threshold := Saturated(snapshot.score * UNHEALTHY_SCORE_MULTIPLIER);
      }
      nodes := nodes + [snapshot];
    }
  }

  /**
   The nodes to try.  Skipping is decided node by node, yet what is kept is a prefix of the sorted
   list, never empty, and exactly determined by the threshold.
   */
  method Filter(snapshots: seq<Snapshot>) returns (nodes: seq<Snapshot>)
    requires forall s :: s in snapshots ==> s.score <= USIZE_MAX
    ensures nodes <= SortByScore(snapshots) && Kept(SortByScore(snapshots), |nodes|)
    ensures snapshots != [] ==> nodes != []
  {
    var sorted := SortByScore(snapshots);
    SortSorts(snapshots);
    SortKeeps(snapshots);
    forall i | 0 <= i < |sorted|
      ensures sorted[i].score <= USIZE_MAX
    {
      assert sorted[i] in sorted;
    }
    nodes := KeepHealthy(sorted);
  }

  lemma SortKeeps(s: seq<Snapshot>)
    ensures |SortByScore(s)| == |s|
    ensures forall x :: x in SortByScore(s) <==> x in s
  {
    var r := SortByScore(s);
    assert |multiset(r)| == |r| && |multiset(s)| == |s|;
    forall x
      ensures x in r <==> x in s
    {
      assert x in r <==> x in multiset(r);
      assert x in s <==> x in multiset(s);
    }
  }

  /** What is kept is determined: no other prefix satisfies the description. */
  lemma KeptIsUnique(sorted: seq<Snapshot>, m: nat, n: nat)
    requires Kept(sorted, m) && Kept(sorted, n)
    ensures m == n
  {
  }

  /** Node j is the last of the first n with more than five requests in flight. */
  ghost predicate LastBusy(s: seq<Snapshot>, n: nat, j: int)
    requires n <= |s|
  {
    0 <= j < n && s[j].inFlight > 5 && forall k :: j < k < n ==> s[k].inFlight <= 5
  }

  /** The threshold in numbers: twice the score of the last busy node, if there is one and that fits. */
  lemma {:induction false} ThresholdInNumbers(s: seq<Snapshot>, n: nat, j: int)
    requires n <= |s| && LastBusy(s, n, j)
    ensures GiveUpThreshold(s[..n]) == if 2 * s[j].score <= 0xFFFF_FFFF_FFFF_FFFF then 2 * s[j].score else 0xFFFF_FFFF_FFFF_FFFF
  {
    assert s[..n][..n - 1] == s[..n - 1];
    if j < n - 1 {
      ThresholdInNumbers(s, n - 1, j);
    }
  }

  /** Without a busy node there is no bound. */
  lemma {:induction false} SomeBusy(s: seq<Snapshot>, n: nat) returns (j: int)
    requires n <= |s| && GiveUpThreshold(s[..n]) < 0xFFFF_FFFF_FFFF_FFFF
    ensures LastBusy(s, n, j)
  {
    assert n > 0 && s[..n][..n - 1] == s[..n - 1];
    if s[n - 1].inFlight > 5 {
      j := n - 1;
    } else {
      j := SomeBusy(s, n - 1);
    }
  }

  /** Each kept node scores at most twice as much as the last one before it with more than five requests in flight. */
  lemma KeptInNumbers(sorted: seq<Snapshot>, n: nat, i: nat, j: int)
    requires Kept(sorted, n) && i < n && LastBusy(sorted, i, j)
    ensures sorted[i].score <= 2 * sorted[j].score
  {
    ThresholdInNumbers(sorted, i, j);
  }

  /** The first node that is not kept scores more than twice as much as such a one. */
  lemma DroppedInNumbers(sorted: seq<Snapshot>, n: nat) returns (j: int)
    requires Kept(sorted, n) && n < |sorted| && sorted[n].score <= USIZE_MAX
    ensures LastBusy(sorted, n, j) && sorted[n].score > 2 * sorted[j].score
  {
    j := SomeBusy(sorted, n);
    ThresholdInNumbers(sorted, n, j);
  }

  // ----- choosing among the kept

  /** One poll of all the nodes: the answer is a ready node that no ready node beats. */
  method PollNodes(nodes: seq<Snapshot>, ready: nat -> bool) returns (chosen: Option<Snapshot>)
    ensures chosen.Some? ==>
              && chosen.value in nodes && ready(chosen.value.node)
              && (forall x :: x in nodes && ready(x.node) ==> chosen.value.score <= x.score)
    ensures chosen.None? ==> forall x :: x in nodes ==> !ready(x.node)
  {
    var sorted := SortByScore(nodes);
    SortSorts(nodes);
    SortKeeps(nodes);
    for i := 0 to |sorted|
      invariant forall k :: 0 <= k < i ==> !ready(sorted[k].node)
    {
      if ready(sorted[i].node) {
        assert sorted[i] in sorted;
        forall x | x in nodes && ready(x.node)
          ensures sorted[i].score <= x.score
        {
          var k :| 0 <= k < |sorted| && sorted[k] == x;
        }
        return Some(sorted[i]);
      }
    }
    return None;
  }
}
