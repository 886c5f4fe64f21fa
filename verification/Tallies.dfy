/** Sums over a sequence of what each element contributes, and how one changed element moves them. */
module Tallies {
  function Tally<A>(contribution: A -> int, s: seq<A>): int {
    if s == [] then 0 else Tally(contribution, s[..|s| - 1]) + contribution(s[|s| - 1])
  }

  lemma {:induction false} TallyUpdate<A>(contribution: A -> int, s: seq<A>, i: nat, a: A)
    requires i < |s|
    ensures Tally(contribution, s[i := a]) == Tally(contribution, s) - contribution(s[i]) + contribution(a)
  {
    var s' := s[i := a];
    if i < |s| - 1 {
      TallyUpdate(contribution, s[..|s| - 1], i, a);
      assert s'[..|s| - 1] == s[..|s| - 1][i := a];
    } else {
      assert s'[..|s| - 1] == s[..|s| - 1];
    }
  }

  /** A sum of non-negative contributions is at least each of them. */
  lemma {:induction false} TallyAtLeast<A(!new)>(contribution: A -> int, s: seq<A>)
    requires forall a :: contribution(a) >= 0
    ensures Tally(contribution, s) >= 0
    ensures forall i :: 0 <= i < |s| ==> contribution(s[i]) <= Tally(contribution, s)
  {
    if s != [] {
      TallyAtLeast(contribution, s[..|s| - 1]);
      assert forall i :: 0 <= i < |s| - 1 ==> s[i] == s[..|s| - 1][i];
    }
  }

  /** A sum over elements that contribute nothing is nothing. */
  lemma {:induction false} TallyZero<A>(contribution: A -> int, s: seq<A>)
    requires forall i :: 0 <= i < |s| ==> contribution(s[i]) == 0
    ensures Tally(contribution, s) == 0
  {
    if s != [] {
      TallyZero(contribution, s[..|s| - 1]);
    }
  }

  /** A sum of contributions of at most one each is at most the number of elements. */
  lemma {:induction false} TallyAtMost<A(!new)>(contribution: A -> int, s: seq<A>)
    requires forall a :: contribution(a) <= 1
    ensures Tally(contribution, s) <= |s|
  {
    if s != [] {
      TallyAtMost(contribution, s[..|s| - 1]);
    }
  }
}
