/**
 The arithmetic of the "cautious increase, aggressive decrease" limit: how one finished request
 moves it, and what any sequence of finished requests can do to it.
 */
module CiadSpec {
  import opened Options

  const INITIAL_LIMIT: real := 20.0
  const BACKOFF_RATIO: real := 0.9
  const MIN_LIMIT: real := 1.0
  const MAX_LIMIT: real := 1000000.0

  datatype Mode = Ignore | Success | Dropped

  /** What reaches the limiters: a response status, or an error that is or is not a raw client error. */
  datatype Response = Status(code: nat) | Failure(rawClientError: bool)

  predicate IsServerError(code: nat) {
    500 <= code < 600
  }

  function HostMode(r: Response): Mode {
    match r
    case Status(code) =>
      if code == 500 || code == 429 then Ignore else if IsServerError(code) then Dropped else Success
    case Failure(raw) => if raw then Dropped else Ignore
  }

  function EndpointMode(r: Response): Mode {
    match r
    case Status(code) =>
      if code == 500 || code == 429 then Dropped else if IsServerError(code) then Ignore else Success
    case Failure(_) => Ignore
  }

  /**
   Blame is never shared: a response lowers at most one of the two limits, a throttling or
   failing status lowers exactly one, and a limit rises only together with the other.  The
   endpoint is blamed for its own failures and throttling, the host for the others and for the connection.
   */
  lemma BlameIsNotShared(r: Response)
    ensures !(HostMode(r).Dropped? && EndpointMode(r).Dropped?)
    ensures HostMode(r).Success? <==> EndpointMode(r).Success?
    ensures r.Status? && (IsServerError(r.code) || r.code == 429) ==>
              HostMode(r).Dropped? != EndpointMode(r).Dropped?
    ensures HostMode(r).Success? <==> r.Status? && !IsServerError(r.code) && r.code != 429
    ensures EndpointMode(r).Dropped? <==> r == Status(500) || r == Status(429)
    ensures HostMode(r).Dropped? <==> r == Failure(true) || (r.Status? && IsServerError(r.code) && r.code != 500)
  {
  }

  function Min(a: real, b: real): real {
    if a <= b then a else b
  }

  function Max(a: real, b: real): real {
    if a >= b then a else b
  }

  /** The limit that a permit which saw `snapshot` requests in flight proposes; `None` leaves it alone. */
  function Proposal(mode: Mode, snapshot: nat, limit: real): Option<real>
    requires limit > 0.0
  {
    match mode
    case Ignore => None
    case Success =>
      if snapshot >= (limit * BACKOFF_RATIO).Floor then Some(Min(MAX_LIMIT, limit + 1.0 / limit)) else None
    case Dropped => Some(Max(MIN_LIMIT, (limit * BACKOFF_RATIO).Floor as real))
  }

  datatype Update = Update(mode: Mode, snapshot: nat)

  predicate InRange(limit: real) {
    MIN_LIMIT <= limit <= MAX_LIMIT
  }

  lemma ProposalInRange(mode: Mode, snapshot: nat, limit: real)
    requires InRange(limit)
    ensures Proposal(mode, snapshot, limit).Some? ==> InRange(Proposal(mode, snapshot, limit).value)
  {
    assert 1.0 / limit > 0.0;
  }

  function Apply(limit: real, u: Update): (r: real)
    requires InRange(limit)
    ensures InRange(r)
  {
    ProposalInRange(u.mode, u.snapshot, limit);
    var p := Proposal(u.mode, u.snapshot, limit);
    if p.Some? then p.value else limit
  }

  /** The limit after a sequence of updates: the sequential meaning of any interleaving of them. */
  function Fold(limit: real, us: seq<Update>): (r: real)
    requires InRange(limit)
    ensures InRange(r)
  {
    if us == [] then limit else Apply(Fold(limit, us[..|us| - 1]), us[|us| - 1])
  }

  /** A sequence of updates can be taken in two stretches. */
  lemma {:induction false} FoldConcat(limit: real, us: seq<Update>, vs: seq<Update>)
    requires InRange(limit)
    ensures Fold(limit, us + vs) == Fold(Fold(limit, us), vs)
  {
    if vs == [] {
      assert us + vs == us;
    } else {
      var all := us + vs;
      assert all[..|all| - 1] == us + vs[..|vs| - 1];
      FoldConcat(limit, us, vs[..|vs| - 1]);
    }
  }

  // ----- what one update does, in numbers

  /** An update counts if it is a drop, or a success that saw at least nine tenths of the limit in flight. */
  predicate Counts(limit: real, u: Update) {
    u.mode == Dropped || (u.mode == Success && u.snapshot >= (0.9 * limit).Floor)
  }

  /**
   A success raises the limit by the part of one that the limit is of one, up to a million; a drop takes it to the
   whole part of nine tenths, or to one if that is less.
   */
  ghost predicate Exchanges(limit: real, mode: Mode, limit': real) {
    match mode
    case Ignore => false
    case Success => limit <= limit' <= 1000000.0 && (limit' == 1000000.0 || limit * (limit' - limit) == 1.0)
    case Dropped => limit' == if (0.9 * limit).Floor >= 1 then (0.9 * limit).Floor as real else 1.0
  }

  lemma PartOf(limit: real)
    requires limit > 0.0
    ensures limit * ((limit + 1.0 / limit) - limit) == 1.0 && limit + 1.0 / limit > limit
  {
    var inc := 1.0 / limit;
    assert limit * inc == 1.0;
    assert (limit + inc) - limit == inc;
    assert inc > 0.0;
  }

  /** An update that counts exchanges the limit as described, and one that does not leaves it alone. */
  lemma ApplyIs(limit: real, u: Update)
    requires InRange(limit)
    ensures Proposal(u.mode, u.snapshot, limit).Some? <==> Counts(limit, u)
    ensures Counts(limit, u) ==> Exchanges(limit, u.mode, Apply(limit, u))
    ensures !Counts(limit, u) ==> Apply(limit, u) == limit
  {
    assert 0.9 * limit == limit * BACKOFF_RATIO;
    if u.mode == Success {
      PartOf(limit);
    }
  }

  // ----- cautious increase

  /** Every update is a success that saw enough requests in flight to count. */
  ghost predicate AllEligible(limit: real, us: seq<Update>)
    requires InRange(limit)
  {
    us == [] || (
      && AllEligible(limit, us[..|us| - 1])
      && us[|us| - 1].mode == Success
      && us[|us| - 1].snapshot >= (Fold(limit, us[..|us| - 1]) * BACKOFF_RATIO).Floor)
  }

  lemma SquareOfIncrease(limit: real)
    requires limit >= 1.0
    ensures limit + 1.0 / limit > limit
    ensures var l := limit + 1.0 / limit; limit * limit + 2.0 <= l * l <= limit * limit + 3.0
  {
    var inc := 1.0 / limit;
    assert limit * inc == 1.0;
    assert 0.0 < inc <= 1.0;
    assert inc * inc <= 1.0 by {
      assert inc * inc <= inc * 1.0;
    }
    assert inc * inc >= 0.0;
    assert (limit + inc) * (limit + inc) == limit * limit + 2.0 * (limit * inc) + inc * inc;
  }

  lemma CapSquare(l: real)
    requires l >= MAX_LIMIT
    ensures MAX_LIMIT * MAX_LIMIT <= l * l
  {
    assert MAX_LIMIT * MAX_LIMIT <= MAX_LIMIT * l <= l * l;
  }

  /** The square of the limit lies between what k increases must and can have added to `base`. */
  ghost predicate Grown(base: real, k: nat, limit: real) {
    Min(MAX_LIMIT * MAX_LIMIT, base + 2.0 * k as real) <= limit * limit <= base + 3.0 * k as real
  }

  lemma IncreaseStep(base: real, k: nat, limit: real)
    requires InRange(limit) && Grown(base, k, limit)
    ensures Grown(base, k + 1, Min(MAX_LIMIT, limit + 1.0 / limit))
  {
    SquareOfIncrease(limit);
    assert (k + 1) as real == k as real + 1.0;
    var l := limit + 1.0 / limit;
    if l > MAX_LIMIT {
      CapSquare(l);
    }
  }

  /**
   Cautious increase: k eligible successes move the square of the limit up by at least 2k, short of
   the cap, and by at most 3k; so the limit grows no faster than a square root.
   */
  lemma {:induction false} CautiousIncrease(limit: real, us: seq<Update>)
    requires InRange(limit) && AllEligible(limit, us)
    ensures Grown(limit * limit, |us|, Fold(limit, us))
  {
    if us != [] {
      CautiousIncrease(limit, us[..|us| - 1]);
      IncreaseStep(limit * limit, |us| - 1, Fold(limit, us[..|us| - 1]));
    }
  }

  // ----- aggressive decrease

  /** `limit` multiplied j times by the backoff ratio. */
  function Shrunk(limit: real, j: nat): real {
    if j == 0 then limit else BACKOFF_RATIO * Shrunk(limit, j - 1)
  }

  /** Aggressive decrease: j dropped requests shrink the limit at least geometrically, down to the floor of one. */
  lemma {:induction false} AggressiveDecrease(limit: real, us: seq<Update>)
    requires InRange(limit) && AllDropped(us)
    ensures Fold(limit, us) <= Max(MIN_LIMIT, Shrunk(limit, |us|))
  {
    if us != [] {
      var before := us[..|us| - 1];
      AggressiveDecrease(limit, before);
      assert us[|us| - 1].mode == Dropped;
    }
  }

  // ----- either way

  ghost predicate AllDropped(us: seq<Update>) {
    forall u :: u in us ==> u.mode == Dropped
  }

  ghost predicate NoneDropped(us: seq<Update>) {
    forall u :: u in us ==> u.mode != Dropped
  }

  /** Nothing but drops lowers the limit. */
  lemma {:induction false} OnlyDropsLower(limit: real, us: seq<Update>)
    requires InRange(limit) && NoneDropped(us)
    ensures limit <= Fold(limit, us)
  {
    if us != [] {
      OnlyDropsLower(limit, us[..|us| - 1]);
      assert us[|us| - 1] in us;
      ApplyIs(Fold(limit, us[..|us| - 1]), us[|us| - 1]);
    }
  }

  /** The limit moved by these updates: up within the bounds of caution, or down at least geometrically. */
  ghost predicate Moved(limit: real, us: seq<Update>, limit': real)
    requires InRange(limit)
  {
    && limit' == Fold(limit, us)
    && (AllEligible(limit, us) ==> Grown(limit * limit, |us|, limit'))
    && (AllDropped(us) ==> limit' <= Max(MIN_LIMIT, Shrunk(limit, |us|)))
    && (NoneDropped(us) ==> limit <= limit')
  }

  lemma UpdatesMove(limit: real, us: seq<Update>)
    requires InRange(limit)
    ensures Moved(limit, us, Fold(limit, us))
  {
    if AllEligible(limit, us) {
      CautiousIncrease(limit, us);
    }
    if AllDropped(us) {
      AggressiveDecrease(limit, us);
    }
    if NoneDropped(us) {
      OnlyDropsLower(limit, us);
    }
  }

  /** The updates after the first of two stretches move the limit that the first one left. */
  lemma LaterUpdatesMove(limit: real, us: seq<Update>, all: seq<Update>)
    requires InRange(limit) && us <= all
    ensures Moved(Fold(limit, us), all[|us|..], Fold(limit, all))
  {
    assert all == us + all[|us|..];
    FoldConcat(limit, us, all[|us|..]);
    UpdatesMove(Fold(limit, us), all[|us|..]);
  }

  // ----- the limit follows the load

  /** The limit never runs away from the load: it stays near what was ever seen in flight. */
  lemma {:induction false} LimitFollowsLoad(us: seq<Update>, m: nat)
    requires forall u :: u in us ==> u.snapshot <= m
    ensures Fold(INITIAL_LIMIT, us) <= Max(INITIAL_LIMIT, 10.0 * (m + 1) as real / 9.0 + 1.0)
  {
    if us != [] {
      var before, u := us[..|us| - 1], us[|us| - 1];
      LimitFollowsLoad(before, m);
      var l := Fold(INITIAL_LIMIT, before);
      assert u in us;
      if u.mode == Success && u.snapshot >= (l * BACKOFF_RATIO).Floor {
        assert l * BACKOFF_RATIO < (m + 1) as real;
        assert 1.0 / l <= 1.0;
      } else if u.mode == Dropped {
        assert Fold(INITIAL_LIMIT, us) <= Max(MIN_LIMIT, l);
      }
    }
  }
}
