/**
 The failure memory of a node: a sum that decays by a constant factor every interval.  The program
 decays lazily, several intervals at once and only when it is looked at; the reference below
 decays every update on its own, from the interval it was made in to the one it is read in.
 */
module Reservoir {
  const DECAYS_PER_HALF_LIFE: nat := 10

  function Power(x: real, n: nat): real {
    if n == 0 then 1.0 else x * Power(x, n - 1)
  }

  /** An update and the interval it was made in. */
  datatype Entry = Entry(interval: nat, amount: real)

  /** Time never goes back. */
  ghost predicate Chronological(us: seq<Entry>, now: nat) {
    forall i :: 0 <= i < |us| ==> us[i].interval <= now
  }

  /** The reference: each update multiplied by the factor once for every interval begun since. */
  ghost function Decayed(factor: real, us: seq<Entry>, now: nat): real
    requires Chronological(us, now)
  {
    if us == [] then 0.0
    else
      var last := us[|us| - 1];
      Decayed(factor, us[..|us| - 1], now) + last.amount * Power(factor, now - last.interval)
  }

  /** One more interval multiplies the whole memory by the factor. */
  lemma {:induction false} DecayedNext(factor: real, us: seq<Entry>, now: nat)
    requires Chronological(us, now)
    ensures Decayed(factor, us, now + 1) == factor * Decayed(factor, us, now)
  {
    if us != [] {
      var last, front := us[|us| - 1], us[..|us| - 1];
      DecayedNext(factor, front, now);
      Distribute(factor, Decayed(factor, front, now), last.amount, Power(factor, now - last.interval));
    }
  }

  lemma Distribute(f: real, a: real, u: real, p: real)
    ensures f * a + u * (f * p) == f * (a + u * p)
  {
  }

  /** A value after n decays, one at a time. */
  ghost function Faded(factor: real, value: real, n: nat): real {
    if n == 0 then value else factor * Faded(factor, value, n - 1)
  }

  /** Decaying n times is multiplying by the n-th power, as the program does. */
  lemma {:induction false} FadedPower(factor: real, value: real, n: nat)
    ensures Faded(factor, value, n) == value * Power(factor, n)
  {
    if n > 0 {
      FadedPower(factor, value, n - 1);
      Swap(factor, value, Power(factor, n - 1));
    }
  }

  lemma Swap(f: real, v: real, p: real)
    ensures f * (v * p) == v * (f * p)
  {
  }

  /** Reading n intervals later is reading now and decaying n times. */
  lemma {:induction false} DecayedLater(factor: real, us: seq<Entry>, now: nat, n: nat)
    requires Chronological(us, now)
    ensures Decayed(factor, us, now + n) == Faded(factor, Decayed(factor, us, now), n)
  {
    if n > 0 {
      DecayedLater(factor, us, now, n - 1);
      DecayedNext(factor, us, now + n - 1);
    }
  }

  /** With the program's factor, whose tenth power is one half, ten intervals halve the memory exactly. */
  lemma HalfLife(factor: real, us: seq<Entry>, now: nat)
    requires Chronological(us, now) && Power(factor, 10) == 0.5
    ensures Decayed(factor, us, now + 10) == Decayed(factor, us, now) * 0.5
  {
    DecayedLater(factor, us, now, DECAYS_PER_HALF_LIFE);
    FadedPower(factor, Decayed(factor, us, now), DECAYS_PER_HALF_LIFE);
  }

  lemma Snoc(factor: real, us: seq<Entry>, now: nat, amount: real)
    requires Chronological(us, now)
    ensures Decayed(factor, us + [Entry(now, amount)], now) == Decayed(factor, us, now) + amount
  {
    var us' := us + [Entry(now, amount)];
    assert us'[..|us'| - 1] == us;
    assert Power(factor, 0) == 1.0;
  }

  // ----- counting intervals

  lemma MulMonotone(x: nat, a: nat, b: nat)
    requires a <= b
    ensures x * a <= x * b
  {
  }

  lemma Quotient(x: nat, interval: nat, q: nat, r: nat)
    requires interval > 0 && r < interval && x == interval * q + r
    ensures x / interval == q
  {
    var q' := x / interval;
    if q' > q {
      MulMonotone(interval, q + 1, q');
    } else if q' < q {
      MulMonotone(interval, q' + 1, q);
    }
  }

  lemma IntervalsGrow(a: nat, b: nat, interval: nat)
    requires interval > 0 && a <= b
    ensures a / interval <= b / interval
  {
    if a / interval > b / interval {
      MulMonotone(interval, b / interval + 1, a / interval);
    }
  }

  /** Whole intervals since the last boundary are the intervals begun since. */
  lemma DecayCount(now: nat, time: nat, interval: nat)
    requires interval > 0 && now <= time
    ensures interval * (now / interval) <= time
    ensures (time - interval * (now / interval)) / interval == time / interval - now / interval >= 0
  {
    IntervalsGrow(now, time, interval);
    var k, n := now / interval, time / interval;
    assert interval * n - interval * k == interval * (n - k);
    Quotient(time - interval * k, interval, n - k, time % interval);
  }

  /** After k intervals, the last decay is the latest interval boundary and the value is the reference's. */
  ghost predicate InStep(interval: nat, factor: real, us: seq<Entry>, k: nat, last: nat, value: real) {
    Chronological(us, k) && last == interval * k && value == Decayed(factor, us, k)
  }

  /** Being in step n intervals later. */
  lemma Advance(interval: nat, factor: real, us: seq<Entry>, k: nat, n: nat, last: nat, value: real)
    requires InStep(interval, factor, us, k, last, value)
    ensures InStep(interval, factor, us, k + n, last + n * interval, Faded(factor, value, n))
  {
    Boundary(interval, k, n);
    DecayedLater(factor, us, k, n);
  }

  lemma Boundary(interval: nat, k: nat, n: nat)
    ensures interval * k + n * interval == interval * (k + n)
  {
  }

  class CoarseExponentialDecayReservoir {
    var value: real
    var lastDecayNanos: nat
    const decayIntervalNanos: nat
    const factor: real
    ghost var updates: seq<Entry>   // every update so far
    ghost var now: nat              // the latest reading of the clock

    constructor (halfLifeNanos: nat, factor: real)
      requires halfLifeNanos >= DECAYS_PER_HALF_LIFE
      ensures Valid() && updates == [] && now == 0 && this.factor == factor
      ensures decayIntervalNanos == halfLifeNanos / 10
    {
      value, lastDecayNanos := 0.0, 0;
      decayIntervalNanos := halfLifeNanos / DECAYS_PER_HALF_LIFE;
      this.factor := factor;
      updates, now := [], 0;
    }

    ghost function Interval(time: nat): nat
      requires decayIntervalNanos > 0
    {
      time / decayIntervalNanos
    }

    /** The lazily kept value is the eagerly decayed one, whenever and however often it was looked at. */
    ghost predicate Valid()
      reads this
    {
      decayIntervalNanos > 0 && InStep(decayIntervalNanos, factor, updates, Interval(now), lastDecayNanos, value)
    }

    method DecayIfNecessary(time: nat)
      requires Valid() && now <= time
      modifies this`value, this`lastDecayNanos, this`now
      ensures Valid() && now == time
    {
      DecayCount(now, time, decayIntervalNanos);
      Advance(decayIntervalNanos, factor, updates, Interval(now), Interval(time) - Interval(now), lastDecayNanos, value);
      now := time;
      var sinceLastDecay := time - lastDecayNanos;
      var decays := sinceLastDecay / decayIntervalNanos;
      if decays == 0 {
        return;
      }
      lastDecayNanos := lastDecayNanos + decays * decayIntervalNanos;
      Decay(decays);
    }

    method Decay(decays: nat)
      modifies this`value
      ensures value == Faded(factor, old(value), decays)
    {
      FadedPower(factor, value, decays);
      value := value * Power(factor, decays);
    }

    method Update(time: nat, amount: real)
      requires Valid() && now <= time
      modifies this`value, this`lastDecayNanos, this`now, this`updates
      ensures Valid() && now == time && updates == old(updates) + [Entry(Interval(time), amount)]
    {
      DecayIfNecessary(time);
      Snoc(factor, updates, Interval(time), amount);
      value := value + amount;
      updates := updates + [Entry(Interval(time), amount)];
    }

    method Get(time: nat) returns (v: real)
      requires Valid() && now <= time
      modifies this`value, this`lastDecayNanos, this`now
      ensures Valid() && now == time
      ensures v == Decayed(factor, updates, Interval(time))
    {
      DecayIfNecessary(time);
      v := value;
    }
  }
}
