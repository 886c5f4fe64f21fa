/**
 The deficit semaphore on values: each operation that the program runs while it holds the
 semaphore's mutex is one function from state to state.  The linked queue is a sequence here;
 module DeficitSemaphore refines it to head, tail, next and prev pointers.
 */
module SemaphoreSpec {
  import opened Options

  /** The identity of a task's waker; two wakers are equal exactly when one will wake the other's task. */
  type Waker = nat

  /** A queued future.  Its waker is missing from the moment it is woken until it is polled again. */
  datatype Waiter<+T> = Waiter(id: T, waker: Option<Waker>)

  datatype Sem<+T> = Sem(total: nat, outstanding: nat, queue: seq<Waiter<T>>)

  /** The state after an operation, and the waker that the operation called, if any. */
  datatype Outcome<+T> = Outcome(sem: Sem<T>, woken: Option<Waker>)

  datatype Polled<+T> = Polled(sem: Sem<T>, ready: bool, woken: Option<Waker>)

  const USIZE_MAX: nat := 0xFFFF_FFFF_FFFF_FFFF

  predicate HasPermits<T>(s: Sem<T>) {
    s.total > s.outstanding
  }

  function Free<T>(s: Sem<T>): nat {
    if HasPermits(s) then s.total - s.outstanding else 0
  }

  function Deficit<T>(s: Sem<T>): nat {
    if s.outstanding > s.total then s.outstanding - s.total else 0
  }

  function MaybeWake<T>(s: Sem<T>): Outcome<T> {
    if HasPermits(s) && s.queue != [] then
      Outcome(s.(queue := s.queue[0 := s.queue[0].(waker := None)]), s.queue[0].waker)
    else
      Outcome(s, None)
  }

  /** `None` is the overflow panic. */
  function Add<T>(s: Sem<T>, n: nat): Option<Outcome<T>> {
    if s.total + n > USIZE_MAX then None else Some(MaybeWake(s.(total := s.total + n)))
  }

  /** `None` is the underflow panic. */
  function Remove<T>(s: Sem<T>, n: nat): Option<Sem<T>> {
    if n > s.total then None else Some(s.(total := s.total - n))
  }

  /** The index of the waiter `id`, or the length of the queue when it is not queued. */
  function Position<T(==)>(q: seq<Waiter<T>>, id: T): (i: nat)
    ensures i <= |q|
    ensures i < |q| ==> q[i].id == id
    ensures forall j :: 0 <= j < i ==> q[j].id != id
  {
    if q == [] then 0 else if q[0].id == id then 0 else 1 + Position(q[1..], id)
  }

  predicate Queued<T(==)>(s: Sem<T>, id: T) {
    Position(s.queue, id) < |s.queue|
  }

  function Enqueued<T(==)>(q: seq<Waiter<T>>, id: T): (r: seq<Waiter<T>>)
    ensures Position(r, id) < |r|
  {
    if Position(q, id) < |q| then q else
      assert (q + [Waiter(id, None)])[|q|].id == id;
      q + [Waiter(id, None)]
  }

  function Poll<T(==)>(s: Sem<T>, id: T, w: Waker): Polled<T> {
    if s.queue == [] && HasPermits(s) then
      Polled(s.(outstanding := s.outstanding + 1), true, None)
    else
      var q := Enqueued(s.queue, id);
      var i := Position(q, id);
      if i == 0 && HasPermits(s) then
        var o := MaybeWake(Sem(s.total, s.outstanding + 1, q[1..]));
        Polled(o.sem, true, o.woken)
      else
        Polled(s.(queue := q[i := Waiter(id, Some(w))]), false, None)
  }

  /** An acquiring future is dropped before it was granted a permit. */
  function Cancel<T(==)>(s: Sem<T>, id: T): Outcome<T> {
    var i := Position(s.queue, id);
    if i == |s.queue| then
      Outcome(s, None)
    else
      var s' := s.(queue := s.queue[..i] + s.queue[i + 1..]);
      if i == 0 then MaybeWake(s') else Outcome(s', None)
  }

  /** A permit is dropped. */
  function Release<T>(s: Sem<T>): Outcome<T>
    requires s.outstanding > 0
  {
    MaybeWake(s.(outstanding := s.outstanding - 1))
  }

  ghost predicate DistinctIds<T>(q: seq<Waiter<T>>) {
    forall i, j :: 0 <= i < j < |q| ==> q[i].id != q[j].id
  }

  ghost predicate TailArmed<T>(q: seq<Waiter<T>>) {
    forall i :: 1 <= i < |q| ==> q[i].waker.Some?
  }

  /**
   No lost wake-up: when a permit is free the head of the queue has been woken since it last
   returned Pending, and everyone behind the head still holds the waker that will wake it.
   */
  ghost predicate Inv<T>(s: Sem<T>) {
    && DistinctIds(s.queue)
    && TailArmed(s.queue)
    && (HasPermits(s) && s.queue != [] ==> s.queue[0].waker.None?)
  }

  lemma PollKeepsInv<T>(s: Sem<T>, id: T, w: Waker)
    requires Inv(s)
    ensures Inv(Poll(s, id, w).sem)
  {
    var q := Enqueued(s.queue, id);
    var i := Position(q, id);
    assert DistinctIds(q);
    assert forall j :: 1 <= j < |q| && j != i ==> q[j].waker.Some?;
  }

  lemma CancelKeepsInv<T>(s: Sem<T>, id: T)
    requires Inv(s)
    ensures Inv(Cancel(s, id).sem)
  {
    var i := Position(s.queue, id);
    if i < |s.queue| {
      var q := s.queue[..i] + s.queue[i + 1..];
      forall a, b | 0 <= a < b < |q|
        ensures q[a].id != q[b].id
      {
        assert q[a] == s.queue[if a < i then a else a + 1];
        assert q[b] == s.queue[if b < i then b else b + 1];
      }
      forall a | 1 <= a < |q|
        ensures q[a].waker.Some?
      {
        assert q[a] == s.queue[if a < i then a else a + 1];
      }
    }
  }

  lemma AdjustKeepsInv<T>(s: Sem<T>, n: nat)
    requires Inv(s)
    ensures Add(s, n).Some? ==> Inv(Add(s, n).value.sem)
    ensures Remove(s, n).Some? ==> Inv(Remove(s, n).value)
    ensures s.outstanding > 0 ==> Inv(Release(s).sem)
  {
  }

  function Ids<T>(q: seq<Waiter<T>>): (r: seq<T>)
    ensures |r| == |q|
    ensures forall i :: 0 <= i < |q| ==> r[i] == q[i].id
  {
    seq(|q|, i requires 0 <= i < |q| => q[i].id)
  }

  function Min(a: nat, b: nat): nat {
    if a <= b then a else b
  }

  /**
   The executor polls woken waiters only, each with its own task's waker, until none is left;
   returns the final state and the futures that were granted a permit, in order.
   */
  function DrainWoken<T(==)>(s: Sem<T>, waker: T -> Waker): (r: (Sem<T>, seq<T>))
    decreases |s.queue|, if s.queue != [] && s.queue[0].waker.None? then 1 else 0
  {
    if s.queue == [] || s.queue[0].waker.Some? then
      (s, [])
    else
      var id := s.queue[0].id;
      var p := Poll(s, id, waker(id));
      if p.ready then
        var rest := DrainWoken(p.sem, waker);
        (rest.0, [id] + rest.1)
      else
        DrainWoken(p.sem, waker)
  }

  /** Polling the head takes a permit if there is one, and arms its waker otherwise. */
  lemma PollHead<T>(s: Sem<T>, w: Waker)
    requires Inv(s) && s.queue != []
    ensures var p := Poll(s, s.queue[0].id, w);
            && p.ready == HasPermits(s)
            && p.sem.total == s.total
            && Inv(p.sem)
            && (p.ready ==> Ids(p.sem.queue) == Ids(s.queue)[1..] && p.sem.outstanding == s.outstanding + 1)
            && (!p.ready ==> Ids(p.sem.queue) == Ids(s.queue) && p.sem.outstanding == s.outstanding
                             && p.sem.queue[0].waker == Some(w))
  {
    PollKeepsInv(s, s.queue[0].id, w);
  }

  ghost predicate Drained<T>(s: Sem<T>, s': Sem<T>, granted: seq<T>) {
    var n := Min(Free(s), |s.queue|);
    && granted == Ids(s.queue)[..n]
    && Ids(s'.queue) == Ids(s.queue)[n..]
    && s'.outstanding == s.outstanding + n
    && s'.total == s.total
    && Inv(s')
    && (s'.queue != [] ==> s'.queue[0].waker.Some?)
  }

  /** A grant to the head followed by a drain of the rest is a drain of the whole. */
  lemma DrainCons<T>(s: Sem<T>, p: Sem<T>, s': Sem<T>, granted: seq<T>)
    requires s.queue != [] && HasPermits(s) && p.total == s.total && p.outstanding == s.outstanding + 1
    requires Ids(p.queue) == Ids(s.queue)[1..] && Drained(p, s', granted)
    ensures Drained(s, s', [s.queue[0].id] + granted)
  {
    var n, ids := Min(Free(s), |s.queue|), Ids(s.queue);
    assert Min(Free(p), |p.queue|) == n - 1;
    assert [ids[0]] + ids[1..][..n - 1] == ids[..n];
    assert ids[1..][n - 1..] == ids[n..];
  }

  /**
   Draining: polling nothing but woken waiters hands out exactly as many permits as are both free
   and wanted, to the front of the queue and in queue order, and stops with no woken waiter left.
   */
  lemma {:induction false} DrainGrantsMinInOrder<T>(s: Sem<T>, waker: T -> Waker)
    requires Inv(s)
    ensures Drained(s, DrainWoken(s, waker).0, DrainWoken(s, waker).1)
    decreases |s.queue|, if s.queue != [] && s.queue[0].waker.None? then 1 else 0
  {
    if s.queue != [] && s.queue[0].waker.None? {
      var id := s.queue[0].id;
      var p := Poll(s, id, waker(id));
      PollHead(s, waker(id));
      DrainGrantsMinInOrder(p.sem, waker);
      if p.ready {
        var rest := DrainWoken(p.sem, waker);
        DrainCons(s, p.sem, rest.0, rest.1);
      }
    }
  }
}
