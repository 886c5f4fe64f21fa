/**
 The deficit semaphore as the program builds it: an intrusive doubly linked queue of nodes that
 live inside the acquiring futures.  Every method refines one function of SemaphoreSpec.
 */
module DeficitSemaphore {
  import opened Options
  import Spec = SemaphoreSpec

  type Waker = Spec.Waker

  /** The calls of wakers after an operation that called `woken`, if any. */
  function Log(wakes: seq<Waker>, woken: Option<Waker>): seq<Waker> {
    if woken.Some? then wakes + [woken.value] else wakes
  }

  class Node {
    var waker: Option<Waker>
    var next: Node?
    var prev: Node?

    constructor ()
      ensures waker == None && next == null && prev == null
    {
      waker, next, prev := None, null, null;
    }
  }

  class Semaphore {
    var totalPermits: nat
    var outstandingPermits: nat
    var head: Node?
    var tail: Node?
    ghost var queue: seq<Node>           // the nodes from head to tail
    ghost var view: Spec.Sem<Node?>      // the state in the terms of the specification
    ghost var wakes: seq<Waker>          // every call of a waker so far

    /** The pointers describe exactly the sequence `q`, in both directions. */
    ghost predicate Linked(q: seq<Node>)
      reads this, q
    {
      && (forall i, j :: 0 <= i < j < |q| ==> q[i] != q[j])
      && head == (if q == [] then null else q[0])
      && tail == (if q == [] then null else q[|q| - 1])
      && (forall i {:trigger q[i].prev} :: 0 <= i < |q| ==> q[i].prev == if i == 0 then null else q[i - 1])
      && (forall i {:trigger q[i].next} :: 0 <= i < |q| ==> q[i].next == if i == |q| - 1 then null else q[i + 1])
    }

    ghost predicate Shown()
      reads this, queue
    {
      && view.total == totalPermits && view.outstanding == outstandingPermits
      && |view.queue| == |queue|
      && (forall i {:trigger view.queue[i]} {:trigger queue[i].waker} :: 0 <= i < |queue| ==>
            view.queue[i].id == queue[i] && view.queue[i].waker == queue[i].waker)
    }

    ghost predicate Valid()
      reads this, queue
    {
      Linked(queue) && Shown()
    }

    constructor (permits: nat)
      ensures Valid() && view == Spec.Sem(permits, 0, [])
      ensures queue == [] && wakes == []
    {
      totalPermits, outstandingPermits := permits, 0;
      head, tail := null, null;
      queue, wakes := [], [];
      view := Spec.Sem(permits, 0, []);
    }

    predicate HasPermits()
      reads this
    {
      totalPermits > outstandingPermits
    }

    method MaybeWake()
      requires Valid()
      modifies this`wakes, this`view, queue`waker
      ensures Valid()
      ensures view == Spec.MaybeWake(old(view)).sem
      ensures wakes == Log(old(wakes), Spec.MaybeWake(old(view)).woken)
    {
      if HasPermits() {
        if head != null {
          view := Spec.MaybeWake(view).sem;
          if head.waker.Some? {
            wakes := wakes + [head.waker.value];
            head.waker := None;
          }
        }
      }
    }

    method AddPermits(permits: nat) returns (ok: bool)
      requires Valid()
      modifies this`totalPermits, this`wakes, this`view, queue`waker
      ensures Valid()
      ensures ok == Spec.Add(old(view), permits).Some?
      ensures ok ==> view == Spec.Add(old(view), permits).value.sem
                     && wakes == Log(old(wakes), Spec.Add(old(view), permits).value.woken)
      ensures !ok ==> view == old(view) && wakes == old(wakes)
    {
      if totalPermits + permits > Spec.USIZE_MAX {
        return false;  // panics
      }
      totalPermits := totalPermits + permits;
      view := view.(total := totalPermits);
      MaybeWake();
      return true;
    }

    method RemovePermits(permits: nat) returns (ok: bool)
      requires Valid()
      modifies this`totalPermits, this`view
      ensures Valid()
      ensures ok == Spec.Remove(old(view), permits).Some?
      ensures view == if ok then Spec.Remove(old(view), permits).value else old(view)
    {
      if permits > totalPermits {
        return false;  // panics
      }
      totalPermits := totalPermits - permits;
      view := view.(total := totalPermits);
      return true;
    }

    /** The links of every node but the k-th pass over the k-th. */
    ghost predicate Bypassed(q: seq<Node>, k: nat)
      requires k < |q|
      reads this, q
    {
      && head == (if |q| == 1 then null else if k == 0 then q[1] else q[0])
      && tail == (if |q| == 1 then null else if k == |q| - 1 then q[k - 1] else q[|q| - 1])
      && (forall i {:trigger q[i].prev} :: 0 <= i < |q| && i != k ==>
            q[i].prev == if i == 0 then null else if i == k + 1 then (if k == 0 then null else q[k - 1]) else q[i - 1])
      && (forall i {:trigger q[i].next} :: 0 <= i < |q| && i != k ==>
            q[i].next == if i == |q| - 1 then null
                         else if i == k - 1 then (if k == |q| - 1 then null else q[k + 1]) else q[i + 1])
    }

    method Bypass(node: Node, ghost k: nat)
      requires Linked(queue) && k < |queue| && queue[k] == node
      modifies this`head, this`tail, queue`next, queue`prev
      ensures Bypassed(queue, k) && node.next == null && node.prev == null
    {
      if node.prev != null {
        node.prev.next := node.next;
      } else {
        head := node.next;
      }
      if node.next != null {
        node.next.prev := node.prev;
      } else {
        tail := node.prev;
      }
      node.prev := null;
      node.next := null;
    }

    lemma BypassedIsLinked(q: seq<Node>, k: nat)
      requires k < |q| && (forall i, j :: 0 <= i < j < |q| ==> q[i] != q[j]) && Bypassed(q, k)
      ensures q[k] !in q[..k] + q[k + 1..] && Linked(q[..k] + q[k + 1..])
    {
      var cut := q[..k] + q[k + 1..];
      assert forall i :: 0 <= i < |cut| ==> cut[i] == q[if i < k then i else i + 1];
    }

    /** Unlinks the node at any place of the queue; the others keep their order. */
    method Dequeue(node: Node, ghost k: nat)
      requires Valid() && k < |queue| && queue[k] == node
      modifies this`head, this`tail, this`queue, this`view, queue`next, queue`prev
      ensures Valid() && queue == old(queue)[..k] + old(queue)[k + 1..]
      ensures view == old(view).(queue := old(view).queue[..k] + old(view).queue[k + 1..])
      ensures node.next == null && node.prev == null
    {
      Bypass(node, k);
      BypassedIsLinked(queue, k);
      queue := queue[..k] + queue[k + 1..];
      view := view.(queue := view.queue[..k] + view.queue[k + 1..]);
    }

    /** Links a node that is in no queue behind the tail. */
    method PushBack(node: Node)
      requires Valid() && node !in queue && node.next == null && node.prev == null
      modifies this`head, this`tail, this`queue, this`view, queue`next, node`prev
      ensures Valid() && queue == old(queue) + [node]
      ensures view == old(view).(queue := old(view).queue + [Spec.Waiter(node, node.waker)])
      ensures node.next == null
    {
      ghost var q := queue;
      if tail != null {
        assert q[|q| - 1] == tail;
        tail.next := node;
        node.prev := tail;
      } else {
        head := node;
      }
      tail := node;
      queue := q + [node];
      view := view.(queue := view.queue + [Spec.Waiter(node, node.waker)]);
      assert forall i :: 0 <= i < |q| ==> queue[i] == q[i];
    }

    /** Unlinks the head and hands it a permit; the next waiter is woken if another one is free. */
    method TakeHead(node: Node)
      requires Valid() && queue != [] && queue[0] == node
      modifies this`head, this`tail, this`queue, this`view, this`outstandingPermits, this`wakes, queue
      ensures Valid() && queue == old(queue)[1..]
      ensures var o := Spec.MaybeWake(Spec.Sem(old(view).total, old(view).outstanding + 1, old(view).queue[1..]));
              view == o.sem && wakes == Log(old(wakes), o.woken)
    {
      Dequeue(node, 0);
      outstandingPermits := outstandingPermits + 1;
      view := view.(outstanding := outstandingPermits);
      assert view.queue == old(view).queue[1..];
      MaybeWake();
    }

    /** Gives a waiter its task's current waker. */
    method Arm(node: Node, waker: Waker, ghost k: nat)
      requires Valid() && k < |queue| && queue[k] == node
      modifies this`view, node`waker
      ensures Valid() && view == old(view).(queue := old(view).queue[k := Spec.Waiter(node, Some(waker))])
    {
      if node.waker != Some(waker) {
        node.waker := Some(waker);
      }
      view := view.(queue := view.queue[k := Spec.Waiter(node, Some(waker))]);
    }

    /** Unlinks a waiter that gives up; the one behind it is woken if it was up next. */
    method Abandon(node: Node, isHead: bool, ghost k: nat)
      requires Valid() && k < |queue| && queue[k] == node && isHead == (k == 0)
      modifies this`head, this`tail, this`queue, this`view, this`wakes, queue
      ensures Valid() && queue == old(queue)[..k] + old(queue)[k + 1..]
      ensures var s := old(view).(queue := old(view).queue[..k] + old(view).queue[k + 1..]);
              var o := if isHead then Spec.MaybeWake(s) else Spec.Outcome(s, None);
              view == o.sem && wakes == Log(old(wakes), o.woken)
    {
      Dequeue(node, k);
      if isHead {
        MaybeWake();
      }
    }
  }

  class Permit {
    const semaphore: Semaphore

    constructor (semaphore: Semaphore)
      ensures this.semaphore == semaphore
    {
      this.semaphore := semaphore;
    }

    /** Every live permit is one of the outstanding ones (SemaphoreRuns.AbsolutelyFair). */
    method Drop()
      requires semaphore.Valid() && semaphore.outstandingPermits > 0
      modifies semaphore`outstandingPermits, semaphore`wakes, semaphore`view, semaphore.queue`waker
      ensures semaphore.Valid()
      ensures semaphore.view == Spec.Release(old(semaphore.view)).sem
      ensures semaphore.wakes == Log(old(semaphore.wakes), Spec.Release(old(semaphore.view)).woken)
    {
      semaphore.outstandingPermits := semaphore.outstandingPermits - 1;
      semaphore.view := semaphore.view.(outstanding := semaphore.outstandingPermits);
      semaphore.MaybeWake();
    }
  }

  class Acquire {
    const semaphore: Semaphore
    var node: Node?

    constructor (semaphore: Semaphore)
      ensures this.semaphore == semaphore && node == null
    {
      this.semaphore := semaphore;
      node := null;
    }

    ghost predicate Valid()
      reads this, semaphore, semaphore.queue
    {
      semaphore.Valid() && (node != null ==> node in semaphore.queue)
    }

    /** The place of the future's node in the queue; the head is the node with no predecessor. */
    lemma Place() returns (k: nat)
      requires Valid() && node != null
      ensures k < |semaphore.queue| && semaphore.queue[k] == node
      ensures k == Spec.Position(semaphore.view.queue, node)
      ensures k == 0 <==> node.prev == null
    {
      k :| 0 <= k < |semaphore.queue| && semaphore.queue[k] == node;
      assert semaphore.view.queue[k].id == node;
      assert forall i :: 0 <= i < |semaphore.queue| && i != k ==> semaphore.view.queue[i].id != node;
    }

    /**
     One poll; `null` is Pending.  The future's identity in the specification is its node, or the
     node it is given by this poll.
     */
    method Poll(waker: Waker) returns (permit: Permit?)
      requires Valid()
      modifies this`node, semaphore, semaphore.queue
      ensures Valid()
      ensures var id := if old(node) != null then old(node) else node;
              var p := Spec.Poll(old(semaphore.view), id, waker);
              && semaphore.view == p.sem
              && (permit != null <==> p.ready)
              && semaphore.wakes == Log(old(semaphore.wakes), p.woken)
              && (node == null <==> p.ready)
      ensures permit != null ==> fresh(permit) && permit.semaphore == semaphore
      ensures node != null ==> node == old(node) || (old(node) == null && fresh(node))
      ensures forall i :: 0 <= i < |semaphore.queue| ==> semaphore.queue[i] in old(semaphore.queue) || fresh(semaphore.queue[i])
    {
      if semaphore.head == null && semaphore.HasPermits() {
        semaphore.outstandingPermits := semaphore.outstandingPermits + 1;
        semaphore.view := semaphore.view.(outstanding := semaphore.outstandingPermits);
        permit := new Permit(semaphore);
        return;
      }
      Enqueue();
      permit := TakeOrArm(waker);
      assert forall i :: 0 <= i < |semaphore.queue| ==> semaphore.queue[i] in semaphore.queue;
    }

    /** Queues the future unless it is queued already. */
    method Enqueue()
      requires Valid()
      modifies this`node, semaphore, semaphore.queue
      ensures Valid() && node != null && (old(node) != null ==> node == old(node))
      ensures semaphore.view == old(semaphore.view).(queue := Spec.Enqueued(old(semaphore.view).queue, node))
      ensures semaphore.wakes == old(semaphore.wakes)
      ensures old(node) == null ==> Spec.Position(semaphore.view.queue, node) == |old(semaphore.queue)|
      ensures semaphore.queue == old(semaphore.queue) || (fresh(node) && semaphore.queue == old(semaphore.queue) + [node])
    {
      if node == null {
        node := new Node();
        semaphore.PushBack(node);
        assert forall i :: 0 <= i < |old(semaphore.queue)| ==> old(semaphore.view).queue[i].id != node;
      } else {
        ghost var k := Place();
      }
    }

    /** Only the waiter at the head of the queue can take a permit. */
    method TakeOrArm(waker: Waker) returns (permit: Permit?)
      requires Valid() && node != null
      modifies this`node, semaphore, semaphore.queue
      ensures Valid()
      ensures var s := old(semaphore.view);
              var i := Spec.Position(s.queue, old(node));
              && i < |s.queue|
              && (permit != null <==> i == 0 && Spec.HasPermits(s))
              && (node == null <==> permit != null) && (permit == null ==> node == old(node))
              && if permit != null then
                   var o := Spec.MaybeWake(Spec.Sem(s.total, s.outstanding + 1, s.queue[1..]));
                   semaphore.view == o.sem && semaphore.wakes == Log(old(semaphore.wakes), o.woken)
                 else
                   && semaphore.view == s.(queue := s.queue[i := Spec.Waiter(old(node), Some(waker))])
                   && semaphore.wakes == old(semaphore.wakes)
      ensures permit != null ==> fresh(permit) && permit.semaphore == semaphore
      ensures forall n :: n in semaphore.queue ==> n in old(semaphore.queue)
    {
      ghost var k := Place();
      if node.prev == null && semaphore.HasPermits() {
        semaphore.TakeHead(node);
        node := null;
        permit := new Permit(semaphore);
      } else {
        semaphore.Arm(node, waker, k);
        permit := null;
      }
    }

    /** The future is dropped; if it was up next, the waiter behind it is woken. */
    method Drop()
      requires Valid()
      modifies this`node, semaphore, semaphore.queue
      ensures Valid() && node == null
      ensures forall i :: 0 <= i < |semaphore.queue| ==> semaphore.queue[i] in old(semaphore.queue)
      ensures semaphore.view == Spec.Cancel(old(semaphore.view), old(node)).sem
      ensures semaphore.wakes == Log(old(semaphore.wakes), Spec.Cancel(old(semaphore.view), old(node)).woken)
    {
      if node != null {
        var isHead := node.prev == null;
        ghost var k := Place();
        semaphore.Abandon(node, isHead, k);
        node := null;
      }
    }
  }
}
