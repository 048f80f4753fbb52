/**
 The list and semaphore statements of the condition-variable macros, as they run inside the
 critical section, on the linked records themselves.
 */
module ConditionList {
  import opened Common

  /** struct _xthread_waiter: one record per thread, with the count of its semaphore. */
  class Waiter {
    var sem: nat
    var next: Waiter?

    constructor ()
      ensures sem == 0 && next == null
    {
      sem := 0;
      next := null;
    }
  }

  class Condition {
    var waiters: Waiter?
    ghost var queue: seq<Waiter>

    ghost predicate Valid()
      reads this, queue
    {
      && Distinct(queue)
      && Chained(waiters, queue)
    }

    static ghost predicate Chained(head: Waiter?, q: seq<Waiter>)
      reads q
    {
      && head == (if q == [] then null else q[0])
      && (forall i, j :: 0 <= i < j < |q| && j == i + 1 ==> q[i].next == q[j])
      && (q != [] ==> q[|q| - 1].next == null)
    }

    /** xcondition_init */
    constructor ()
      ensures Valid() && queue == []
    {
      waiters := null;
      queue := [];
    }

    /** The critical section of xcondition_wait. */
    method Enqueue(w: Waiter)
      requires Valid() && w !in queue
      modifies this, w`next
      ensures Valid() && queue == [w] + old(queue)
    {
      w.next := waiters;
      waiters := w;
      queue := [w] + queue;
      assert forall i :: 1 <= i < |queue| ==> queue[i] == old(queue)[i - 1];
    }

    /** The critical section of xcondition_signal: the newest waiter is released and unlinked. */
    method Signal()
      requires Valid()
      modifies this, if waiters == null then {} else {waiters}
      ensures Valid()
      ensures old(queue) == [] ==> queue == []
      ensures old(queue) != [] ==> queue == old(queue)[1..] && old(queue)[0].sem == old(queue[0].sem) + 1
      ensures forall w :: w in old(queue) ==> w.next == old(w.next)
    {
      if waiters != null {
        waiters.sem := waiters.sem + 1;
        waiters := waiters.next;
        queue := queue[1..];
        assert forall i :: 0 <= i < |queue| ==> queue[i] == old(queue)[i + 1];
      }
    }

    /** The critical section of xcondition_broadcast: the walk releases every waiter once and
        writes no link, and the list ends empty. */
    method Broadcast()
      requires Valid()
      modifies this, queue
      ensures Valid() && queue == []
      ensures forall w :: w in old(queue) ==> w.sem == old(w.sem) + 1 && w.next == old(w.next)
    {
      var cur := waiters;
      ghost var k := 0;
      while cur != null
        invariant 0 <= k <= |queue|
        invariant unchanged(this)
        invariant cur == (if k == |queue| then null else queue[k])
        invariant forall i :: 0 <= i < |queue| ==> queue[i].next == old(queue[i].next)
        invariant forall i :: 0 <= i < |queue| ==> queue[i].sem == old(queue[i].sem) + (if i < k then 1 else 0)
        decreases |queue| - k
      {
        cur.sem := cur.sem + 1;
        assert k + 1 < |queue| ==> queue[k].next == queue[k + 1];
        cur := cur.next;
        k := k + 1;
      }
      waiters := null;
      queue := [];
    }
  }
}
