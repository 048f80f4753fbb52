/**
 Whole calls of the condition variable's three macros, from the call to the return: what the calling thread has done
 after each of its own statements, however the other threads run in between.
 */
module ConditionCalls {
  import opened Common
  import opened ConditionProtocol

  /** The semaphores that b itself releases from step i up to step j, in order. */
  ghost function OwnPosts(run: seq<State>, events: seq<Event>, i: nat, j: nat, b: Tid): seq<Tid>
    requires |run| == |events| + 1 && i <= j <= |events|
    decreases j
  {
    if i == j then []
    else
      OwnPosts(run, events, i, j - 1, b)
      + if events[j - 1].t == b then Posted(run[j - 1], b, events[j - 1].a) else []
  }

  /** b has not returned from a macro between the states i and j. */
  ghost predicate Busy(run: seq<State>, i: nat, j: nat, b: Tid) {
    i < j <= |run| && forall k :: i < k < j ==> b < |run[k].pc| && !run[k].pc[b].Idle?
  }

  /** While b takes no step it stays where it is and releases nothing. */
  lemma {:induction false} Standing(run: seq<State>, events: seq<Event>, i: nat, j: nat, b: Tid)
    requires IsRun(run, events) && i <= j < |run| && b < |run[i].pc| && OwnSteps(events, i, j, b) == 0
    ensures b < |run[j].pc| && run[j].pc[b] == run[i].pc[b] && OwnPosts(run, events, i, j, b) == []
  {
    if i < j {
      Standing(run, events, i, j - 1, b);
      assert StepsAt(run, events, j - 1);
      StepFrame(run[j - 1], events[j - 1].t, events[j - 1].a);
    }
  }

  /** From the call to the first statement the caller stands in front of it. */
  lemma Called(run: seq<State>, events: seq<Event>, i: nat, e: nat, b: Tid)
    requires IsRun(run, events) && i < e < |run| && events[i].t == b && !events[i].a.Advance?
    requires OwnSteps(events, i + 1, e, b) == 0
    ensures b < |run[i].pc| && b < |run[i + 1].pc| && b < |run[e].pc|
    ensures run[e].pc[b] == run[i + 1].pc[b] && StepsAt(run, events, i)
    ensures OwnPosts(run, events, i, e, b) == []
  {
    assert StepsAt(run, events, i);
    StepFrame(run[i], b, events[i].a);
    Standing(run, events, i + 1, e, b);
    OwnPostsSplit(run, events, i, i + 1, e, b);
    assert OwnPosts(run, events, i, i, b) == [];
    assert OwnPosts(run, events, i, i + 1, b) == [];
  }

  lemma {:induction false} OwnPostsSplit(run: seq<State>, events: seq<Event>, i: nat, k: nat, j: nat, b: Tid)
    requires |run| == |events| + 1 && i <= k <= j <= |events|
    ensures OwnPosts(run, events, i, j, b) == OwnPosts(run, events, i, k, b) + OwnPosts(run, events, k, j, b)
    decreases j
  {
    if k < j {
      OwnPostsSplit(run, events, i, k, j - 1, b);
    }
  }

  // ---------------------------------------------------------------------------------------
  // Signal
  // ---------------------------------------------------------------------------------------

  /** A signaller after n of its statements: where it is, what it has released, what is queued. */
  ghost predicate SignalAfter(n: nat, found: seq<Tid>, p: Pc, posted: seq<Tid>, queue: seq<Tid>) {
    if found == [] then
      && posted == []
      && (p.Idle? || queue == [])
      && ((n == 1 && p == Signal(STest)) || (n == 2 && p == Signal(SLeave)) || (n == 3 && p == Idle))
    else
      && posted == (if n < 3 then [] else [found[0]])
      && (p.Idle? || queue == if n < 3 then found else found[1..])
      && ((n == 1 && p == Signal(STest)) || (n == 2 && p == Signal(SRelease)) || (n == 3 && p == Signal(SPop))
          || (n == 4 && p == Signal(SLeave)) || (n == 5 && p == Idle))
  }

  lemma HolderKnows(s: State, b: Tid, rel: seq<Tid>, pend: seq<Tid>)
    requires Inv(s, rel, pend) && b < |s.pc| && s.pc[b].InCs()
    ensures s.cs == Some(b) && Knows(s, b, s.pc[b], rel, pend)
  {
    hide MutexesInv, Tickets, ListInv;
  }

  /** One statement of a signaller. */
  lemma SignalMoves(s: State, b: Tid, rel: seq<Tid>, pend: seq<Tid>) returns (p: Pc, post: seq<Tid>, pend': seq<Tid>)
    requires Inv(s, rel, pend) && b < |s.pc| && s.pc[b].Signal? && !s.pc[b].g.SEnter? && Enabled(s, b, Advance)
    ensures b < |Step(s, b, Advance).pc| && p == Step(s, b, Advance).pc[b]
    ensures post == Posted(s, b, Advance) && pend' == NextPend(s, b, Advance, pend)
    ensures s.pc[b].g.STest? ==> p == Signal(if pend == [] then SLeave else SRelease)
    ensures s.pc[b].g.SRelease? ==> p == Signal(SPop) && pend != [] && post == [pend[0]] && pend' == pend[1..]
    ensures s.pc[b].g.SPop? ==> p == Signal(SLeave)
    ensures s.pc[b].g.SLeave? ==> p == Idle
    ensures !s.pc[b].g.SRelease? ==> post == [] && pend' == pend
  {
    hide MutexesInv, Tickets, ListInv, HolderInv, CsInv, NextOf;
    HeadIsFirst(s, rel, pend);
    HolderKnows(s, b, rel, pend);
    assert s.pc[b].g.STest? ==> rel + pend == pend;
    StepSem(s, b, Advance, rel, pend);
    p, post, pend' := Step(s, b, Advance).pc[b], Posted(s, b, Advance), NextPend(s, b, Advance, pend);
  }

  lemma SignalOwn(s: State, b: Tid, rel: seq<Tid>, pend: seq<Tid>, n: nat, found: seq<Tid>, posted: seq<Tid>)
    requires Inv(s, rel, pend) && b < |s.pc| && s.pc[b].Signal? && !s.pc[b].g.SEnter? && Enabled(s, b, Advance)
    requires SignalAfter(n, found, s.pc[b], posted, pend)
    ensures var s' := Step(s, b, Advance);
      b < |s'.pc| &&
      SignalAfter(n + 1, found, s'.pc[b], posted + Posted(s, b, Advance), NextPend(s, b, Advance, pend))
  {
    hide Inv, Step, Posted, NextPend, Enabled;
    var p, post, pend' := SignalMoves(s, b, rel, pend);
    assert posted + [] == posted && (found != [] ==> [] + [found[0]] == [found[0]]);
  }

  lemma SignalNext(s: State, e: Event, b: Tid, rel: seq<Tid>, pend: seq<Tid>, n: nat, found: seq<Tid>, posted: seq<Tid>)
    requires Inv(s, rel, pend) && b < |s.pc| && !s.pc[b].Idle? && Enabled(s, e.t, e.a)
    requires SignalAfter(n, found, s.pc[b], posted, pend)
    ensures var s', m := Step(s, e.t, e.a), n + if e.t == b then 1 else 0;
      b < |s'.pc| &&
      SignalAfter(m, found, s'.pc[b], posted + (if e.t == b then Posted(s, b, e.a) else []),
                  NextPend(s, e.t, e.a, pend))
  {
    hide ListInv, MutexesInv, Tickets, Posted, Step;
    if e.t == b {
      SignalOwn(s, b, rel, pend, n, found, posted);
    } else {
      StepFrame(s, e.t, e.a);
      assert s.pc[b].InCs();
      StepListOutside(s, e.t, e.a, rel, pend);
      assert posted + [] == posted;
    }
  }

  /** One event of a run while b is in the critical section. */
  lemma SignalNextAt(run: seq<State>, events: seq<Event>, e: nat, k: nat, b: Tid, n: nat)
    requires IsRun(run, events) && e <= k < |events| && b < |run[k].pc| && !run[k].pc[b].Idle?
    requires SignalAfter(n, Queue(run[e]), run[k].pc[b], OwnPosts(run, events, e, k, b), Queue(run[k]))
    ensures b < |run[k + 1].pc|
    ensures SignalAfter(n + if events[k].t == b then 1 else 0, Queue(run[e]), run[k + 1].pc[b],
                        OwnPosts(run, events, e, k + 1, b), Queue(run[k + 1]))
  {
    hide SignalAfter, Queue, NextPend, NextRel, Init, Inv, Posted;
    var rel, pend := RunInv(run, events, k);
    assert StepsAt(run, events, k);
    var s, ev := run[k], events[k];
    StepKeepsInv(s, ev.t, ev.a, rel, pend);
    QueueIsPend(run[k + 1], NextRel(s, ev.t, ev.a, rel, pend), NextPend(s, ev.t, ev.a, pend));
    SignalNext(s, ev, b, rel, pend, n, Queue(run[e]), OwnPosts(run, events, e, k, b));
  }

  /** The first statement enters the critical section and finds the queue. */
  lemma SignalFirst(run: seq<State>, events: seq<Event>, e: nat, b: Tid)
    requires IsRun(run, events) && e < |events| && b < |run[e].pc| && run[e].pc[b] == Signal(SEnter) && events[e].t == b
    ensures b < |run[e + 1].pc|
    ensures SignalAfter(1, Queue(run[e]), run[e + 1].pc[b], OwnPosts(run, events, e, e + 1, b), Queue(run[e + 1]))
  {
    hide Queue;
    assert StepsAt(run, events, e);
    QuietAt(run, events, e, b);
    assert OwnPosts(run, events, e, e, b) == [];
    assert Posted(run[e], b, events[e].a) == [];
    assert [] + Queue(run[e + 1]) == Queue(run[e + 1]);
  }

  lemma {:induction false} SignalCall(run: seq<State>, events: seq<Event>, e: nat, j: nat, b: Tid)
    requires IsRun(run, events) && e < j < |run|
    requires b < |run[e].pc| && run[e].pc[b] == Signal(SEnter) && events[e].t == b && Busy(run, e, j, b)
    ensures b < |run[j].pc|
    ensures SignalAfter(OwnSteps(events, e, j, b), Queue(run[e]), run[j].pc[b], OwnPosts(run, events, e, j, b),
                        Queue(run[j]))
  {
    hide Queue, SignalAfter, Init, StepsAt, OwnPosts;
    if j == e + 1 {
      SignalFirst(run, events, e, b);
      assert OwnSteps(events, e, e, b) == 0;
    } else {
      SignalCall(run, events, e, j - 1, b);
      SignalNextAt(run, events, e, j - 1, b, OwnSteps(events, e, j - 1, b));
    }
  }

  /** A call of signal: the thread calls at i, and enters the critical section at e.  It releases the first of the
      threads that are queued then, and no other, with its third statement, and has returned after the fifth; when
      nobody is queued it releases nobody and has returned after the third. */
  lemma SignalReturns(run: seq<State>, events: seq<Event>, i: nat, e: nat, j: nat, b: Tid)
    requires IsRun(run, events) && i < e < j < |run| && events[i] == Event(b, CallSignal)
    requires OwnSteps(events, i + 1, e, b) == 0 && events[e].t == b && Busy(run, e, j, b)
    ensures b < |run[j].pc|
    ensures var n, found := OwnSteps(events, e, j, b), Queue(run[e]);
      && 1 <= n <= (if found == [] then 3 else 5)
      && (run[j].pc[b].Idle? <==> n == if found == [] then 3 else 5)
      && OwnPosts(run, events, i, j, b) == if found == [] || n < 3 then [] else [found[0]]
  {
    hide Queue, Init, OwnPosts;
    Called(run, events, i, e, b);
    SignalCall(run, events, e, j, b);
    OwnPostsSplit(run, events, i, e, j, b);
  }

  // ---------------------------------------------------------------------------------------
  // Broadcast
  // ---------------------------------------------------------------------------------------

  /** A broadcaster after n of its statements: where it is, what it has released, what is queued. */
  ghost predicate BroadcastAfter(n: nat, found: seq<Tid>, p: Pc, posted: seq<Tid>, queue: seq<Tid>) {
    if p.Idle? then n == 3 * |found| + 5 && posted == found
    else
      && p.Broadcast? && !p.b.BEnter?
      && n + StepsLeft(p.b, |queue|) == 3 * |found| + 4
      && posted + queue == found
      && (p.b.BLoad? ==> posted == [])
      && (p.b.BClear? || p.b.BLeave? ==> queue == [])
  }

  lemma BroadcastOwn(s: State, b: Tid, rel: seq<Tid>, pend: seq<Tid>, n: nat, found: seq<Tid>, posted: seq<Tid>)
    requires Inv(s, rel, pend) && b < |s.pc| && s.pc[b].Broadcast? && Enabled(s, b, Advance)
    requires BroadcastAfter(n, found, s.pc[b], posted, pend)
    ensures var s' := Step(s, b, Advance);
      b < |s'.pc| &&
      BroadcastAfter(n + 1, found, s'.pc[b], posted + Posted(s, b, Advance), NextPend(s, b, Advance, pend))
  {
    hide MutexesInv, Tickets, Linked, Distinct;
    assert s.pc[b].InCs() && Knows(s, b, s.pc[b], rel, pend);
    if s.pc[b].b.BLeave? {
      assert posted + [] == posted;
    } else {
      BroadcastOwnStep(s, b, rel, pend);
      StepSem(s, b, Advance, rel, pend);
      assert posted + [] == posted;
      if s.pc[b].b.BRelease? {
        assert posted + pend[..1] + pend[1..] == posted + pend;
      }
    }
  }

  lemma BroadcastNextStep(s: State, e: Event, b: Tid, rel: seq<Tid>, pend: seq<Tid>, n: nat, found: seq<Tid>,
                          posted: seq<Tid>)
    requires Inv(s, rel, pend) && b < |s.pc| && !s.pc[b].Idle? && Enabled(s, e.t, e.a)
    requires BroadcastAfter(n, found, s.pc[b], posted, pend)
    ensures var s', m := Step(s, e.t, e.a), n + if e.t == b then 1 else 0;
      b < |s'.pc| &&
      BroadcastAfter(m, found, s'.pc[b], posted + (if e.t == b then Posted(s, b, e.a) else []),
                     NextPend(s, e.t, e.a, pend))
  {
    hide ListInv, MutexesInv, Tickets, Posted, Step;
    if e.t == b {
      BroadcastOwn(s, b, rel, pend, n, found, posted);
    } else {
      StepFrame(s, e.t, e.a);
      assert s.pc[b].InCs();
      StepListOutside(s, e.t, e.a, rel, pend);
      assert posted + [] == posted;
    }
  }

  lemma BroadcastNextAt(run: seq<State>, events: seq<Event>, e: nat, k: nat, b: Tid, n: nat)
    requires IsRun(run, events) && e <= k < |events| && b < |run[k].pc| && !run[k].pc[b].Idle?
    requires BroadcastAfter(n, Queue(run[e]), run[k].pc[b], OwnPosts(run, events, e, k, b), Queue(run[k]))
    ensures b < |run[k + 1].pc|
    ensures BroadcastAfter(n + if events[k].t == b then 1 else 0, Queue(run[e]), run[k + 1].pc[b],
                           OwnPosts(run, events, e, k + 1, b), Queue(run[k + 1]))
  {
    hide BroadcastAfter, Queue, NextPend, NextRel, Init, Inv, Posted;
    var rel, pend := RunInv(run, events, k);
    assert StepsAt(run, events, k);
    var s, ev := run[k], events[k];
    StepKeepsInv(s, ev.t, ev.a, rel, pend);
    QueueIsPend(run[k + 1], NextRel(s, ev.t, ev.a, rel, pend), NextPend(s, ev.t, ev.a, pend));
    BroadcastNextStep(s, ev, b, rel, pend, n, Queue(run[e]), OwnPosts(run, events, e, k, b));
  }

  lemma BroadcastFirst(run: seq<State>, events: seq<Event>, e: nat, b: Tid)
    requires IsRun(run, events) && e < |events| && b < |run[e].pc| && events[e].t == b
    requires run[e].pc[b] == Broadcast(BEnter, None)
    ensures b < |run[e + 1].pc|
    ensures BroadcastAfter(1, Queue(run[e]), run[e + 1].pc[b], OwnPosts(run, events, e, e + 1, b), Queue(run[e + 1]))
  {
    hide Queue;
    assert StepsAt(run, events, e);
    QuietAt(run, events, e, b);
    assert OwnPosts(run, events, e, e, b) == [];
    assert Posted(run[e], b, events[e].a) == [];
    assert [] + Queue(run[e + 1]) == Queue(run[e + 1]);
  }

  lemma {:induction false} BroadcastCall(run: seq<State>, events: seq<Event>, e: nat, j: nat, b: Tid)
    requires IsRun(run, events) && e < j < |run|
    requires b < |run[e].pc| && run[e].pc[b] == Broadcast(BEnter, None) && events[e].t == b && Busy(run, e, j, b)
    ensures b < |run[j].pc|
    ensures BroadcastAfter(OwnSteps(events, e, j, b), Queue(run[e]), run[j].pc[b], OwnPosts(run, events, e, j, b),
                           Queue(run[j]))
  {
    hide Queue, BroadcastAfter, Init, StepsAt, OwnPosts;
    if j == e + 1 {
      BroadcastFirst(run, events, e, b);
      assert OwnSteps(events, e, e, b) == 0;
    } else {
      BroadcastCall(run, events, e, j - 1, b);
      BroadcastNextAt(run, events, e, j - 1, b, OwnSteps(events, e, j - 1, b));
    }
  }

  /** How much of the queue has been released by the n-th statement. */
  lemma ReleasedSoFar(n: nat, found: seq<Tid>, p: Pc, posted: seq<Tid>, queue: seq<Tid>)
    requires BroadcastAfter(n, found, p, posted, queue)
    ensures n <= 3 * |found| + 5 && (p.Idle? <==> n == 3 * |found| + 5)
    ensures posted == if n >= 3 * |found| + 1 then found else found[..(n - 1) / 3]
  {
    if !p.Idle? {
      assert |posted| + |queue| == |found|;
      assert found[..|posted|] == posted;
      assert n == 0 ==> false;
      if queue == [] {
        assert posted == found;
      }
    }
  }

  /** A call of broadcast: the thread calls at i, and enters the critical section at e.  It releases the threads that
      are queued then in their order, one with every third statement from the fourth on, and no others, and has
      returned after five statements and three for every one of them. */
  lemma BroadcastReturns(run: seq<State>, events: seq<Event>, i: nat, e: nat, j: nat, b: Tid)
    requires IsRun(run, events) && i < e < j < |run| && events[i] == Event(b, CallBroadcast)
    requires OwnSteps(events, i + 1, e, b) == 0 && events[e].t == b && Busy(run, e, j, b)
    ensures b < |run[j].pc|
    ensures var n, found := OwnSteps(events, e, j, b), Queue(run[e]);
      && 1 <= n <= 3 * |found| + 5
      && (run[j].pc[b].Idle? <==> n == 3 * |found| + 5)
      && OwnPosts(run, events, i, j, b) == if n >= 3 * |found| + 1 then found else found[..(n - 1) / 3]
  {
    hide Queue, Init, OwnPosts;
    Called(run, events, i, e, b);
    BroadcastCall(run, events, e, j, b);
    OwnPostsSplit(run, events, i, e, j, b);
    var posted := OwnPosts(run, events, e, j, b);
    assert [] + posted == posted;
    OwnStepsFrom(events, e, j, b);
    ReleasedSoFar(OwnSteps(events, e, j, b), Queue(run[e]), run[j].pc[b], posted, Queue(run[j]));
  }

  lemma {:induction false} OwnStepsFrom(events: seq<Event>, e: nat, j: nat, b: Tid)
    requires e < j <= |events| && events[e].t == b
    ensures OwnSteps(events, e, j, b) >= 1
    decreases j
  {
    if j > e + 1 {
      OwnStepsFrom(events, e, j - 1, b);
    }
  }

  // ---------------------------------------------------------------------------------------
  // Wait
  // ---------------------------------------------------------------------------------------

  /** A waiting thread after n of its statements. */
  predicate WaitAfter(n: nat, p: Pc, d: nat) {
    match n
    case 0 => p == Wait(WEnter, d)
    case 1 => p == Wait(WLink, d)
    case 2 => p == Wait(WPublish, d)
    case 3 => p == Wait(WLeave, d)
    case 4 => p == Wait(WUnlock, d)
    case 5 => p == Wait(WSem, d)
    case 6 => p == Wait(WRelock, d)
    case 7 => p == Idle
    case _ => false
  }

  lemma WaitNext(s: State, e: Event, b: Tid, n: nat, d: nat)
    requires WellTyped(s) && Enabled(s, e.t, e.a) && b < |s.pc| && !s.pc[b].Idle? && WaitAfter(n, s.pc[b], d)
    ensures b < |Step(s, e.t, e.a).pc|
    ensures WaitAfter(n + if e.t == b then 1 else 0, Step(s, e.t, e.a).pc[b], d)
    ensures e.t == b && Publishes(s, b, e.a) <==> e.t == b && n == 2
    ensures e.t == b && Consumes(s, b, e.a) <==> e.t == b && n == 5
  {
    if e.t != b {
      hide WaitAfter;
      StepFrame(s, e.t, e.a);
    }
  }

  lemma {:induction false} WaitCall(run: seq<State>, events: seq<Event>, i: nat, j: nat, b: Tid)
    requires IsRun(run, events) && i < j < |run| && events[i] == Event(b, CallWait) && Busy(run, i, j, b)
    ensures b < |run[j].pc| && WaitAfter(OwnSteps(events, i + 1, j, b), run[j].pc[b], run[i].mutexDepth)
    ensures Enqueues(run, events, b, j) - Enqueues(run, events, b, i)
         == if OwnSteps(events, i + 1, j, b) >= 3 then 1 else 0
    ensures Returns(run, events, b, j) - Returns(run, events, b, i)
         == if OwnSteps(events, i + 1, j, b) >= 6 then 1 else 0
  {
    assert StepsAt(run, events, j - 1);
    if j > i + 1 {
      WaitCall(run, events, i, j - 1, b);
      WaitNext(run[j - 1], events[j - 1], b, OwnSteps(events, i + 1, j - 1, b), run[i].mutexDepth);
    }
  }

  lemma WaitPlace(n: nat, p: Pc, d: nat)
    requires WaitAfter(n, p, d)
    ensures n <= 7 && (p.Idle? <==> n == 7) && (!p.Idle? ==> p.Wait? && p.depth == d)
    ensures (p.InCs() <==> 1 <= n <= 3) && (p.Enqueued() <==> 3 <= n <= 5)
    ensures p.Wait? && d > 0 ==> p.Kept() == if 5 <= n <= 6 then d - 1 else d
  {
  }

  /** What a waiting thread owns, and whether it is queued or released. */
  lemma WaitOwns(run: seq<State>, events: seq<Event>, j: nat, b: Tid, n: nat, d: nat)
    requires IsRun(run, events) && j < |run| && b < |run[j].pc| && WaitAfter(n, run[j].pc[b], d)
    ensures b < |run[j].sem| && (run[j].cs == Some(b) <==> 1 <= n <= 3)
    ensures (if b in Queue(run[j]) then 1 else 0) + run[j].sem[b] == (if 3 <= n <= 5 then 1 else 0)
    ensures n < 7 ==> d > 0 && Owns(run[j], b, if 5 <= n <= 6 then d - 1 else d)
  {
    hide WaitAfter, Queue, Init, Owns, Pc.Kept, Pc.InCs, Pc.Enqueued, Walk, Cursor, ListInv, HolderInv, StepsAt;
    WaitPlace(n, run[j].pc[b], d);
    TicketsAlways(run, events, j);
    var rel, pend := RunInv(run, events, j);
    assert MutexInv(run[j], b);
  }

  /** The statement that takes the mutex again. */
  lemma WaitRelocks(run: seq<State>, events: seq<Event>, i: nat, j: nat, b: Tid)
    requires IsRun(run, events) && i < j < |run| && events[i] == Event(b, CallWait) && Busy(run, i, j, b)
    requires OwnSteps(events, i + 1, j, b) == 7
    ensures Owns(run[j], b, run[i].mutexDepth)
  {
    hide Queue, Init, Step, StepsAt;
    var k := j - 1;
    WaitCall(run, events, i, j, b);
    assert k > i;
    WaitCall(run, events, i, k, b);
    assert events[k].t == b && run[k].pc[b] == Wait(WRelock, run[i].mutexDepth);
    forall l | i < l <= k ensures b < |run[l].pc| && run[l].pc[b].Wait? {
      WaitCall(run, events, i, l, b);
      WaitPlace(OwnSteps(events, i + 1, l, b), run[l].pc[b], run[i].mutexDepth);
    }
    WaitRestoresMutex(run, events, i, k, b);
    StartedWithMutex(run, events, i, b);
  }

  lemma StartedWithMutex(run: seq<State>, events: seq<Event>, i: nat, b: Tid)
    requires IsRun(run, events) && i < |events| && events[i] == Event(b, CallWait)
    ensures run[i].mutexDepth > 0
  {
    assert StepsAt(run, events, i);
  }

  /** A call of wait: after its first statement the thread is in the critical section, after its third it is queued,
      after its fourth it is out again, after its fifth it has given up one level of the mutex, its sixth takes one
      release, and after its seventh it has the level again and has returned. */
  lemma WaitReturns(run: seq<State>, events: seq<Event>, i: nat, j: nat, b: Tid)
    requires IsRun(run, events) && i < j < |run| && events[i] == Event(b, CallWait) && Busy(run, i, j, b)
    ensures b < |run[j].pc| && b < |run[j].sem|
    ensures var n, d := OwnSteps(events, i + 1, j, b), run[i].mutexDepth;
      && n <= 7 && (run[j].pc[b].Idle? <==> n == 7)
      && (run[j].cs == Some(b) <==> 1 <= n <= 3)
      && (if b in Queue(run[j]) then 1 else 0) + run[j].sem[b] == (if 3 <= n <= 5 then 1 else 0)
      && Enqueues(run, events, b, j) - Enqueues(run, events, b, i) == (if n >= 3 then 1 else 0)
      && Returns(run, events, b, j) - Returns(run, events, b, i) == (if n >= 6 then 1 else 0)
      && 0 < d && Owns(run[j], b, if 5 <= n <= 6 then d - 1 else d)
  {
    hide Queue, Init, StepsAt, Owns, Enqueues, Returns;
    WaitCall(run, events, i, j, b);
    var n, d := OwnSteps(events, i + 1, j, b), run[i].mutexDepth;
    WaitPlace(n, run[j].pc[b], d);
    WaitOwns(run, events, j, b, n, d);
    StartedWithMutex(run, events, i, b);
    if n == 7 {
      WaitRelocks(run, events, i, j, b);
    }
  }

  // ---------------------------------------------------------------------------------------
  // The mutex, and what can hold a thread up
  // ---------------------------------------------------------------------------------------

  /** Locking takes the mutex, one level deeper, from everybody else, and unlocking undoes it. */
  lemma UnlockUndoesLock(run: seq<State>, events: seq<Event>, i: nat, t: Tid)
    requires IsRun(run, events) && i < |run| && Enabled(run[i], t, Lock)
    ensures WellTyped(run[i])
    ensures var s1 := run[i].(mutex := Some(t), mutexDepth := run[i].mutexDepth + 1);
      && Step(run[i], t, Lock) == s1
      && Enabled(s1, t, Unlock) && Step(s1, t, Unlock) == run[i]
      && (forall u: nat :: u < |s1.pc| && u != t ==> !Enabled(s1, u, Lock) && !Enabled(s1, u, Unlock))
  {
    hide Queue, ListInv, HolderInv, CsInv, Tickets, Init;
    var rel, pend := RunInv(run, events, i);
  }

  /** Inside a macro a thread is held up for three reasons only: somebody else is in the critical section, who can go
      on; it waits, and is queued; or somebody else owns the mutex that it needs to return. */
  lemma HeldUpBecause(run: seq<State>, events: seq<Event>, i: nat, t: Tid)
    requires IsRun(run, events) && i < |run| && t < |run[i].pc| && !run[i].pc[t].Idle?
    requires !Enabled(run[i], t, Advance)
    ensures WellTyped(run[i])
    ensures
      || (run[i].pc[t].EntersCs() && run[i].cs.Some? && run[i].cs.value != t
          && Enabled(run[i], run[i].cs.value, Advance))
      || (run[i].pc[t].IsWait(WSem) && t in Queue(run[i]) && run[i].sem[t] == 0)
      || (run[i].pc[t].IsWait(WRelock) && run[i].mutex.Some? && run[i].mutex.value != t)
  {
    hide Queue, Init, Tickets, ListInv, HolderInv;
    var rel, pend := RunInv(run, events, i);
    TicketsAlways(run, events, i);
    assert MutexInv(run[i], t);
    if run[i].pc[t].EntersCs() {
      HolderAdvances(run, events, i, run[i].cs.value);
      assert !run[i].pc[t].InCs();
    }
  }

  /** Outside the macros a thread may always signal and broadcast, may lock unless somebody else owns the mutex, and may
      unlock and wait exactly when it owns it. */
  lemma FreeToCall(run: seq<State>, events: seq<Event>, i: nat, t: Tid)
    requires IsRun(run, events) && i < |run| && t < |run[i].pc| && run[i].pc[t].Idle?
    ensures Enabled(run[i], t, CallSignal) && Enabled(run[i], t, CallBroadcast) && !Enabled(run[i], t, Advance)
    ensures Enabled(run[i], t, Lock) <==> run[i].mutex == None || run[i].mutex == Some(t)
    ensures Enabled(run[i], t, Unlock) <==> run[i].mutex == Some(t)
    ensures Enabled(run[i], t, CallWait) <==> run[i].mutex == Some(t)
  {
    hide Queue, Init, Tickets, ListInv, HolderInv;
    var rel, pend := RunInv(run, events, i);
  }
}
