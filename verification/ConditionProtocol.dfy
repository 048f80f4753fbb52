/**
 The Win32 condition variable of xc/include/Xthreads.h as a state machine in which every
 critical-section call, semaphore call and list statement is a step of its own, taken by
 any number of threads in any order.
 */
module ConditionProtocol {
  import opened Common

  type Tid = nat

  datatype WaitAt = WEnter | WLink | WPublish | WLeave | WUnlock | WSem | WRelock
  datatype SignalAt = SEnter | STest | SRelease | SPop | SLeave
  datatype BroadcastAt = BEnter | BLoad | BTest | BRelease | BNext | BClear | BLeave

  /** The macro a thread is in, the statement it executes next, and its local variables.
      `depth` is how often the waiting thread had entered the caller's mutex when it called wait. */
  datatype Pc =
    | Idle
    | Wait(w: WaitAt, depth: nat)
    | Signal(g: SignalAt)
    | Broadcast(b: BroadcastAt, cur: Option<Tid>)
  {
    /** Between EnterCriticalSection(cs) and LeaveCriticalSection(cs). */
    predicate InCs() {
      match this
      case Idle => false
      case Wait(w, _) => w.WLink? || w.WPublish? || w.WLeave?
      case Signal(g) => !g.SEnter?
      case Broadcast(b, _) => !b.BEnter?
    }

    predicate EntersCs() {
      (Wait? && w.WEnter?) || (Signal? && g.SEnter?) || (Broadcast? && b.BEnter?)
    }

    predicate IsWait(at: WaitAt) { Wait? && w == at }
    predicate IsSignal(at: SignalAt) { Signal? && g == at }
    predicate IsBroadcast(at: BroadcastAt) { Broadcast? && b == at }

    /** At a ReleaseSemaphore call. */
    predicate Releases() { IsSignal(SRelease) || IsBroadcast(BRelease) }

    /** After the record was put on the list and before the semaphore wait returned. */
    predicate Enqueued() {
      Wait? && (w.WLeave? || w.WUnlock? || w.WSem?)
    }

    /** How many levels of the mutex the waiting thread still holds. */
    function Kept(): nat
      requires Wait? && depth > 0
    {
      if w.WSem? || w.WRelock? then depth - 1 else depth
    }
  }

  /** One condition variable, one caller's mutex (it nests), and a waiter record per thread:
      `next` and `sem` are the fields of the record of each thread.
      `fault` is set by a dereference of a null pointer. */
  datatype State = State(
    cs: Option<Tid>,
    mutex: Option<Tid>,
    mutexDepth: nat,
    waiters: Option<Tid>,
    next: seq<Option<Tid>>,
    sem: seq<nat>,
    pc: seq<Pc>,
    fault: bool)

  /** What a thread does next: outside the macros it is free to lock, unlock or call one of
      them, inside it executes the next statement. */
  datatype Action = Lock | Unlock | CallWait | CallSignal | CallBroadcast | Advance

  predicate WellTyped(s: State) {
    |s.next| == |s.sem| == |s.pc|
  }

  /** xcondition_init before any thread runs the macros. */
  predicate Init(s: State) {
    && WellTyped(s)
    && s.cs == None && s.mutex == None && s.mutexDepth == 0 && s.waiters == None && !s.fault
    && (forall t :: 0 <= t < |s.pc| ==> s.pc[t] == Idle)
    && (forall t :: 0 <= t < |s.sem| ==> s.sem[t] == 0)
  }

  predicate MutexOpenTo(s: State, t: Tid) {
    s.mutex == None || s.mutex == Some(t)
  }

  predicate HoldsMutex(s: State, t: Tid) {
    s.mutex == Some(t) && s.mutexDepth > 0
  }

  /** Blocking calls are steps that are not enabled.  Wait and unlock are for the owner of the mutex. */
  predicate Enabled(s: State, t: Tid, a: Action) {
    && t < |s.pc|
    && (if a.Advance? then !s.pc[t].Idle? && CanAdvance(s, t) else s.pc[t].Idle?)
    && (a.Lock? ==> MutexOpenTo(s, t))
    && (a.Unlock? || a.CallWait? ==> HoldsMutex(s, t))
  }

  /** Entering a critical section waits until it is free, waiting on a semaphore until it is positive. */
  predicate CanAdvance(s: State, t: Tid)
    requires t < |s.pc|
  {
    && (s.pc[t].EntersCs() ==> s.cs == None)
    && (s.pc[t].IsWait(WSem) ==> t < |s.sem| && s.sem[t] > 0)
    && (s.pc[t].IsWait(WRelock) ==> MutexOpenTo(s, t))
    && (s.pc[t].IsWait(WUnlock) ==> s.mutexDepth > 0)
  }

  function Goto(s: State, t: Tid, to: Pc): State
    requires t < |s.pc|
  {
    s.(pc := s.pc[t := to])
  }

  function EnterMutex(s: State, t: Tid): State {
    s.(mutex := Some(t), mutexDepth := s.mutexDepth + 1)
  }

  function LeaveMutex(s: State): State
    requires s.mutexDepth > 0
  {
    s.(mutex := if s.mutexDepth == 1 then None else s.mutex, mutexDepth := s.mutexDepth - 1)
  }

  /** ReleaseSemaphore(w->sem, 1, NULL) */
  function Post(s: State, w: Option<Tid>): State {
    if w.Some? && w.value < |s.sem| then s.(sem := s.sem[w.value := s.sem[w.value] + 1]) else s.(fault := true)
  }

  /** w->next */
  function NextOf(s: State, w: Option<Tid>): Option<Tid> {
    if w.Some? && w.value < |s.next| then s.next[w.value] else None
  }

  function WaitStatement(s: State, t: Tid, w: WaitAt, d: nat): State
    requires WellTyped(s) && Enabled(s, t, Advance) && s.pc[t] == Wait(w, d)
  {
    match w
    case WEnter => Goto(s.(cs := Some(t)), t, Wait(WLink, d))
    case WLink => Goto(s.(next := s.next[t := s.waiters]), t, Wait(WPublish, d))
    case WPublish => Goto(s.(waiters := Some(t)), t, Wait(WLeave, d))
    case WLeave => Goto(s.(cs := None), t, Wait(WUnlock, d))
    case WUnlock => Goto(LeaveMutex(s), t, Wait(WSem, d))
    case WSem => Goto(s.(sem := s.sem[t := s.sem[t] - 1]), t, Wait(WRelock, d))
    case WRelock => Goto(EnterMutex(s, t), t, Idle)
  }

  function SignalStatement(s: State, t: Tid, g: SignalAt): State
    requires WellTyped(s) && Enabled(s, t, Advance) && s.pc[t] == Signal(g)
  {
    match g
    case SEnter => Goto(s.(cs := Some(t)), t, Signal(STest))
    case STest => Goto(s, t, Signal(if s.waiters.Some? then SRelease else SLeave))
    case SRelease => Goto(Post(s, s.waiters), t, Signal(SPop))
    case SPop => Goto(s.(waiters := NextOf(s, s.waiters), fault := s.fault || s.waiters.None?), t, Signal(SLeave))
    case SLeave => Goto(s.(cs := None), t, Idle)
  }

  function BroadcastStatement(s: State, t: Tid, b: BroadcastAt, cur: Option<Tid>): State
    requires WellTyped(s) && Enabled(s, t, Advance) && s.pc[t] == Broadcast(b, cur)
  {
    match b
    case BEnter => Goto(s.(cs := Some(t)), t, Broadcast(BLoad, cur))
    case BLoad => Goto(s, t, Broadcast(BTest, s.waiters))
    case BTest => Goto(s, t, Broadcast(if cur.Some? then BRelease else BClear, cur))
    case BRelease => Goto(Post(s, cur), t, Broadcast(BNext, cur))
    case BNext => Goto(s.(fault := s.fault || cur.None?), t, Broadcast(BTest, NextOf(s, cur)))
    case BClear => Goto(s.(waiters := None), t, Broadcast(BLeave, cur))
    case BLeave => Goto(s.(cs := None), t, Idle)
  }

  /** One statement of one thread. */
  function Step(s: State, t: Tid, a: Action): State
    requires WellTyped(s) && Enabled(s, t, a)
  {
    match a
    case Lock => EnterMutex(s, t)
    case Unlock => LeaveMutex(s)
    case CallWait => Goto(s, t, Wait(WEnter, s.mutexDepth))
    case CallSignal => Goto(s, t, Signal(SEnter))
    case CallBroadcast => Goto(s, t, Broadcast(BEnter, None))
    case Advance =>
      match s.pc[t]
      case Wait(w, d) => WaitStatement(s, t, w, d)
      case Signal(g) => SignalStatement(s, t, g)
      case Broadcast(b, cur) => BroadcastStatement(s, t, b, cur)
  }

  /** The semaphores released by a step. */
  function Posted(s: State, t: Tid, a: Action): seq<Tid> {
    if !a.Advance? || t >= |s.pc| || !s.pc[t].Releases() then []
    else
      var w := if s.pc[t].Signal? then s.waiters else s.pc[t].cur;
      if w.Some? then [w.value] else []
  }

  /** Is this the step that puts t's record on the list? */
  predicate Publishes(s: State, t: Tid, a: Action) {
    a.Advance? && t < |s.pc| && s.pc[t].IsWait(WPublish)
  }

  // ---------------------------------------------------------------------------------------
  // The logical queue of a state: the waiters on the list whose semaphore is not yet released.
  // ---------------------------------------------------------------------------------------

  /** The first record that the thread in the critical section has not released yet. */
  function Cursor(s: State): Option<Tid> {
    if s.cs == None || s.cs.value >= |s.pc| then s.waiters
    else
      match s.pc[s.cs.value]
      case Signal(g) => if g.SPop? then NextOf(s, s.waiters) else s.waiters
      case Broadcast(b, cur) =>
        if b.BTest? || b.BRelease? then cur
        else if b.BNext? then NextOf(s, cur)
        else if b.BClear? then None
        else s.waiters
      case _ => s.waiters
  }

  /** At most `fuel` records of the list that starts at `head`. */
  function Walk(head: Option<Tid>, next: seq<Option<Tid>>, fuel: nat): seq<Tid>
    decreases fuel
  {
    if fuel == 0 || head == None || head.value >= |next| then []
    else [head.value] + Walk(next[head.value], next, fuel - 1)
  }

  /** The waiters that a signal or broadcast can still reach, in list order. */
  function Queue(s: State): seq<Tid> {
    Walk(Cursor(s), s.next, |s.pc|)
  }

  // ---------------------------------------------------------------------------------------
  // The invariant.  The list is `rel + pend`: `rel` was released by the thread that is in the
  // critical section and is about to be unlinked, `pend` is the logical queue.
  // ---------------------------------------------------------------------------------------

  function First(q: seq<Tid>): Option<Tid> {
    if q == [] then None else Some(q[0])
  }

  ghost predicate Linked(head: Option<Tid>, next: seq<Option<Tid>>, q: seq<Tid>) {
    && head == First(q)
    && (forall i :: 0 <= i < |q| ==> q[i] < |next|)
    && (forall i, j :: 0 <= i < j < |q| && j == i + 1 ==> next[q[i]] == Some(q[j]))
    && (q != [] ==> next[q[|q| - 1]] == None)
  }

  ghost predicate ListInv(s: State, rel: seq<Tid>, pend: seq<Tid>) {
    Linked(s.waiters, s.next, rel + pend) && Distinct(rel + pend)
  }

  /** The critical section has exactly the threads inside it that own it: one or none. */
  ghost predicate CsInv(s: State) {
    && (forall t :: 0 <= t < |s.pc| ==> (s.pc[t].InCs() <==> s.cs == Some(t)))
    && (s.cs.Some? ==> s.cs.value < |s.pc|)
  }

  ghost predicate MutexesInv(s: State) {
    && (s.mutex == None <==> s.mutexDepth == 0)
    && (forall t :: 0 <= t < |s.pc| ==> MutexInv(s, t))
  }

  /** A waiter owns the mutex until it gives up one level of it, and afterwards keeps the rest. */
  ghost predicate MutexInv(s: State, t: Tid)
    requires t < |s.pc|
  {
    s.pc[t].Wait? ==> s.pc[t].depth > 0 && Owns(s, t, s.pc[t].Kept())
  }

  predicate Owns(s: State, t: Tid, d: nat) {
    if d == 0 then s.mutex != Some(t) else s.mutex == Some(t) && s.mutexDepth == d
  }

  /** What the thread in the critical section knows about the list. */
  ghost predicate HolderInv(s: State, rel: seq<Tid>, pend: seq<Tid>) {
    if s.cs == None || s.cs.value >= |s.pc| then rel == [] else Knows(s, s.cs.value, s.pc[s.cs.value], rel, pend)
  }

  ghost predicate Knows(s: State, h: Tid, p: Pc, rel: seq<Tid>, pend: seq<Tid>) {
    match p
    case Idle => rel == []
    case Wait(w, _) => rel == [] && (w.WPublish? ==> h < |s.next| && s.next[h] == s.waiters)
    case Signal(g) => (g.SRelease? ==> pend != []) && (if g.SPop? then |rel| == 1 else rel == [])
    case Broadcast(b, cur) =>
      && (b.BTest? || b.BRelease? || b.BNext? || b.BClear? || rel == [])
      && (b.BTest? || b.BRelease? || b.BClear? ==> cur == First(pend))
      && (b.BRelease? ==> pend != [])
      && (b.BNext? ==> rel != [] && cur == Some(rel[|rel| - 1]))
      && (b.BClear? || b.BLeave? ==> pend == [])
  }

  /** The ticket equation: a thread's place in the queue plus its semaphore count is one exactly
      from its enqueue to its return from the semaphore wait. */
  ghost predicate Tickets(s: State, queue: seq<Tid>)
    requires WellTyped(s)
  {
    forall t :: 0 <= t < |s.pc| ==>
      (if t in queue then 1 else 0) + s.sem[t] == (if s.pc[t].Enqueued() then 1 else 0)
  }

  ghost predicate Inv(s: State, rel: seq<Tid>, pend: seq<Tid>) {
    && WellTyped(s) && !s.fault
    && CsInv(s) && MutexesInv(s)
    && ListInv(s, rel, pend)
    && HolderInv(s, rel, pend)
    && Tickets(s, pend)
  }

  lemma InitInv(s: State)
    requires Init(s)
    ensures Inv(s, [], [])
  {
  }

  function NextRel(s: State, t: Tid, a: Action, rel: seq<Tid>, pend: seq<Tid>): seq<Tid>
    requires Enabled(s, t, a)
  {
    if !a.Advance? then rel
    else if s.pc[t].Releases() && pend != [] then rel + [pend[0]]
    else if s.pc[t].IsSignal(SPop) || s.pc[t].IsBroadcast(BClear) then []
    else rel
  }

  function NextPend(s: State, t: Tid, a: Action, pend: seq<Tid>): seq<Tid>
    requires Enabled(s, t, a)
  {
    if !a.Advance? then pend
    else if s.pc[t].Releases() && pend != [] then pend[1..]
    else if s.pc[t].IsWait(WPublish) then [t] + pend
    else pend
  }

  predicate CsMoves(s: State, t: Tid, s': State) {
    s.cs == None || s.cs == Some(t) || s'.cs == s.cs
  }

  /** What one step does to the program counters and to the owner of the critical section: only t moves, and it is
      inside afterwards exactly when it owns it. */
  ghost predicate OwnStep(s: State, t: Tid, s': State) {
    && WellTyped(s') && |s'.pc| == |s.pc| && t < |s.pc|
    && (forall u :: 0 <= u < |s.pc| && u != t ==> s'.pc[u] == s.pc[u])
    && s'.cs in {s.cs, None, Some(t)}
    && ((s.pc[t].InCs() <==> s.cs == Some(t)) ==> CsMoves(s, t, s') && (s'.pc[t].InCs() <==> s'.cs == Some(t)))
  }

  lemma GotoIsOwn(s: State, s1: State, t: Tid, to: Pc)
    requires WellTyped(s) && t < |s.pc| && WellTyped(s1) && s1.pc == s.pc
    requires s1.cs in {s.cs, None, Some(t)}
    requires (s.pc[t].InCs() <==> s.cs == Some(t)) ==> CsMoves(s, t, s1) && (to.InCs() <==> s1.cs == Some(t))
    ensures OwnStep(s, t, Goto(s1, t, to))
  {
  }

  lemma WaitIsOwn(s: State, t: Tid, w: WaitAt, d: nat)
    requires WellTyped(s) && Enabled(s, t, Advance) && s.pc[t] == Wait(w, d)
    ensures OwnStep(s, t, WaitStatement(s, t, w, d))
  {
    hide OwnStep;
    match w
    case WEnter => GotoIsOwn(s, s.(cs := Some(t)), t, Wait(WLink, d));
    case WLink => GotoIsOwn(s, s.(next := s.next[t := s.waiters]), t, Wait(WPublish, d));
    case WPublish => GotoIsOwn(s, s.(waiters := Some(t)), t, Wait(WLeave, d));
    case WLeave => GotoIsOwn(s, s.(cs := None), t, Wait(WUnlock, d));
    case WUnlock => GotoIsOwn(s, LeaveMutex(s), t, Wait(WSem, d));
    case WSem => GotoIsOwn(s, s.(sem := s.sem[t := s.sem[t] - 1]), t, Wait(WRelock, d));
    case WRelock => GotoIsOwn(s, EnterMutex(s, t), t, Idle);
  }

  lemma SignalIsOwn(s: State, t: Tid, g: SignalAt)
    requires WellTyped(s) && Enabled(s, t, Advance) && s.pc[t] == Signal(g)
    ensures OwnStep(s, t, SignalStatement(s, t, g))
  {
    hide OwnStep;
    match g
    case SEnter => GotoIsOwn(s, s.(cs := Some(t)), t, Signal(STest));
    case STest => GotoIsOwn(s, s, t, Signal(if s.waiters.Some? then SRelease else SLeave));
    case SRelease => GotoIsOwn(s, Post(s, s.waiters), t, Signal(SPop));
    case SPop =>
      GotoIsOwn(s, s.(waiters := NextOf(s, s.waiters), fault := s.fault || s.waiters.None?), t, Signal(SLeave));
    case SLeave => GotoIsOwn(s, s.(cs := None), t, Idle);
  }

  lemma BroadcastIsOwn(s: State, t: Tid, b: BroadcastAt, cur: Option<Tid>)
    requires WellTyped(s) && Enabled(s, t, Advance) && s.pc[t] == Broadcast(b, cur)
    ensures OwnStep(s, t, BroadcastStatement(s, t, b, cur))
  {
    hide OwnStep;
    match b
    case BEnter => GotoIsOwn(s, s.(cs := Some(t)), t, Broadcast(BLoad, cur));
    case BLoad => GotoIsOwn(s, s, t, Broadcast(BTest, s.waiters));
    case BTest => GotoIsOwn(s, s, t, Broadcast(if cur.Some? then BRelease else BClear, cur));
    case BRelease => GotoIsOwn(s, Post(s, cur), t, Broadcast(BNext, cur));
    case BNext => GotoIsOwn(s, s.(fault := s.fault || cur.None?), t, Broadcast(BTest, NextOf(s, cur)));
    case BClear => GotoIsOwn(s, s.(waiters := None), t, Broadcast(BLeave, cur));
    case BLeave => GotoIsOwn(s, s.(cs := None), t, Idle);
  }

  lemma StepIsOwn(s: State, t: Tid, a: Action)
    requires WellTyped(s) && Enabled(s, t, a)
    ensures OwnStep(s, t, Step(s, t, a))
  {
    hide WaitStatement, SignalStatement, BroadcastStatement;
    if a.Advance? {
      match s.pc[t]
      case Wait(w, d) => WaitIsOwn(s, t, w, d);
      case Signal(g) => SignalIsOwn(s, t, g);
      case Broadcast(b, cur) => BroadcastIsOwn(s, t, b, cur);
    }
  }

  lemma StepFrame(s: State, t: Tid, a: Action)
    requires WellTyped(s) && Enabled(s, t, a)
    ensures WellTyped(Step(s, t, a)) && |Step(s, t, a).pc| == |s.pc|
    ensures forall u :: 0 <= u < |s.pc| && u != t ==> Step(s, t, a).pc[u] == s.pc[u]
  {
    hide Step;
    StepIsOwn(s, t, a);
  }

  lemma StepOwnCs(s: State, t: Tid, a: Action)
    requires WellTyped(s) && CsInv(s) && Enabled(s, t, a)
    ensures |Step(s, t, a).pc| == |s.pc| && Step(s, t, a).cs in {s.cs, None, Some(t)}
    ensures s.cs == None || s.cs == Some(t) || Step(s, t, a).cs == s.cs
    ensures Step(s, t, a).pc[t].InCs() <==> Step(s, t, a).cs == Some(t)
  {
    hide Step;
    StepIsOwn(s, t, a);
    assert s.pc[t].InCs() <==> s.cs == Some(t);
  }

  lemma StepCs(s: State, t: Tid, a: Action)
    requires WellTyped(s) && CsInv(s) && Enabled(s, t, a)
    ensures CsInv(Step(s, t, a))
  {
    StepFrame(s, t, a);
    StepOwnCs(s, t, a);
    var s' := Step(s, t, a);
    forall u | 0 <= u < |s'.pc| && u != t ensures s'.pc[u].InCs() <==> s'.cs == Some(u) {
      assert s.pc[u].InCs() <==> s.cs == Some(u);
    }
  }

  /** A step moves the mutex between free and its own thread only, and keeps what that thread knows. */
  ghost predicate MutexMoves(s: State, t: Tid, s': State) {
    && t < |s'.pc| && MutexInv(s', t) && (s'.mutex == None <==> s'.mutexDepth == 0)
    && ((MutexOpenTo(s, t) && MutexOpenTo(s', t)) || (s'.mutex == s.mutex && s'.mutexDepth == s.mutexDepth))
  }

  lemma WaitMovesMutex(s: State, t: Tid, w: WaitAt, d: nat)
    requires WellTyped(s) && Enabled(s, t, Advance) && s.pc[t] == Wait(w, d)
    requires MutexInv(s, t) && (s.mutex == None <==> s.mutexDepth == 0)
    ensures MutexMoves(s, t, WaitStatement(s, t, w, d))
  {
  }

  lemma SignalKeepsMutex(s: State, t: Tid, g: SignalAt)
    requires WellTyped(s) && Enabled(s, t, Advance) && s.pc[t] == Signal(g)
    requires s.mutex == None <==> s.mutexDepth == 0
    ensures MutexMoves(s, t, SignalStatement(s, t, g))
  {
  }

  lemma BroadcastKeepsMutex(s: State, t: Tid, b: BroadcastAt, cur: Option<Tid>)
    requires WellTyped(s) && Enabled(s, t, Advance) && s.pc[t] == Broadcast(b, cur)
    requires s.mutex == None <==> s.mutexDepth == 0
    ensures MutexMoves(s, t, BroadcastStatement(s, t, b, cur))
  {
  }

  lemma OwnMutexMoves(s: State, t: Tid, a: Action)
    requires WellTyped(s) && Enabled(s, t, a) && MutexInv(s, t) && (s.mutex == None <==> s.mutexDepth == 0)
    ensures MutexMoves(s, t, Step(s, t, a))
  {
    hide WaitStatement, SignalStatement, BroadcastStatement;
    if a.Advance? {
      match s.pc[t]
      case Wait(w, d) => WaitMovesMutex(s, t, w, d);
      case Signal(g) => SignalKeepsMutex(s, t, g);
      case Broadcast(b, cur) => BroadcastKeepsMutex(s, t, b, cur);
    }
  }

  lemma StepOwnMutex(s: State, t: Tid, a: Action)
    requires WellTyped(s) && MutexesInv(s) && Enabled(s, t, a)
    ensures |Step(s, t, a).pc| == |s.pc| && MutexInv(Step(s, t, a), t)
    ensures Step(s, t, a).mutex == None <==> Step(s, t, a).mutexDepth == 0
    ensures (MutexOpenTo(s, t) && MutexOpenTo(Step(s, t, a), t))
         || (Step(s, t, a).mutex == s.mutex && Step(s, t, a).mutexDepth == s.mutexDepth)
  {
    hide Step, MutexInv;
    StepFrame(s, t, a);
    assert MutexInv(s, t);
    OwnMutexMoves(s, t, a);
  }

  lemma StepMutexes(s: State, t: Tid, a: Action)
    requires WellTyped(s) && MutexesInv(s) && Enabled(s, t, a)
    ensures MutexesInv(Step(s, t, a))
  {
    StepFrame(s, t, a);
    StepOwnMutex(s, t, a);
    var s' := Step(s, t, a);
    forall u | 0 <= u < |s'.pc| && u != t ensures MutexInv(s', u) {
      assert MutexInv(s, u);
    }
  }

  /** A statement that leaves the links alone keeps the list when it only moves records from `pend` to `rel`. */
  lemma SameLinks(s: State, s': State, rel: seq<Tid>, pend: seq<Tid>, rel': seq<Tid>, pend': seq<Tid>)
    requires ListInv(s, rel, pend) && s'.waiters == s.waiters && s'.next == s.next
    requires rel' + pend' == rel + pend
    ensures ListInv(s', rel', pend')
  {
  }

  /** A thread outside the critical section changes neither the list nor what its holder knows. */
  lemma StepListOutside(s: State, t: Tid, a: Action, rel: seq<Tid>, pend: seq<Tid>)
    requires WellTyped(s) && CsInv(s) && ListInv(s, rel, pend) && HolderInv(s, rel, pend)
    requires Enabled(s, t, a) && s.cs != Some(t)
    ensures NextRel(s, t, a, rel, pend) == rel && NextPend(s, t, a, pend) == pend && Posted(s, t, a) == []
    ensures Step(s, t, a).fault == s.fault
    ensures ListInv(Step(s, t, a), rel, pend) && HolderInv(Step(s, t, a), rel, pend)
  {
    hide ListInv;
    StepFrame(s, t, a);
    assert !s.pc[t].InCs();
    var s' := Step(s, t, a);
    assert s'.waiters == s.waiters && s'.next == s.next;
    assert s'.cs == s.cs || (s.cs == None && s'.cs == Some(t));
    SameLinks(s, s', rel, pend, rel, pend);
  }

  lemma HeadIsFirst(s: State, rel: seq<Tid>, pend: seq<Tid>)
    requires ListInv(s, rel, pend)
    ensures s.waiters == First(rel + pend)
  {
  }

  lemma PushLinks(head: Option<Tid>, next: seq<Option<Tid>>, q: seq<Tid>, t: Tid, v: Option<Tid>)
    requires Linked(head, next, q) && t < |next| && t !in q
    ensures Linked(head, next[t := v], q)
    ensures next[t] == head ==> Linked(Some(t), next, [t] + q)
    ensures Distinct(q) ==> Distinct([t] + q)
  {
    var q' := [t] + q;
    assert forall i :: 1 <= i < |q'| ==> q'[i] == q[i - 1];
  }

  lemma PopLinks(head: Option<Tid>, next: seq<Option<Tid>>, rel: seq<Tid>, pend: seq<Tid>)
    requires Linked(head, next, rel + pend) && Distinct(rel + pend) && |rel| == 1
    ensures head == Some(rel[0]) && rel[0] < |next|
    ensures Linked(next[rel[0]], next, pend) && Distinct(pend)
  {
    var q := rel + pend;
    assert q[0] == rel[0];
    assert pend != [] ==> q[1] == pend[0] && q[|q| - 1] == pend[|pend| - 1];
    assert forall i :: 0 <= i < |pend| ==> pend[i] == q[i + 1];
  }

  lemma NextLink(head: Option<Tid>, next: seq<Option<Tid>>, rel: seq<Tid>, pend: seq<Tid>)
    requires Linked(head, next, rel + pend) && rel != []
    ensures rel[|rel| - 1] < |next| && next[rel[|rel| - 1]] == First(pend)
  {
    var q := rel + pend;
    assert q[|rel| - 1] == rel[|rel| - 1];
    assert pend != [] ==> q[|rel|] == pend[0];
  }

  /** What a statement inside the critical section has to keep. */
  ghost predicate ListKept(s: State, t: Tid, rel: seq<Tid>, pend: seq<Tid>)
    requires WellTyped(s) && Enabled(s, t, Advance)
  {
    && Step(s, t, Advance).fault == s.fault
    && ListInv(Step(s, t, Advance), NextRel(s, t, Advance, rel, pend), NextPend(s, t, Advance, pend))
    && HolderInv(Step(s, t, Advance), NextRel(s, t, Advance, rel, pend), NextPend(s, t, Advance, pend))
  }

  ghost predicate InWait(s: State, t: Tid, rel: seq<Tid>, pend: seq<Tid>) {
    && WellTyped(s) && ListInv(s, rel, pend) && HolderInv(s, rel, pend)
    && Enabled(s, t, Advance) && s.cs == Some(t) && s.pc[t].Wait? && s.pc[t].InCs()
  }

  lemma WaitLeaves(s: State, t: Tid, rel: seq<Tid>, pend: seq<Tid>)
    requires InWait(s, t, rel, pend) && s.pc[t].w.WLeave?
    ensures ListKept(s, t, rel, pend)
  {
    SameLinks(s, Step(s, t, Advance), rel, pend, rel, pend);
  }

  lemma WaitLinks(s: State, t: Tid, rel: seq<Tid>, pend: seq<Tid>)
    requires InWait(s, t, rel, pend) && s.pc[t].w.WLink? && t !in pend
    ensures ListKept(s, t, rel, pend)
  {
    hide Linked, Distinct;
    assert rel == [] && rel + pend == pend;
    PushLinks(s.waiters, s.next, pend, t, s.waiters);
  }

  lemma WaitPublishes(s: State, t: Tid, rel: seq<Tid>, pend: seq<Tid>)
    requires InWait(s, t, rel, pend) && s.pc[t].w.WPublish? && t !in pend
    ensures ListKept(s, t, rel, pend)
  {
    hide ListInv;
    PublishedList(s, WaitStatement(s, t, WPublish, s.pc[t].depth), t, pend);
  }

  lemma PublishedList(s: State, s': State, t: Tid, pend: seq<Tid>)
    requires ListInv(s, [], pend) && t < |s.next| && t !in pend && s.next[t] == s.waiters
    requires s'.waiters == Some(t) && s'.next == s.next
    ensures ListInv(s', [], [t] + pend)
  {
    hide Linked, Distinct;
    assert [] + pend == pend && [] + ([t] + pend) == [t] + pend;
    PushLinks(s.waiters, s.next, pend, t, s.waiters);
  }

  lemma StepListWait(s: State, t: Tid, rel: seq<Tid>, pend: seq<Tid>)
    requires InWait(s, t, rel, pend) && (s.pc[t].w.WLeave? || t !in pend)
    ensures ListKept(s, t, rel, pend)
  {
    match s.pc[t].w
    case WLink => WaitLinks(s, t, rel, pend);
    case WPublish => WaitPublishes(s, t, rel, pend);
    case WLeave => WaitLeaves(s, t, rel, pend);
  }

  ghost predicate InSignal(s: State, t: Tid, rel: seq<Tid>, pend: seq<Tid>) {
    && WellTyped(s) && ListInv(s, rel, pend) && HolderInv(s, rel, pend)
    && Enabled(s, t, Advance) && s.cs == Some(t) && s.pc[t].Signal? && s.pc[t].InCs()
  }

  lemma SignalReleases(s: State, t: Tid, rel: seq<Tid>, pend: seq<Tid>)
    requires InSignal(s, t, rel, pend) && s.pc[t].g.SRelease?
    ensures ListKept(s, t, rel, pend)
  {
    var s' := Step(s, t, Advance);
    assert rel == [] && pend != [];
    assert rel + pend == pend;
    assert s.waiters == Some(pend[0]);
    var rel', pend' := [pend[0]], pend[1..];
    assert rel + [pend[0]] == rel' && rel' + pend' == rel + pend;
    SameLinks(s, s', rel, pend, rel', pend');
  }

  lemma SignalPops(s: State, t: Tid, rel: seq<Tid>, pend: seq<Tid>)
    requires InSignal(s, t, rel, pend) && s.pc[t].g.SPop?
    ensures ListKept(s, t, rel, pend)
  {
    PopLinks(s.waiters, s.next, rel, pend);
    assert [] + pend == pend;
  }

  lemma StepListSignal(s: State, t: Tid, rel: seq<Tid>, pend: seq<Tid>)
    requires InSignal(s, t, rel, pend)
    ensures ListKept(s, t, rel, pend)
  {
    hide ListInv;
    HeadIsFirst(s, rel, pend);
    if s.pc[t].g.SRelease? {
      SignalReleases(s, t, rel, pend);
    } else if s.pc[t].g.SPop? {
      SignalPops(s, t, rel, pend);
    } else {
      assert s.pc[t].g.STest? ==> rel + pend == pend;
      SameLinks(s, Step(s, t, Advance), rel, pend, rel, pend);
    }
  }

  ghost predicate InBroadcast(s: State, t: Tid, rel: seq<Tid>, pend: seq<Tid>) {
    && WellTyped(s) && ListInv(s, rel, pend) && HolderInv(s, rel, pend)
    && Enabled(s, t, Advance) && s.cs == Some(t) && s.pc[t].Broadcast? && s.pc[t].InCs()
  }

  lemma BroadcastReleases(s: State, t: Tid, rel: seq<Tid>, pend: seq<Tid>)
    requires InBroadcast(s, t, rel, pend) && s.pc[t].b.BRelease?
    ensures ListKept(s, t, rel, pend)
  {
    var q := rel + pend;
    assert q[|rel|] == pend[0];
    var rel', pend' := rel + [pend[0]], pend[1..];
    assert rel' + pend' == q;
    SameLinks(s, Step(s, t, Advance), rel, pend, rel', pend');
  }

  lemma BroadcastNext(s: State, t: Tid, rel: seq<Tid>, pend: seq<Tid>)
    requires InBroadcast(s, t, rel, pend) && s.pc[t].b.BNext?
    ensures ListKept(s, t, rel, pend)
  {
    NextLink(s.waiters, s.next, rel, pend);
    SameLinks(s, Step(s, t, Advance), rel, pend, rel, pend);
  }

  lemma BroadcastClears(s: State, t: Tid, rel: seq<Tid>, pend: seq<Tid>)
    requires InBroadcast(s, t, rel, pend) && s.pc[t].b.BClear?
    ensures ListKept(s, t, rel, pend)
  {
    assert pend == [];
    assert [] + pend == [];
  }

  lemma BroadcastGoesOn(s: State, t: Tid, rel: seq<Tid>, pend: seq<Tid>)
    requires InBroadcast(s, t, rel, pend) && (s.pc[t].b.BLoad? || s.pc[t].b.BTest? || s.pc[t].b.BLeave?)
    ensures ListKept(s, t, rel, pend)
  {
    hide ListInv;
    HeadIsFirst(s, rel, pend);
    if s.pc[t].b.BLoad? {
      assert rel == [] && rel + pend == pend;
    }
    SameLinks(s, Step(s, t, Advance), rel, pend, rel, pend);
  }

  lemma StepListBroadcast(s: State, t: Tid, rel: seq<Tid>, pend: seq<Tid>)
    requires InBroadcast(s, t, rel, pend)
    ensures ListKept(s, t, rel, pend)
  {
    if s.pc[t].b.BRelease? {
      BroadcastReleases(s, t, rel, pend);
    } else if s.pc[t].b.BNext? {
      BroadcastNext(s, t, rel, pend);
    } else if s.pc[t].b.BClear? {
      BroadcastClears(s, t, rel, pend);
    } else {
      BroadcastGoesOn(s, t, rel, pend);
    }
  }

  lemma StepList(s: State, t: Tid, a: Action, rel: seq<Tid>, pend: seq<Tid>)
    requires Inv(s, rel, pend) && Enabled(s, t, a)
    ensures !Step(s, t, a).fault
    ensures ListInv(Step(s, t, a), NextRel(s, t, a, rel, pend), NextPend(s, t, a, pend))
    ensures HolderInv(Step(s, t, a), NextRel(s, t, a, rel, pend), NextPend(s, t, a, pend))
  {
    if s.cs != Some(t) {
      StepListOutside(s, t, a, rel, pend);
    } else {
      assert s.pc[t].InCs();
      match s.pc[t]
      case Wait(_, _) => StepListWait(s, t, rel, pend);
      case Signal(_) => StepListSignal(s, t, rel, pend);
      case Broadcast(_, _) => StepListBroadcast(s, t, rel, pend);
    }
  }

  /** Which semaphore a step touches. */
  lemma StepSem(s: State, t: Tid, a: Action, rel: seq<Tid>, pend: seq<Tid>)
    requires WellTyped(s) && ListInv(s, rel, pend) && HolderInv(s, rel, pend) && CsInv(s) && Enabled(s, t, a)
    ensures Posted(s, t, a) == if a.Advance? && s.pc[t].Releases() then pend[..1] else []
    ensures Posted(s, t, a) != [] ==> pend != [] && pend[0] < |s.sem|
    ensures Step(s, t, a).sem ==
      if Posted(s, t, a) != [] then s.sem[pend[0] := s.sem[pend[0]] + 1]
      else if a.Advance? && s.pc[t].IsWait(WSem) then s.sem[t := s.sem[t] - 1]
      else s.sem
  {
    hide ListInv, HolderInv, CsInv;
    if a.Advance? && s.pc[t].Releases() {
      ReleasePosts(s, t, rel, pend);
    }
  }

  /** A release is of the first pending waiter. */
  lemma ReleasePosts(s: State, t: Tid, rel: seq<Tid>, pend: seq<Tid>)
    requires WellTyped(s) && ListInv(s, rel, pend) && HolderInv(s, rel, pend) && CsInv(s)
    requires Enabled(s, t, Advance) && s.pc[t].Releases()
    ensures pend != [] && pend[0] < |s.sem| && Posted(s, t, Advance) == [pend[0]]
    ensures Step(s, t, Advance).sem == s.sem[pend[0] := s.sem[pend[0]] + 1]
  {
    assert s.pc[t].InCs();
    var q := rel + pend;
    assert q[|rel|] == pend[0];
    if s.pc[t].Signal? {
      assert rel == [] && s.waiters == Some(pend[0]);
    } else {
      assert s.pc[t].cur == Some(pend[0]);
    }
  }

  lemma StepEnqueued(s: State, t: Tid, a: Action)
    requires WellTyped(s) && Enabled(s, t, a)
    ensures t < |Step(s, t, a).pc|
    ensures Step(s, t, a).pc[t].Enqueued() <==>
      if a.Advance? && s.pc[t].IsWait(WPublish) then true
      else if a.Advance? && s.pc[t].IsWait(WSem) then false
      else s.pc[t].Enqueued()
  {
    if a.Advance? {
      if s.pc[t].Wait? {
        WaitEnqueued(s, t);
      }
    }
  }

  lemma WaitEnqueued(s: State, t: Tid)
    requires WellTyped(s) && Enabled(s, t, Advance) && s.pc[t].Wait?
    ensures t < |Step(s, t, Advance).pc|
    ensures Step(s, t, Advance).pc[t].Enqueued() <==>
      s.pc[t].w.WPublish? || (s.pc[t].Enqueued() && !s.pc[t].w.WSem?)
  {
    match s.pc[t].w
    case WRelock => assert Step(s, t, Advance).pc[t] == Idle;
    case _ =>
  }

  lemma StepTickets(s: State, t: Tid, a: Action, rel: seq<Tid>, pend: seq<Tid>)
    requires Inv(s, rel, pend) && Enabled(s, t, a)
    ensures WellTyped(Step(s, t, a)) && Tickets(Step(s, t, a), NextPend(s, t, a, pend))
  {
    hide Step, HolderInv, CsInv, MutexesInv, Linked;
    StepFrame(s, t, a);
    StepSem(s, t, a, rel, pend);
    StepEnqueued(s, t, a);
    var pend' := NextPend(s, t, a, pend);
    if Posted(s, t, a) != [] {
      assert forall i :: 0 <= i < |pend| ==> pend[i] == (rel + pend)[|rel| + i];
      assert pend == [pend[0]] + pend';
      assert pend[0] !in pend';
    }
  }

  /** Every step keeps the invariant. */
  lemma StepKeepsInv(s: State, t: Tid, a: Action, rel: seq<Tid>, pend: seq<Tid>)
    requires Inv(s, rel, pend) && Enabled(s, t, a)
    ensures Inv(Step(s, t, a), NextRel(s, t, a, rel, pend), NextPend(s, t, a, pend))
  {
    StepFrame(s, t, a);
    StepCs(s, t, a);
    StepMutexes(s, t, a);
    StepList(s, t, a, rel, pend);
    StepTickets(s, t, a, rel, pend);
  }

  // ---------------------------------------------------------------------------------------
  // The logical queue is what the invariant says it is
  // ---------------------------------------------------------------------------------------

  lemma TailLinked(head: Option<Tid>, next: seq<Option<Tid>>, q: seq<Tid>)
    requires Linked(head, next, q) && q != []
    ensures head == Some(q[0]) && q[0] < |next| && Linked(next[q[0]], next, q[1..])
  {
    var tail := q[1..];
    assert forall i :: 0 <= i < |tail| ==> tail[i] == q[i + 1];
    assert tail != [] ==> next[q[0]] == Some(q[1]);
  }

  lemma {:induction false} WalkLinked(head: Option<Tid>, next: seq<Option<Tid>>, q: seq<Tid>, fuel: nat)
    requires Linked(head, next, q) && |q| <= fuel
    ensures Walk(head, next, fuel) == q
    decreases fuel
  {
    if q == [] {
    } else {
      TailLinked(head, next, q);
      WalkLinked(next[q[0]], next, q[1..], fuel - 1);
      assert q == [q[0]] + q[1..];
    }
  }

  lemma {:induction false} SuffixLinked(head: Option<Tid>, next: seq<Option<Tid>>, rel: seq<Tid>, pend: seq<Tid>)
    requires Linked(head, next, rel + pend)
    ensures Linked(First(pend), next, pend)
  {
    var q := rel + pend;
    assert forall i :: 0 <= i < |pend| ==> pend[i] == q[|rel| + i];
    assert pend != [] ==> pend[|pend| - 1] == q[|q| - 1];
  }

  lemma CursorIsFirst(s: State, rel: seq<Tid>, pend: seq<Tid>)
    requires Inv(s, rel, pend)
    ensures Cursor(s) == First(pend)
  {
    if rel == [] {
      assert rel + pend == pend;
    } else {
      NextLink(s.waiters, s.next, rel, pend);
      assert (rel + pend)[0] == rel[0];
    }
  }

  lemma QueueIsPend(s: State, rel: seq<Tid>, pend: seq<Tid>)
    requires Inv(s, rel, pend)
    ensures Queue(s) == pend && Distinct(pend)
  {
    hide HolderInv, CsInv, MutexesInv, Tickets, Cursor, Walk;
    CursorIsFirst(s, rel, pend);
    SuffixLinked(s.waiters, s.next, rel, pend);
    var q := rel + pend;
    assert forall i :: 0 <= i < |pend| ==> pend[i] == q[|rel| + i];
    DistinctBelow(pend, |s.pc|);
    WalkLinked(First(pend), s.next, pend, |s.pc|);
  }

  /** The queue grows by the enqueuing statement and shrinks, from its front, by a release: nothing else moves it. */
  lemma StepMovesQueue(s: State, t: Tid, a: Action, rel: seq<Tid>, pend: seq<Tid>)
    requires Inv(s, rel, pend) && Enabled(s, t, a)
    ensures Posted(s, t, a) + Queue(Step(s, t, a))
         == (if Publishes(s, t, a) then [t] + Queue(s) else Queue(s))
  {
    StepKeepsInv(s, t, a, rel, pend);
    QueueIsPend(s, rel, pend);
    QueueIsPend(Step(s, t, a), NextRel(s, t, a, rel, pend), NextPend(s, t, a, pend));
    StepSem(s, t, a, rel, pend);
  }

  // ---------------------------------------------------------------------------------------
  // Runs
  // ---------------------------------------------------------------------------------------

  datatype Event = Event(t: Tid, a: Action)

  /** The step from index k of a run to the next one. */
  ghost predicate StepsAt(run: seq<State>, events: seq<Event>, k: nat)
    requires k < |events| && |run| == |events| + 1
  {
    && WellTyped(run[k]) && Enabled(run[k], events[k].t, events[k].a)
    && run[k + 1] == Step(run[k], events[k].t, events[k].a)
  }

  /** A run from xcondition_init: any interleaving of any length. */
  ghost predicate IsRun(run: seq<State>, events: seq<Event>) {
    && |run| == |events| + 1
    && Init(run[0])
    && (forall k: nat :: k < |events| ==> StepsAt(run, events, k))
  }

  lemma {:induction false} RunInv(run: seq<State>, events: seq<Event>, i: nat) returns (rel: seq<Tid>, pend: seq<Tid>)
    requires IsRun(run, events) && i < |run|
    ensures Inv(run[i], rel, pend) && Queue(run[i]) == pend && Distinct(pend)
  {
    if i == 0 {
      rel, pend := [], [];
      InitInv(run[0]);
    } else {
      rel, pend := RunInv(run, events, i - 1);
      var s, e := run[i - 1], events[i - 1];
      assert StepsAt(run, events, i - 1);
      StepKeepsInv(s, e.t, e.a, rel, pend);
      rel, pend := NextRel(s, e.t, e.a, rel, pend), NextPend(s, e.t, e.a, pend);
    }
    QueueIsPend(run[i], rel, pend);
  }

  /** In every interleaving no null pointer is followed, no thread is queued twice, and for every thread
      its place in the queue and its semaphore count add up to one exactly between enqueue and return. */
  lemma TicketsAlways(run: seq<State>, events: seq<Event>, i: nat)
    requires IsRun(run, events) && i < |run|
    ensures !run[i].fault && WellTyped(run[i]) && Distinct(Queue(run[i]))
    ensures forall t :: 0 <= t < |run[i].pc| ==>
      (if t in Queue(run[i]) then 1 else 0) + run[i].sem[t] == (if run[i].pc[t].Enqueued() then 1 else 0)
  {
    var rel, pend := RunInv(run, events, i);
  }

  /** A waiter that is blocked on its semaphore can still be reached by the next signal or broadcast. */
  lemma BlockedIsQueued(run: seq<State>, events: seq<Event>, i: nat, t: Tid)
    requires IsRun(run, events) && i < |run| && t < |run[i].pc|
    requires run[i].pc[t].IsWait(WSem) && !Enabled(run[i], t, Advance)
    ensures t in Queue(run[i])
  {
    TicketsAlways(run, events, i);
  }

  /** The thread in the critical section is never blocked, and nobody else is in it. */
  lemma HolderAdvances(run: seq<State>, events: seq<Event>, i: nat, h: Tid)
    requires IsRun(run, events) && i < |run| && run[i].cs == Some(h)
    ensures Enabled(run[i], h, Advance)
    ensures forall u :: 0 <= u < |run[i].pc| && run[i].pc[u].InCs() ==> u == h
  {
    var rel, pend := RunInv(run, events, i);
    assert run[i].pc[h].InCs();
  }

  /** The semaphores released from step i up to step j, in order. */
  ghost function Wakeups(run: seq<State>, events: seq<Event>, i: nat, j: nat): seq<Tid>
    requires |run| == |events| + 1 && i <= j <= |events|
    decreases j
  {
    if i == j then []
    else Wakeups(run, events, i, j - 1) + Posted(run[j - 1], events[j - 1].t, events[j - 1].a)
  }

  /** Thread b enters the critical section at step i and is still in it at every state up to j. */
  ghost predicate InCsFrom(run: seq<State>, events: seq<Event>, i: nat, j: nat, b: Tid) {
    && i < j < |run| && |run| == |events| + 1
    && run[i].cs == None
    && (forall k :: i < k <= j ==> run[k].cs == Some(b))
  }

  /** What happens to the queue at one index of a run. */
  lemma StepAt(run: seq<State>, events: seq<Event>, k: nat)
    requires IsRun(run, events) && k < |events|
    ensures Posted(run[k], events[k].t, events[k].a) + Queue(run[k + 1])
         == (if Publishes(run[k], events[k].t, events[k].a) then [events[k].t] + Queue(run[k]) else Queue(run[k]))
  {
    assert StepsAt(run, events, k);
    var rel, pend := RunInv(run, events, k);
    StepMovesQueue(run[k], events[k].t, events[k].a, rel, pend);
  }

  /** Only the thread in the critical section puts a record on the list. */
  lemma PublisherInCs(run: seq<State>, events: seq<Event>, k: nat, b: Tid)
    requires IsRun(run, events) && k < |events|
    requires run[k].cs == Some(b) || (run[k].cs == None && run[k + 1].cs == Some(b))
    requires Publishes(run[k], events[k].t, events[k].a)
    ensures run[k].cs == Some(b) && events[k].t == b
  {
    var rel, pend := RunInv(run, events, k);
    assert run[k].pc[events[k].t].InCs();
  }

  lemma QuietAt(run: seq<State>, events: seq<Event>, k: nat, b: Tid)
    requires IsRun(run, events) && k < |events|
    requires run[k + 1].cs == Some(b)
    requires run[k].cs == None || (run[k].cs == Some(b) && b < |run[k].pc| && !run[k].pc[b].Wait?)
    ensures Posted(run[k], events[k].t, events[k].a) + Queue(run[k + 1]) == Queue(run[k])
  {
    StepAt(run, events, k);
    if Publishes(run[k], events[k].t, events[k].a) {
      PublisherInCs(run, events, k, b);
    }
  }

  /** While one thread stays in the critical section without enqueuing itself, what it has released
      and what is still queued make up the queue it found. */
  lemma {:induction false} WindowConservesQueue(run: seq<State>, events: seq<Event>, i: nat, j: nat, b: Tid)
    requires IsRun(run, events) && InCsFrom(run, events, i, j, b)
    requires forall k :: i < k <= j ==> b < |run[k].pc| && !run[k].pc[b].Wait?
    ensures Wakeups(run, events, i, j) + Queue(run[j]) == Queue(run[i])
  {
    hide Queue, IsRun, Posted;
    var k := j - 1;
    if k > i {
      WindowConservesQueue(run, events, i, k, b);
    }
    QuietAt(run, events, k, b);
    WakeupsSplit(run, events, i, k, Queue(run[j]));
  }

  lemma WakeupsSplit(run: seq<State>, events: seq<Event>, i: nat, k: nat, rest: seq<Tid>)
    requires |run| == |events| + 1 && i <= k < |events|
    ensures Wakeups(run, events, i, k + 1) + rest
         == Wakeups(run, events, i, k) + (Posted(run[k], events[k].t, events[k].a) + rest)
    ensures k == i ==> Wakeups(run, events, i, k) == []
  {
  }

  /** A broadcast releases exactly the threads queued when it entered the critical section, once each and
      in list order, and leaves the list empty, whatever the released threads do meanwhile. */
  lemma BroadcastWakesAll(run: seq<State>, events: seq<Event>, i: nat, j: nat, b: Tid)
    requires IsRun(run, events) && InCsFrom(run, events, i, j, b)
    requires forall k :: i < k <= j ==> b < |run[k].pc| && run[k].pc[b].Broadcast?
    requires run[j].pc[b].b.BLeave?
    ensures Wakeups(run, events, i, j) == Queue(run[i]) && Distinct(Wakeups(run, events, i, j))
    ensures run[j].waiters == None && Queue(run[j]) == []
  {
    hide Wakeups, Step, Init, Walk, Cursor, MutexesInv, Tickets;
    TicketsAlways(run, events, i);
    WindowConservesQueue(run, events, i, j, b);
    var rel, pend := RunInv(run, events, j);
    assert rel + pend == [];
  }

  /** How many statements a broadcaster in the critical section has before it is about to leave, when n waiters are
      queued. */
  function StepsLeft(b: BroadcastAt, n: nat): nat {
    match b
    case BEnter => 3 * n + 4
    case BLoad => 3 * n + 3
    case BTest => 3 * n + 2
    case BRelease => 3 * n + 1
    case BNext => 3 * n + 3
    case BClear => 1
    case BLeave => 0
  }

  /** How many of the events from i up to j are t's. */
  function OwnSteps(events: seq<Event>, i: nat, j: nat, t: Tid): nat
    requires i <= j <= |events|
    decreases j
  {
    if i == j then 0 else OwnSteps(events, i, j - 1, t) + if events[j - 1].t == t then 1 else 0
  }

  lemma BroadcastOwnStep(s: State, b: Tid, rel: seq<Tid>, pend: seq<Tid>)
    requires Inv(s, rel, pend) && Enabled(s, b, Advance) && s.cs == Some(b) && s.pc[b].Broadcast? && !s.pc[b].b.BLeave?
    ensures |Step(s, b, Advance).pc| == |s.pc| && Step(s, b, Advance).pc[b].Broadcast?
    ensures StepsLeft(Step(s, b, Advance).pc[b].b, |NextPend(s, b, Advance, pend)|) + 1 == StepsLeft(s.pc[b].b, |pend|)
  {
    hide MutexesInv, Tickets, Linked, Distinct;
    assert s.pc[b].InCs() && Knows(s, b, s.pc[b], rel, pend);
  }

  /** A step taken while b broadcasts is one of b's own, and brings it nearer to its end, or leaves it where it is. */
  lemma BroadcastStepLeft(s: State, e: Event, b: Tid, rel: seq<Tid>, pend: seq<Tid>)
    requires Inv(s, rel, pend) && Enabled(s, e.t, e.a) && s.cs == Some(b) && b < |s.pc| && s.pc[b].Broadcast?
    requires |Step(s, e.t, e.a).pc| == |s.pc| && Step(s, e.t, e.a).cs == Some(b)
    requires Step(s, e.t, e.a).pc[b].Broadcast?
    ensures StepsLeft(Step(s, e.t, e.a).pc[b].b, |NextPend(s, e.t, e.a, pend)|) + (if e.t == b then 1 else 0)
         == StepsLeft(s.pc[b].b, |pend|)
  {
    hide StepsLeft, MutexesInv, Tickets, ListInv;
    if e.t == b {
      assert e.a.Advance? && !s.pc[b].b.BLeave?;
      BroadcastOwnStep(s, b, rel, pend);
    } else {
      StepFrame(s, e.t, e.a);
      StepListOutside(s, e.t, e.a, rel, pend);
    }
  }

  lemma BroadcastStepAt(run: seq<State>, events: seq<Event>, k: nat, b: Tid)
    requires IsRun(run, events) && k < |events| && run[k].cs == run[k + 1].cs == Some(b)
    requires b < |run[k].pc| && run[k].pc[b].Broadcast? && b < |run[k + 1].pc| && run[k + 1].pc[b].Broadcast?
    ensures StepsLeft(run[k + 1].pc[b].b, |Queue(run[k + 1])|) + (if events[k].t == b then 1 else 0)
         == StepsLeft(run[k].pc[b].b, |Queue(run[k])|)
  {
    hide StepsLeft, Walk, Cursor, NextPend, NextRel, Queue;
    var rel, pend := RunInv(run, events, k);
    var e := events[k];
    assert StepsAt(run, events, k);
    StepKeepsInv(run[k], e.t, e.a, rel, pend);
    QueueIsPend(run[k + 1], NextRel(run[k], e.t, e.a, rel, pend), NextPend(run[k], e.t, e.a, pend));
    StepFrame(run[k], e.t, e.a);
    BroadcastStepLeft(run[k], e, b, rel, pend);
  }

  lemma BroadcastEntered(run: seq<State>, events: seq<Event>, i: nat, b: Tid)
    requires IsRun(run, events) && i < |events| && run[i].cs == None && run[i + 1].cs == Some(b)
    requires b < |run[i + 1].pc| && run[i + 1].pc[b].Broadcast?
    ensures run[i + 1].pc[b].b.BLoad? && |Queue(run[i + 1])| == |Queue(run[i])|
  {
    hide Queue, MutexesInv, ListInv, Tickets, HolderInv, Init;
    QuietAt(run, events, i, b);
    var rel, pend := RunInv(run, events, i);
    assert StepsAt(run, events, i);
    StepOwnCs(run[i], events[i].t, events[i].a);
    assert !run[i].pc[b].InCs();
  }

  /** A broadcast ends: in its critical section it is never blocked, and it is about to leave exactly after three
      statements for every waiter it found and three more, whatever the other threads do. */
  lemma {:induction false} BroadcastEnds(run: seq<State>, events: seq<Event>, i: nat, j: nat, b: Tid)
    requires IsRun(run, events) && InCsFrom(run, events, i, j, b)
    requires forall k :: i < k <= j ==> b < |run[k].pc| && run[k].pc[b].Broadcast?
    ensures OwnSteps(events, i + 1, j, b) + StepsLeft(run[j].pc[b].b, |Queue(run[j])|) == 3 * |Queue(run[i])| + 3
    ensures run[j].pc[b].b.BLeave? <==> OwnSteps(events, i + 1, j, b) == 3 * |Queue(run[i])| + 3
    ensures Enabled(run[j], b, Advance)
  {
    hide IsRun, Queue;
    HolderAdvances(run, events, j, b);
    if j == i + 1 {
      BroadcastEntered(run, events, i, b);
    } else {
      BroadcastEnds(run, events, i, j - 1, b);
      BroadcastStepAt(run, events, j - 1, b);
    }
  }

  /** What a signaller has released by the statement it is at. */
  ghost predicate SignalProgress(g: SignalAt, woken: nat, found: nat) {
    && (g.STest? ==> woken == 0)
    && (g.SRelease? ==> woken == 0 && found > 0)
    && (g.SPop? ==> woken == 1)
    && (g.SLeave? ==> woken == if found == 0 then 0 else 1)
  }

  lemma SignalOwnStep(s: State, b: Tid, rel: seq<Tid>, pend: seq<Tid>, woken: nat, found: nat)
    requires Inv(s, rel, pend) && Enabled(s, b, Advance) && s.cs == Some(b) && s.pc[b].Signal? && !s.pc[b].g.SLeave?
    requires SignalProgress(s.pc[b].g, woken, found) && found == woken + |pend|
    ensures |Step(s, b, Advance).pc| == |s.pc| && Step(s, b, Advance).pc[b].Signal?
    ensures SignalProgress(Step(s, b, Advance).pc[b].g, woken + |Posted(s, b, Advance)|, found)
  {
    hide MutexesInv, Tickets, ListInv;
    HeadIsFirst(s, rel, pend);
    assert s.pc[b].InCs() && Knows(s, b, s.pc[b], rel, pend);
    if s.pc[b].g.STest? {
      assert rel + pend == pend;
    }
    StepSem(s, b, Advance, rel, pend);
  }

  lemma SignalStepProgress(s: State, e: Event, b: Tid, rel: seq<Tid>, pend: seq<Tid>, woken: nat, found: nat)
    requires Inv(s, rel, pend) && Enabled(s, e.t, e.a) && s.cs == Some(b) && b < |s.pc| && s.pc[b].Signal?
    requires |Step(s, e.t, e.a).pc| == |s.pc| && Step(s, e.t, e.a).cs == Some(b) && Step(s, e.t, e.a).pc[b].Signal?
    requires SignalProgress(s.pc[b].g, woken, found) && found == woken + |pend|
    ensures SignalProgress(Step(s, e.t, e.a).pc[b].g, woken + |Posted(s, e.t, e.a)|, found)
  {
    if e.t == b {
      assert e.a.Advance? && !s.pc[b].g.SLeave?;
      SignalOwnStep(s, b, rel, pend, woken, found);
    } else {
      StepFrame(s, e.t, e.a);
      StepListOutside(s, e.t, e.a, rel, pend);
    }
  }

  lemma {:induction false} SignalWindow(run: seq<State>, events: seq<Event>, i: nat, j: nat, b: Tid)
    requires IsRun(run, events) && InCsFrom(run, events, i, j, b)
    requires forall k :: i < k <= j ==> b < |run[k].pc| && run[k].pc[b].Signal?
    ensures SignalProgress(run[j].pc[b].g, |Wakeups(run, events, i, j)|, |Queue(run[i])|)
  {
    var k := j - 1;
    if k == i {
      SignalEntered(run, events, i, b);
      assert Wakeups(run, events, i, i) == [];
    } else {
      SignalWindow(run, events, i, k, b);
      SignalWindowStep(run, events, i, k, b);
    }
  }

  lemma SignalWindowStep(run: seq<State>, events: seq<Event>, i: nat, k: nat, b: Tid)
    requires IsRun(run, events) && InCsFrom(run, events, i, k, b) && InCsFrom(run, events, i, k + 1, b)
    requires forall l :: i < l <= k + 1 ==> b < |run[l].pc| && run[l].pc[b].Signal?
    requires SignalProgress(run[k].pc[b].g, |Wakeups(run, events, i, k)|, |Queue(run[i])|)
    ensures SignalProgress(run[k + 1].pc[b].g, |Wakeups(run, events, i, k + 1)|, |Queue(run[i])|)
  {
    var woken, found := Wakeups(run, events, i, k), Queue(run[i]);
    WindowConservesQueue(run, events, i, k, b);
    assert |found| == |woken| + |Queue(run[k])|;
    SignalStepAt(run, events, k, b, |woken|, |found|);
    assert Wakeups(run, events, i, k + 1) == woken + Posted(run[k], events[k].t, events[k].a);
  }

  lemma SignalStepAt(run: seq<State>, events: seq<Event>, k: nat, b: Tid, woken: nat, found: nat)
    requires IsRun(run, events) && k < |events|
    requires run[k].cs == run[k + 1].cs == Some(b)
    requires b < |run[k].pc| && run[k].pc[b].Signal? && b < |run[k + 1].pc| && run[k + 1].pc[b].Signal?
    requires SignalProgress(run[k].pc[b].g, woken, found) && found == woken + |Queue(run[k])|
    ensures SignalProgress(run[k + 1].pc[b].g, woken + |Posted(run[k], events[k].t, events[k].a)|, found)
  {
    var rel, pend := RunInv(run, events, k);
    assert StepsAt(run, events, k);
    SignalStepProgress(run[k], events[k], b, rel, pend, woken, found);
  }

  lemma SignalEntered(run: seq<State>, events: seq<Event>, i: nat, b: Tid)
    requires IsRun(run, events) && i < |events| && run[i].cs == None && run[i + 1].cs == Some(b)
    requires b < |run[i + 1].pc| && run[i + 1].pc[b].Signal?
    ensures run[i + 1].pc[b].g.STest? && Posted(run[i], events[i].t, events[i].a) == []
  {
    var rel, pend := RunInv(run, events, i);
    assert StepsAt(run, events, i);
    StepOwnCs(run[i], events[i].t, events[i].a);
    assert !run[i].pc[b].InCs();
  }

  /** A signal releases exactly the front of the queue it found, if there is one, and leaves the rest queued. */
  lemma SignalWakesFirst(run: seq<State>, events: seq<Event>, i: nat, j: nat, b: Tid)
    requires IsRun(run, events) && InCsFrom(run, events, i, j, b)
    requires forall k :: i < k <= j ==> b < |run[k].pc| && run[k].pc[b].Signal?
    requires run[j].pc[b].g.SLeave?
    ensures Wakeups(run, events, i, j) == (if Queue(run[i]) == [] then [] else [Queue(run[i])[0]])
    ensures Queue(run[j]) == (if Queue(run[i]) == [] then [] else Queue(run[i])[1..])
  {
    SignalWindow(run, events, i, j, b);
    WindowConservesQueue(run, events, i, j, b);
  }

  /** From the call to its last statement, wait remembers the depth at which the mutex was held. */
  lemma {:induction false} WaitKeepsDepth(run: seq<State>, events: seq<Event>, i: nat, j: nat, t: Tid)
    requires IsRun(run, events) && i < j < |run|
    requires events[i] == Event(t, CallWait)
    requires forall k :: i < k <= j ==> t < |run[k].pc| && run[k].pc[t].Wait?
    ensures run[j].pc[t].depth == run[i].mutexDepth
  {
    var s, e := run[j - 1], events[j - 1];
    assert StepsAt(run, events, j - 1);
    StepFrame(s, e.t, e.a);
    if j > i + 1 {
      WaitKeepsDepth(run, events, i, j - 1, t);
    }
  }

  /** A thread that returns from wait owns the mutex again, exactly as deeply as when it called. */
  lemma WaitRestoresMutex(run: seq<State>, events: seq<Event>, i: nat, j: nat, t: Tid)
    requires IsRun(run, events) && i < j < |events|
    requires events[i] == Event(t, CallWait)
    requires forall k :: i < k <= j ==> t < |run[k].pc| && run[k].pc[t].Wait?
    requires run[j].pc[t].w.WRelock? && events[j].t == t
    ensures run[j + 1].mutex == Some(t) && run[j + 1].mutexDepth == run[i].mutexDepth
    ensures t < |run[j + 1].pc| && run[j + 1].pc[t].Idle?
  {
    WaitKeepsDepth(run, events, i, j, t);
    var rel, pend := RunInv(run, events, j);
    assert MutexInv(run[j], t);
    assert StepsAt(run, events, j);
  }

  /** How often t was put on the list before step j. */
  ghost function Enqueues(run: seq<State>, events: seq<Event>, t: Tid, j: nat): nat
    requires |run| == |events| + 1 && j <= |events|
  {
    if j == 0 then 0
    else
      var e := events[j - 1];
      Enqueues(run, events, t, j - 1) + (if e.t == t && Publishes(run[j - 1], t, e.a) then 1 else 0)
  }

  /** Is this the step in which t returns from the semaphore wait? */
  predicate Consumes(s: State, t: Tid, a: Action) {
    a.Advance? && t < |s.pc| && s.pc[t].IsWait(WSem)
  }

  /** How often t returned from the semaphore wait before step j. */
  ghost function Returns(run: seq<State>, events: seq<Event>, t: Tid, j: nat): nat
    requires |run| == |events| + 1 && j <= |events|
  {
    if j == 0 then 0
    else
      var e := events[j - 1];
      Returns(run, events, t, j - 1) + (if e.t == t && Consumes(run[j - 1], t, e.a) then 1 else 0)
  }

  ghost function Count(q: seq<Tid>, t: Tid): nat {
    multiset(q)[t]
  }

  lemma CountConcat(a: seq<Tid>, b: seq<Tid>, t: Tid)
    ensures Count(a + b, t) == Count(a, t) + Count(b, t)
  {
    assert multiset(a + b) == multiset(a) + multiset(b);
  }

  /** One step's share of the conservation of wakeups: the queue. */
  lemma StepConservesQueue(run: seq<State>, events: seq<Event>, t: Tid, k: nat)
    requires IsRun(run, events) && k < |events|
    ensures var e, p := events[k], Count(Posted(run[k], events[k].t, events[k].a), t);
      (if e.t == t && Publishes(run[k], t, e.a) then 1 else 0) + Count(Queue(run[k]), t)
        == p + Count(Queue(run[k + 1]), t)
  {
    var s, e := run[k], events[k];
    assert StepsAt(run, events, k);
    StepAt(run, events, k);
    CountConcat(Posted(s, e.t, e.a), Queue(run[k + 1]), t);
    CountConcat([e.t], Queue(s), t);
  }

  /** And the semaphores. */
  lemma StepConservesSem(run: seq<State>, events: seq<Event>, t: Tid, k: nat)
    requires IsRun(run, events) && k < |events| && t < |run[k].pc|
    ensures |run[k + 1].pc| == |run[k].pc| == |run[k].sem| == |run[k + 1].sem|
    ensures var e, p := events[k], Count(Posted(run[k], events[k].t, events[k].a), t);
      p + run[k].sem[t] == (if e.t == t && Consumes(run[k], t, e.a) then 1 else 0) + run[k + 1].sem[t]
  {
    var s, e := run[k], events[k];
    assert StepsAt(run, events, k);
    var rel, pend := RunInv(run, events, k);
    StepFrame(s, e.t, e.a);
    StepSem(s, e.t, e.a, rel, pend);
    assert Posted(s, e.t, e.a) == [] || Posted(s, e.t, e.a) == [pend[0]];
  }

  /** At the start nothing is queued and no semaphore counts. */
  lemma NothingAtStart(s: State, t: Tid)
    requires Init(s) && t < |s.pc|
    ensures |s.pc| == |s.sem| && Count(Queue(s), t) == 0 && s.sem[t] == 0
  {
    InitInv(s);
    QueueIsPend(s, [], []);
  }

  lemma WakeupsStep(run: seq<State>, events: seq<Event>, t: Tid, k: nat)
    requires IsRun(run, events) && k < |events|
    ensures Count(Wakeups(run, events, 0, k + 1), t) ==
      Count(Wakeups(run, events, 0, k), t) + Count(Posted(run[k], events[k].t, events[k].a), t)
  {
    CountConcat(Wakeups(run, events, 0, k), Posted(run[k], events[k].t, events[k].a), t);
  }

  /** The four counts after one more step. */
  lemma CountsStep(run: seq<State>, events: seq<Event>, t: Tid, k: nat)
    requires IsRun(run, events) && k < |events| && t < |run[k].pc|
    ensures |run[k + 1].pc| == |run[k].pc| == |run[k].sem| == |run[k + 1].sem|
    ensures Enqueues(run, events, t, k + 1) - Enqueues(run, events, t, k) ==
      Count(Wakeups(run, events, 0, k + 1), t) - Count(Wakeups(run, events, 0, k), t)
      + Count(Queue(run[k + 1]), t) - Count(Queue(run[k]), t)
    ensures Count(Wakeups(run, events, 0, k + 1), t) - Count(Wakeups(run, events, 0, k), t) ==
      Returns(run, events, t, k + 1) - Returns(run, events, t, k) + run[k + 1].sem[t] - run[k].sem[t]
  {
    StepConservesQueue(run, events, t, k);
    StepConservesSem(run, events, t, k);
    WakeupsStep(run, events, t, k);
  }

  /** Conservation over a whole run: every enqueue of t is answered by one release or still queued, and
      every release of t is consumed by one return or still in its semaphore. */
  lemma {:induction false} WakeupsConserved(run: seq<State>, events: seq<Event>, t: Tid, j: nat)
    requires IsRun(run, events) && j <= |events| && t < |run[0].pc|
    ensures |run[j].pc| == |run[0].pc| == |run[j].sem|
    ensures Enqueues(run, events, t, j) == Count(Wakeups(run, events, 0, j), t) + Count(Queue(run[j]), t)
    ensures Count(Wakeups(run, events, 0, j), t) == Returns(run, events, t, j) + run[j].sem[t]
  {
    if j == 0 {
      NothingAtStart(run[0], t);
      assert Wakeups(run, events, 0, 0) == [];
    } else {
      var k := j - 1;
      WakeupsConserved(run, events, t, k);
      CountsStep(run, events, t, k);
    }
  }
}
