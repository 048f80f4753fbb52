/**
 Whole runs of the work queue: what is executed, in which order, and what is lost; and the run from start-up.
 */
module WorkRuns {
  import opened WorkQueue

  /** The pieces in the queue and all they will ever schedule. */
  function All(ws: seq<Work>): multiset<Work> {
    if ws == [] then multiset{} else multiset{ws[0]} + All(ws[0].plan) + All(ws[1..])
  }

  lemma {:induction false} AllConcat(a: seq<Work>, b: seq<Work>)
    ensures All(a + b) == All(a) + All(b)
    decreases |a|
  {
    if a == [] {
      assert a + b == b;
    } else {
      assert (a + b)[1..] == a[1..] + b;
      AllConcat(a[1..], b);
    }
  }

  lemma AllInsert(q: seq<Work>, w: Work)
    ensures All(Insert(q, w)) == All(q) + All([w])
  {
    var n := Place(q, w.priority);
    assert q == q[..n] + q[n..];
    AllConcat(q[..n], q[n..]);
    AllConcat(q[..n], [w]);
    AllConcat(q[..n] + [w], q[n..]);
  }

  lemma {:induction false} AllInsertAll(q: seq<Work>, plan: seq<Work>)
    ensures All(InsertAll(q, plan)) == All(q) + All(plan)
    decreases |plan|
  {
    if plan != [] {
      var init, last := plan[..|plan| - 1], plan[|plan| - 1];
      assert plan == init + [last];
      AllInsertAll(q, init);
      AllInsert(InsertAll(q, init), last);
      AllConcat(init, [last]);
    }
  }

  /** Nothing is filtered out of a plan exactly when all of it has the running priority number or a higher one. */
  lemma {:induction false} KeptIsAll(plan: seq<Work>, p: int)
    ensures |Kept(plan, p)| <= |plan|
    ensures |Kept(plan, p)| == |plan| <==> forall i :: 0 <= i < |plan| ==> plan[i].priority >= p
    ensures |Kept(plan, p)| == |plan| ==> Kept(plan, p) == plan
    ensures forall i :: 0 <= i < |Kept(plan, p)| ==> Kept(plan, p)[i].priority >= p
    decreases |plan|
  {
    if plan != [] {
      var init, last := plan[..|plan| - 1], plan[|plan| - 1];
      assert plan == init + [last];
      KeptIsAll(init, p);
    }
  }

  lemma {:induction false} KeptWithin(plan: seq<Work>, p: int)
    ensures All(Kept(plan, p)) <= All(plan)
    decreases |plan|
  {
    if plan != [] {
      var init, last := plan[..|plan| - 1], plan[|plan| - 1];
      assert plan == init + [last];
      KeptWithin(init, p);
      AllConcat(init, [last]);
      if last.priority >= p {
        AllConcat(Kept(init, p), [last]);
      } else {
        assert Kept(plan, p) == Kept(init, p);
      }
    }
  }

  lemma {:induction false} InsertAllSize(q: seq<Work>, plan: seq<Work>)
    ensures |InsertAll(q, plan)| == |q| + |plan|
    decreases |plan|
  {
    if plan != [] {
      InsertAllSize(q, plan[..|plan| - 1]);
    }
  }

  /** A piece that runs loses none of the work it schedules exactly when all of it has the piece's own priority
      number or a higher one. */
  lemma RunLosesNothing(q: seq<Work>)
    requires q != []
    ensures |After(q)| == |q| - 1 + |q[0].plan| <==>
      forall i :: 0 <= i < |q[0].plan| ==> q[0].plan[i].priority >= q[0].priority
  {
    KeptIsAll(q[0].plan, q[0].priority);
    InsertAllSize(q[1..], Kept(q[0].plan, q[0].priority));
  }

  lemma AfterShrinks(q: seq<Work>)
    requires q != []
    ensures All(After(q)) + multiset{q[0]} <= All(q)
    ensures |All(After(q))| < |All(q)|
  {
    KeptWithin(q[0].plan, q[0].priority);
    AllInsertAll(q[1..], Kept(q[0].plan, q[0].priority));
    var rest := All(q) - (All(After(q)) + multiset{q[0]});
    assert All(q) == All(After(q)) + multiset{q[0]} + rest;
  }

  /** The pieces executed, first to last, until the queue is empty. */
  function Trace(q: seq<Work>): seq<Work>
    decreases |All(q)|
  {
    if q == [] then [] else (AfterShrinks(q); [q[0]] + Trace(After(q)))
  }

  /** No procedure schedules work below its own priority number. */
  predicate Obedient(ws: seq<Work>) {
    ws == [] ||
    ((forall i :: 0 <= i < |ws[0].plan| ==> ws[0].plan[i].priority >= ws[0].priority)
     && Obedient(ws[0].plan) && Obedient(ws[1..]))
  }

  lemma {:induction false} ObedientConcat(a: seq<Work>, b: seq<Work>)
    ensures Obedient(a + b) <==> Obedient(a) && Obedient(b)
    decreases |a|
  {
    if a == [] {
      assert a + b == b;
    } else {
      assert (a + b)[1..] == a[1..] + b;
      ObedientConcat(a[1..], b);
    }
  }

  lemma {:induction false} ObedientInsertAll(q: seq<Work>, plan: seq<Work>)
    requires Obedient(q) && Obedient(plan)
    ensures Obedient(InsertAll(q, plan))
    decreases |plan|
  {
    if plan != [] {
      var init, last := plan[..|plan| - 1], plan[|plan| - 1];
      assert plan == init + [last];
      ObedientConcat(init, [last]);
      ObedientInsertAll(q, init);
      var r, n := InsertAll(q, init), Place(InsertAll(q, init), last.priority);
      assert r == r[..n] + r[n..];
      ObedientConcat(r[..n], r[n..]);
      ObedientConcat(r[..n], [last]);
      ObedientConcat(r[..n] + [last], r[n..]);
    }
  }

  lemma AfterOrder(q: seq<Work>)
    requires q != [] && InOrder(q)
    ensures InOrder(After(q)) && AtLeast(After(q), q[0].priority)
  {
    KeptIsAll(q[0].plan, q[0].priority);
    InsertAllKeepsOrder(q[1..], Kept(q[0].plan, q[0].priority));
    InsertAllAtLeast(q[1..], Kept(q[0].plan, q[0].priority), q[0].priority);
  }

  ghost predicate AtLeast(q: seq<Work>, p: int) {
    forall i :: 0 <= i < |q| ==> q[i].priority >= p
  }

  lemma {:induction false} InsertAllAtLeast(q: seq<Work>, plan: seq<Work>, p: int)
    requires AtLeast(q, p) && AtLeast(plan, p)
    ensures AtLeast(InsertAll(q, plan), p)
    decreases |plan|
  {
    if plan != [] {
      InsertAllAtLeast(q, plan[..|plan| - 1], p);
    }
  }

  /** Whatever the procedures schedule, work runs in the order of the priority numbers. */
  lemma {:induction false} TraceOrder(q: seq<Work>, p: int)
    requires InOrder(q) && AtLeast(q, p)
    ensures InOrder(Trace(q)) && AtLeast(Trace(q), p)
    decreases |All(q)|
  {
    hide All, After;
    if q != [] {
      AfterShrinks(q);
      AfterOrder(q);
      TraceOrder(After(q), q[0].priority);
      var t := Trace(After(q));
      assert Trace(q) == [q[0]] + t;
    }
  }

  lemma AfterKeepsAll(q: seq<Work>)
    requires q != [] && Obedient(q)
    ensures Obedient(After(q)) && All(q) == multiset{q[0]} + All(After(q))
  {
    var plan, rest := q[0].plan, q[1..];
    KeptIsAll(plan, q[0].priority);
    assert After(q) == InsertAll(rest, plan);
    AllInsertAll(rest, plan);
    ObedientInsertAll(rest, plan);
    Shuffle(multiset{q[0]}, All(plan), All(rest));
  }

  lemma Shuffle<T>(a: multiset<T>, b: multiset<T>, c: multiset<T>)
    ensures a + b + c == a + (c + b)
  {
  }

  lemma TraceStep(done: seq<Work>, q: seq<Work>)
    requires q != []
    ensures (done + [q[0]]) + Trace(After(q)) == done + Trace(q)
    ensures multiset(Trace(q)) == multiset{q[0]} + multiset(Trace(After(q)))
    ensures |All(After(q))| < |All(q)|
  {
    AfterShrinks(q);
    assert Trace(q) == [q[0]] + Trace(After(q));
  }

  /** The pieces of one priority number, in order. */
  function OfPriority(ws: seq<Work>, p: int): seq<Work> {
    if ws == [] then [] else If(ws[0].priority == p, ws[0]) + OfPriority(ws[1..], p)
  }

  function If<T>(b: bool, x: T): seq<T> {
    if b then [x] else []
  }

  /** What the pieces of a trace schedule, in the order of their running, as far as it is not lost. */
  function Scheduled(trace: seq<Work>): seq<Work> {
    if trace == [] then [] else Kept(trace[0].plan, trace[0].priority) + Scheduled(trace[1..])
  }

  lemma {:induction false} OfPriorityConcat(a: seq<Work>, b: seq<Work>, p: int)
    ensures OfPriority(a + b, p) == OfPriority(a, p) + OfPriority(b, p)
  {
    hide If;
    if a == [] {
      assert a + b == b;
    } else {
      assert (a + b)[1..] == a[1..] + b;
      OfPriorityConcat(a[1..], b, p);
    }
  }

  lemma {:induction false} NoneOfPriority(ws: seq<Work>, p: int)
    requires forall i :: 0 <= i < |ws| ==> ws[i].priority != p
    ensures OfPriority(ws, p) == []
  {
    if ws != [] {
      NoneOfPriority(ws[1..], p);
    }
  }

  /** A piece that moves past others of other priority numbers keeps its place among its own. */
  lemma MovedPast(front: seq<Work>, back: seq<Work>, w: Work, p: int)
    requires w.priority != p || forall i :: 0 <= i < |back| ==> back[i].priority != p
    ensures OfPriority(front + [w] + back, p) == OfPriority(front + back + [w], p)
  {
    hide OfPriority;
    OfPriorityConcat(front, [w], p);
    OfPriorityConcat(front + [w], back, p);
    OfPriorityConcat(front, back, p);
    OfPriorityConcat(front + back, [w], p);
    NoneOfPriority(if w.priority != p then [w] else back, p);
  }

  /** A newcomer goes behind all pieces of its priority number. */
  lemma InsertStable(q: seq<Work>, w: Work, p: int)
    requires InOrder(q)
    ensures OfPriority(Insert(q, w), p) == OfPriority(q + [w], p)
  {
    hide OfPriority, Place;
    var n := Place(q, w.priority);
    forall i | 0 <= i < |q[n..]| ensures q[n..][i].priority > w.priority {
      assert q[n].priority <= q[n + i].priority;
    }
    MovedPast(q[..n], q[n..], w, p);
    assert q == q[..n] + q[n..];
  }

  lemma {:induction false} InsertAllStable(q: seq<Work>, plan: seq<Work>, p: int)
    requires InOrder(q)
    ensures OfPriority(InsertAll(q, plan), p) == OfPriority(q + plan, p)
    decreases |plan|
  {
    hide OfPriority, Insert, InOrder;
    if plan == [] {
      assert q + plan == q;
    } else {
      var init, last := plan[..|plan| - 1], plan[|plan| - 1];
      InsertAllStable(q, init, p);
      InsertAllKeepsOrder(q, init);
      InsertStable(InsertAll(q, init), last, p);
      OfPriorityConcat(InsertAll(q, init), [last], p);
      OfPriorityConcat(q + init, [last], p);
      assert q + init + [last] == q + plan;
    }
  }

  lemma NothingScheduled()
    ensures Scheduled([]) == []
  {
  }

  lemma TraceStableStep(w: Work, rest: seq<Work>, kept: seq<Work>, t: seq<Work>, p: int)
    requires InOrder(rest) && kept == Kept(w.plan, w.priority)
    requires OfPriority(t, p) == OfPriority(InsertAll(rest, kept) + Scheduled(t), p)
    ensures OfPriority([w] + t, p) == OfPriority([w] + rest + Scheduled([w] + t), p)
  {
    hide OfPriority, InsertAll, Kept;
    assert ([w] + t)[1..] == t;
    InsertAllStable(rest, kept, p);
    OfPriorityConcat(InsertAll(rest, kept), Scheduled(t), p);
    OfPriorityConcat(rest + kept, Scheduled(t), p);
    OfPriorityConcat([w], t, p);
    OfPriorityConcat([w], rest + kept + Scheduled(t), p);
    assert [w] + (rest + kept + Scheduled(t)) == [w] + rest + Scheduled([w] + t);
  }

  /** First come, first served: of each priority number, the pieces run in the order in which they were scheduled,
      those in the queue at the start first and then those that each piece schedules, as the pieces run. */
  lemma {:induction false} TraceStable(q: seq<Work>, p: int)
    requires InOrder(q)
    ensures OfPriority(Trace(q), p) == OfPriority(q + Scheduled(Trace(q)), p)
    decreases |All(q)|
  {
    hide OfPriority, InsertAll, Kept, Scheduled, All;
    if q == [] {
      NothingScheduled();
      assert q + Scheduled(Trace(q)) == Trace(q);
    } else {
      var kept, rest, t := Kept(q[0].plan, q[0].priority), q[1..], Trace(After(q));
      TraceStep([], q);
      AfterOrder(q);
      TraceStable(After(q), p);
      TraceStableStep(q[0], rest, kept, t, p);
      assert Trace(q) == [q[0]] + t && q == [q[0]] + rest;
    }
  }

  /** If no procedure schedules below its own priority number, everything ever scheduled is executed once. */
  lemma {:induction false} RunsEverything(q: seq<Work>)
    requires InOrder(q) && Obedient(q)
    ensures multiset(Trace(q)) == All(q)
    decreases |All(q)|
  {
    if q != [] {
      TraceStep([], q);
      AfterOrder(q);
      AfterKeepsAll(q);
      RunsEverything(After(q));
    }
  }

  /** The state between two pieces of a run: `trace` is done, the queue holds the rest. */
  ghost predicate Between(trace: seq<Work>, q: seq<Work>, start: seq<Work>) {
    InOrder(q) && trace + Trace(q) == Trace(start)
  }

  method RunOne(queue: Queue, ghost trace: seq<Work>, ghost start: seq<Work>) returns (w: Work, done: bool)
    requires queue.Valid() && queue.pieces != [] && Between(trace, queue.Contents(), start)
    modifies queue, queue.Repr
    ensures queue.Valid() && fresh(queue.Repr - old(queue.Repr)) && (done <==> queue.pieces == [])
    ensures w == old(queue.head.work) && Between(trace + [w], queue.Contents(), start)
    ensures |All(queue.Contents())| < |All(old(queue.Contents()))|
  {
    TraceStep(trace, queue.Contents());
    w := queue.head.work;
    done := queue.DoWorkPiece();
  }

  /** The loop that Xt runs: one piece after the other until the queue is empty. */
  method RunAll(queue: Queue) returns (trace: seq<Work>)
    requires queue.Valid() && InOrder(queue.Contents())
    modifies queue, queue.Repr
    ensures queue.Valid() && queue.pieces == [] && trace == Trace(old(queue.Contents()))
  {
    trace := [];
    var done := queue.head == null;
    while !done
      invariant queue.Valid() && fresh(queue.Repr - old(queue.Repr)) && (done <==> queue.pieces == [])
      invariant Between(trace, queue.Contents(), old(queue.Contents()))
      decreases |All(queue.Contents())|
    {
      var w;
      w, done := RunOne(queue, trace, old(queue.Contents()));
      trace := trace + [w];
    }
  }

  const BACKGROUND := 10

  /** FinishWork runs the foreground pieces, and only those; the rest of the run stays to be done. */
  method FinishWork(queue: Queue) returns (trace: seq<Work>)
    requires queue.Valid() && InOrder(queue.Contents())
    modifies queue, queue.Repr
    ensures queue.Valid() && Between(trace, queue.Contents(), old(queue.Contents()))
    ensures forall i :: 0 <= i < |trace| ==> trace[i].priority < BACKGROUND
    ensures AtLeast(queue.Contents(), BACKGROUND)
  {
    hide InOrder, Trace, All;
    trace := [];
    while queue.head != null && queue.head.work.priority < BACKGROUND
      invariant queue.Valid() && fresh(queue.Repr - old(queue.Repr))
      invariant Between(trace, queue.Contents(), old(queue.Contents()))
      invariant forall i :: 0 <= i < |trace| ==> trace[i].priority < BACKGROUND
      decreases |All(queue.Contents())|
    {
      var w, _ := RunOne(queue, trace, old(queue.Contents()));
      trace := trace + [w];
    }
    Background(queue.Contents());
  }

  lemma Background(q: seq<Work>)
    requires InOrder(q) && (q != [] ==> q[0].priority >= BACKGROUND)
    ensures AtLeast(q, BACKGROUND)
  {
    forall i | 0 < i < |q| ensures q[i].priority >= BACKGROUND {
      assert q[0].priority <= q[i].priority;
    }
  }
}
