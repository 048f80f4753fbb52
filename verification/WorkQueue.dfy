/**
 xfontsel's background work: a linked queue kept in priority order, first come first served within a priority.
 A procedure may schedule more work while it runs; the piece that runs is unlinked only afterwards.
 */
module WorkQueue {
  import opened Common

  datatype Task =
    | GetFontNames | ParseFontNames(start: nat, end: nat) | XFreeFontNames | XtFree
    | FixScalables | SortFields | SetCurrentFont | MakeFieldMenu(field: nat) | Other(id: nat)

  /** A piece of work, and the work it schedules, in that order, when it runs. */
  datatype Work = Work(priority: int, task: Task, plan: seq<Work>)

  ghost predicate InOrder(q: seq<Work>) {
    forall i, j :: 0 <= i < j < |q| ==> q[i].priority <= q[j].priority
  }

  /** How many pieces stand before a newcomer of this priority. */
  function Place(q: seq<Work>, priority: int): (n: nat)
    ensures n <= |q| && (forall i :: 0 <= i < n ==> q[i].priority <= priority)
    ensures n < |q| ==> q[n].priority > priority
  {
    if q == [] || q[0].priority > priority then 0 else 1 + Place(q[1..], priority)
  }

  lemma {:induction false} PlaceIs(q: seq<Work>, priority: int, n: nat)
    requires n <= |q| && (forall i :: 0 <= i < n ==> q[i].priority <= priority)
    requires n < |q| ==> q[n].priority > priority
    ensures Place(q, priority) == n
    decreases n
  {
    if n > 0 {
      PlaceIs(q[1..], priority, n - 1);
    }
  }

  function Insert(q: seq<Work>, w: Work): seq<Work> {
    var n := Place(q, w.priority);
    q[..n] + [w] + q[n..]
  }

  function InsertAll(q: seq<Work>, plan: seq<Work>): seq<Work>
    decreases |plan|
  {
    if plan == [] then q else Insert(InsertAll(q, plan[..|plan| - 1]), plan[|plan| - 1])
  }

  /** The part of a plan whose priority number is at least p. */
  function Kept(plan: seq<Work>, p: int): seq<Work> {
    if plan == [] then []
    else
      var last := plan[|plan| - 1];
      Kept(plan[..|plan| - 1], p) + (if last.priority >= p then [last] else [])
  }

  lemma KeptStep(plan: seq<Work>, i: nat, p: int, q: seq<Work>)
    requires i < |plan|
    ensures InsertAll(q, Kept(plan[..i + 1], p))
         == if plan[i].priority >= p then Insert(InsertAll(q, Kept(plan[..i], p)), plan[i])
            else InsertAll(q, Kept(plan[..i], p))
  {
    assert plan[..i + 1][..i] == plan[..i];
    var kept := Kept(plan[..i], p);
    assert (kept + [plan[i]])[..|kept|] == kept;
    assert kept + [] == kept;
  }

  /** The queue after its first piece has run: work scheduled below the running priority number is lost. */
  function After(q: seq<Work>): seq<Work>
    requires q != []
  {
    InsertAll(q[1..], Kept(q[0].plan, q[0].priority))
  }

  lemma InsertedAt(a: seq<Work>, w: Work, b: seq<Work>)
    requires InOrder(a) && InOrder(b)
    requires forall i :: 0 <= i < |a| ==> a[i].priority <= w.priority
    requires forall i :: 0 <= i < |b| ==> b[i].priority > w.priority
    ensures InOrder(a + [w] + b)
  {
  }

  /** In an ordered queue a newcomer goes behind everything of its priority or lower and before everything of higher. */
  lemma InsertKeepsOrder(q: seq<Work>, w: Work)
    requires InOrder(q)
    ensures InOrder(Insert(q, w))
    ensures forall i :: Place(q, w.priority) <= i < |q| ==> q[i].priority > w.priority
  {
    var n := Place(q, w.priority);
    forall i | n <= i < |q| ensures q[i].priority > w.priority {
      assert i > n ==> q[n].priority <= q[i].priority;
    }
    InsertedAt(q[..n], w, q[n..]);
  }

  lemma {:induction false} InsertAllKeepsOrder(q: seq<Work>, plan: seq<Work>)
    requires InOrder(q)
    ensures InOrder(InsertAll(q, plan))
    decreases |plan|
  {
    if plan != [] {
      InsertAllKeepsOrder(q, plan[..|plan| - 1]);
      InsertKeepsOrder(InsertAll(q, plan[..|plan| - 1]), plan[|plan| - 1]);
    }
  }

  /** A newcomer of w's priority number or a higher one goes behind w. */
  lemma InsertBehind(low: seq<Work>, w: Work, rest: seq<Work>, x: Work)
    requires x.priority >= w.priority && forall i :: 0 <= i < |low| ==> low[i].priority < w.priority
    ensures Place(low + [w] + rest, x.priority) == |low| + 1 + Place(rest, x.priority)
    ensures Insert(low + [w] + rest, x) == low + [w] + Insert(rest, x)
  {
    hide Place;
    var q, m := low + [w] + rest, Place(rest, x.priority);
    var n := |low| + 1 + m;
    forall i | 0 <= i < n ensures q[i].priority <= x.priority {
      if i < |low| {
        assert q[i] == low[i];
      } else if i > |low| {
        assert q[i] == rest[i - |low| - 1];
      }
    }
    PlaceIs(q, x.priority, n);
    SplitBehind(low, w, rest, m);
  }

  lemma SplitBehind(low: seq<Work>, w: Work, rest: seq<Work>, m: nat)
    requires m <= |rest|
    ensures (low + [w] + rest)[..|low| + 1 + m] == low + [w] + rest[..m]
    ensures (low + [w] + rest)[|low| + 1 + m..] == rest[m..]
  {
  }

  /** A newcomer of a lower priority number goes in before w. */
  lemma InsertBefore(low: seq<Work>, w: Work, rest: seq<Work>, x: Work)
    requires x.priority < w.priority && forall i :: 0 <= i < |low| ==> low[i].priority < w.priority
    ensures Place(low + [w] + rest, x.priority) == Place(low, x.priority)
    ensures Insert(low + [w] + rest, x) == Insert(low, x) + [w] + rest
    ensures forall i :: 0 <= i <= |low| ==> Insert(low, x)[i].priority < w.priority
  {
    var q, n := low + [w] + rest, Place(low, x.priority);
    assert forall i :: 0 <= i < |low| ==> q[i] == low[i];
    PlaceIs(q, x.priority, n);
    SplitBefore(low, w, rest, x, n);
  }

  lemma SplitBefore(low: seq<Work>, w: Work, rest: seq<Work>, x: Work, n: nat)
    requires n <= |low|
    ensures var q := low + [w] + rest; q[..n] + [x] + q[n..] == (low[..n] + [x] + low[n..]) + [w] + rest
  {
  }

  /** One scheduling step of a running piece w, which has `low` before it and `rest` behind it. */
  lemma PlannedStep(low: seq<Work>, w: Work, rest: seq<Work>, x: Work) returns (low': seq<Work>)
    requires forall i :: 0 <= i < |low| ==> low[i].priority < w.priority
    ensures forall i :: 0 <= i < |low'| ==> low'[i].priority < w.priority
    ensures Insert(low + [w] + rest, x) == low' + [w] + (if x.priority >= w.priority then Insert(rest, x) else rest)
    ensures |low'| == |low| + (if Place(low + [w] + rest, x.priority) <= |low| then 1 else 0)
  {
    if x.priority >= w.priority {
      InsertBehind(low, w, rest, x);
      low' := low;
    } else {
      InsertBefore(low, w, rest, x);
      low' := Insert(low, x);
    }
  }

  class WorkPiece {
    var next: WorkPiece?
    const work: Work

    constructor (work: Work)
      ensures this.work == work && next == null
    {
      this.work := work;
      next := null;
    }
  }

  ghost function WorksOf(pieces: seq<WorkPiece>): seq<Work> {
    seq(|pieces|, i requires 0 <= i < |pieces| => pieces[i].work)
  }

  lemma InsertedWork(pieces: seq<WorkPiece>, piece: WorkPiece, n: nat)
    requires n == Place(WorksOf(pieces), piece.work.priority)
    ensures WorksOf(pieces[..n] + [piece] + pieces[n..]) == Insert(WorksOf(pieces), piece.work)
  {
  }

  class Queue {
    var head: WorkPiece?
    ghost var pieces: seq<WorkPiece>
    ghost var Repr: set<object>

    ghost predicate Valid()
      reads this, Repr
    {
      && this !in Repr && (forall i :: 0 <= i < |pieces| ==> pieces[i] in Repr)
      && Distinct(pieces)
      && head == (if pieces == [] then null else pieces[0])
      && (forall i, j :: 0 <= i < j < |pieces| && j == i + 1 ==> pieces[i].next == pieces[j])
      && (pieces != [] ==> pieces[|pieces| - 1].next == null)
    }

    ghost function Contents(): seq<Work>
      reads this
    {
      WorksOf(pieces)
    }

    constructor ()
      ensures Valid() && pieces == [] && Repr == {}
    {
      head := null;
      pieces := [];
      Repr := {};
    }

    /** The last piece that stays before a newcomer of this priority; the head is one. */
    method LastBefore(priority: int) returns (n: WorkPiece, ghost place: nat)
      requires Valid() && head != null && head.work.priority <= priority
      ensures 1 <= place <= |pieces| && n == pieces[place - 1]
      ensures place == Place(Contents(), priority)
    {
      n := head;
      place := 1;
      ghost var q := Contents();
      while n.next != null && n.next.work.priority <= priority
        invariant 1 <= place <= |pieces| && n == pieces[place - 1]
        invariant forall i :: 0 <= i < place ==> q[i].priority <= priority
        decreases |pieces| - place
      {
        assert place < |pieces|;
        n := n.next;
        place := place + 1;
      }
      assert place < |pieces| ==> n.next == pieces[place];
      PlaceIs(q, priority, place);
    }

    /** Relink: the new piece goes behind the last one of its priority or a lower one. */
    method ScheduleWork(w: Work)
      requires Valid()
      modifies this, Repr
      ensures Valid() && fresh(Repr - old(Repr)) && Contents() == Insert(old(Contents()), w)
      ensures var n := Place(old(Contents()), w.priority);
        && |pieces| == |old(pieces)| + 1 && fresh(pieces[n])
        && pieces[..n] == old(pieces)[..n] && pieces[n + 1..] == old(pieces)[n..]
    {
      var piece := new WorkPiece(w);
      Repr := Repr + {piece};
      Link(piece);
      InsertedWork(old(pieces), piece, Place(old(Contents()), w.priority));
    }

    method Link(piece: WorkPiece)
      requires Valid() && piece !in pieces && piece in Repr && piece.next == null
      modifies this`head, this`pieces, Repr
      ensures Valid()
      ensures var n := Place(old(Contents()), piece.work.priority);
        pieces == old(pieces)[..n] + [piece] + old(pieces)[n..]
    {
      if head == null || head.work.priority > piece.work.priority {
        LinkFront(piece);
      } else {
        var n, place := LastBefore(piece.work.priority);
        LinkBehind(n, piece, place);
      }
    }

    method LinkFront(piece: WorkPiece)
      requires Valid() && piece !in pieces && piece in Repr
      modifies this`head, this`pieces, piece
      ensures Valid() && pieces == [piece] + old(pieces)
    {
      piece.next := head;
      head := piece;
      pieces := [piece] + pieces;
    }

    method LinkBehind(n: WorkPiece, piece: WorkPiece, ghost place: nat)
      requires Valid() && 1 <= place <= |pieces| && n == pieces[place - 1] && piece !in pieces && piece in Repr
      modifies this`pieces, piece, n
      ensures Valid() && pieces == old(pieces)[..place] + [piece] + old(pieces)[place..]
    {
      piece.next := n.next;
      n.next := piece;
      pieces := pieces[..place] + [piece] + pieces[place..];
    }

    /** Run the first piece.  What it schedules is linked while it still stands in the queue; then the head becomes
        its successor, so whatever was linked before it is gone. */
    method DoWorkPiece() returns (done: bool)
      requires Valid() && InOrder(Contents())
      modifies this, Repr
      ensures Valid() && fresh(Repr - old(Repr))
      ensures old(pieces) == [] ==> pieces == []
      ensures old(pieces) != [] ==> Contents() == After(old(Contents()))
      ensures InOrder(Contents())
      ensures done <==> pieces == []
    {
      var piece := head;
      if piece != null {
        var w := piece.work;
        ghost var q := Contents();
        ghost var low: seq<Work> := [];
        assert q == low + [w] + InsertAll(q[1..], Kept(w.plan[..0], w.priority));
        for i := 0 to |w.plan|
          invariant Valid() && InOrder(Contents()) && fresh(Repr - old(Repr))
          invariant Contents() == low + [w] + InsertAll(q[1..], Kept(w.plan[..i], w.priority))
          invariant forall j :: 0 <= j < |low| ==> low[j].priority < w.priority
          invariant |low| < |pieces| && pieces[|low|] == piece
        {
          low := RunPlanned(w, i, q, low, piece);
        }
        assert w.plan[..|w.plan|] == w.plan;
        ghost var all := Contents();
        UnlinkThrough(piece, |low|);
        assert Contents() == all[|low| + 1..] == After(q);
      }
      return head == null;
    }

    /** One scheduling step of the running piece. */
    method RunPlanned(w: Work, i: nat, ghost q: seq<Work>, ghost low: seq<Work>, ghost piece: WorkPiece)
        returns (ghost low': seq<Work>)
      requires Valid() && InOrder(Contents()) && i < |w.plan| && q != []
      requires Contents() == low + [w] + InsertAll(q[1..], Kept(w.plan[..i], w.priority))
      requires forall j :: 0 <= j < |low| ==> low[j].priority < w.priority
      requires |low| < |pieces| && pieces[|low|] == piece
      modifies this, Repr
      ensures Valid() && InOrder(Contents()) && fresh(Repr - old(Repr))
      ensures Contents() == low' + [w] + InsertAll(q[1..], Kept(w.plan[..i + 1], w.priority))
      ensures forall j :: 0 <= j < |low'| ==> low'[j].priority < w.priority
      ensures |low'| < |pieces| && pieces[|low'|] == piece
    {
      hide InOrder, InsertAll, Kept, Place;
      ghost var rest := InsertAll(q[1..], Kept(w.plan[..i], w.priority));
      ghost var x := w.plan[i];
      InsertKeepsOrder(Contents(), x);
      assert w.plan[..i + 1][..i] == w.plan[..i];
      low' := PlannedStep(low, w, rest, x);
      ghost var n, before := Place(Contents(), x.priority), pieces;
      ScheduleWork(w.plan[i]);
      PositionAfter(before, pieces, n, |low|);
      KeptStep(w.plan, i, w.priority, q[1..]);
    }

    /** The head becomes the successor of the piece that ran. */
    method UnlinkThrough(piece: WorkPiece, ghost n: nat)
      requires Valid() && n < |pieces| && pieces[n] == piece
      modifies this`head, this`pieces
      ensures Valid() && pieces == old(pieces)[n + 1..]
    {
      assert n + 1 < |pieces| ==> piece.next == pieces[n + 1];
      head := piece.next;
      pieces := pieces[n + 1..];
    }
  }

  /** Where an old element stands after one was put in at n. */
  lemma PositionAfter<T>(s: seq<T>, s': seq<T>, n: nat, at: nat)
    requires |s'| == |s| + 1 && n <= |s| && s'[..n] == s[..n] && s'[n + 1..] == s[n..] && at < |s|
    ensures s'[if n <= at then at + 1 else at] == s[at]
  {
    if n <= at {
      assert s'[at + 1] == s'[n + 1..][at - n];
    } else {
      assert s'[at] == s'[..n][at];
    }
  }
}
