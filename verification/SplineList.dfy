/**
 The spline points as xditview keeps them: records on a singly linked list, changed in place by inserting a point
 behind a point and by deleting a point through its successor.
 */
module SplineList {
  import opened Common
  import opened Spline

  class Point {
    var x: real
    var y: real
    var next: Point?

    constructor (x: real, y: real)
      ensures this.x == x && this.y == y && next == null
    {
      this.x, this.y, next := x, y, null;
    }
  }

  lemma InsertedDistinct(s: seq<Point>, k: nat, q: Point)
    requires Distinct(s) && k <= |s| && q !in s
    ensures Distinct(s[..k] + [q] + s[k..])
  {
  }

  lemma DroppedDistinct(s: seq<Point>, k: nat)
    requires Distinct(s) && k < |s|
    ensures Distinct(s[..k] + s[k + 1..])
  {
  }

  /** A point stands at one position only. */
  lemma OnlyThere(s: seq<Point>, k: nat)
    requires Distinct(s) && k < |s|
    ensures forall i :: 0 <= i < |s| && i != k ==> s[i] != s[k]
  {
  }

  lemma InsertedAndDropped<T>(s: seq<T>, k: nat, x: T, a: seq<T>)
    requires k < |s| && a == s[..k + 1] + [x] + s[k + 1..]
    ensures a[..k] + a[k + 1..] == s[..k] + [x] + s[k + 1..]
    ensures a[..k + 1] + a[k + 2..] == s
    ensures k + 1 < |s| ==> a[k + 1] == x && a[k + 2] == s[k + 1]
  {
  }

  /** s is n before the first turn of a round, and n with one element more behind position k after it. */
  ghost predicate Midway<T>(n: seq<T>, s: seq<T>, k: nat, r: nat) {
    && k + 1 < |n|
    && if r == 0 then s == n else |s| == |n| + 1 && s == n[..k + 1] + [s[k + 1]] + n[k + 1..]
  }

  lemma MidwayStart<T>(n: seq<T>, k: nat)
    requires k + 1 < |n|
    ensures Midway(n, n, k, 0)
  {
  }

  lemma MidwayEnd<T>(n: seq<T>, s: seq<T>, k: nat, r: nat)
    requires Midway(n, s, k, r) && r > 0
    ensures |s| == |n| + 1 && s == n[..k + 1] + [s[k + 1]] + n[k + 1..]
  {
  }

  /** Where the points of the next turn stand. */
  lemma StandsAt<T>(n: seq<T>, s: seq<T>, k: nat, r: nat)
    requires Midway(n, s, k, r) && k + r + 1 < |n|
    ensures var j := StageAt(k, r); j + 1 < |s| && s[j] == n[k + r] && s[j + 1] == n[k + r + 1]
  {
  }

  lemma MidwayNext<T>(n: seq<T>, s: seq<T>, s': seq<T>, k: nat, r: nat)
    requires Midway(n, s, k, r)
    requires if r == 0 then Midway(s, s', k, 1) else s' == s
    ensures Midway(n, s', k, r + 1)
  {
  }

  /** The points while a round over v is under way and r midpoints are in place. */
  ghost function Stage(pre: seq<XY>, v: seq<XY>, r: nat, post: seq<XY>): (s: seq<XY>)
    requires r < |v|
    ensures |s| == |pre| + |v| + |post| + (if r == 0 then 0 else 1)
  {
    if r == 0 then pre + v + post else pre + [v[0]] + Mids(v, r) + v[r..] + post
  }

  /** The position of the next point to look at. */
  function StageAt(start: nat, r: nat): nat {
    if r == 0 then start else start + 1 + r
  }

  lemma StageFirst(pre: seq<XY>, v: seq<XY>, post: seq<XY>, s: seq<XY>)
    requires |v| >= 2 && s == Stage(pre, v, 0, post)
    ensures s[|pre|] == v[0] && s[|pre| + 1] == v[1]
    ensures s[..|pre| + 1] + [Mid(v[0], v[1])] + s[|pre| + 1..] == Stage(pre, v, 1, post)
  {
    assert Mids(v, 1) == [Mid(v[0], v[1])];
    assert s[..|pre| + 1] == pre + [v[0]];
    assert s[|pre| + 1..] == v[1..] + post;
  }

  lemma StageNext(pre: seq<XY>, v: seq<XY>, r: nat, post: seq<XY>, s: seq<XY>, j: nat)
    requires 0 < r < |v| - 1 && s == Stage(pre, v, r, post) && j == |pre| + 1 + r
    ensures s[j] == v[r] && s[j + 1] == v[r + 1]
    ensures s[..j] + [Mid(v[r], v[r + 1])] + s[j + 1..] == Stage(pre, v, r + 1, post)
  {
    assert s[..j] == pre + [v[0]] + Mids(v, r);
    assert s[j..] == v[r..] + post;
    assert s[j + 1..] == v[r + 1..] + post;
  }

  lemma StageStep(pre: seq<XY>, v: seq<XY>, r: nat, post: seq<XY>, s: seq<XY>, j: nat)
    requires r < |v| - 1 && s == Stage(pre, v, r, post) && j == StageAt(|pre|, r)
    ensures j + 1 < |s|
    ensures s[..if r == 0 then j + 1 else j] + [Mid(s[j], s[j + 1])] + s[j + 1..] == Stage(pre, v, r + 1, post)
  {
    if r == 0 {
      StageFirst(pre, v, post, s);
    } else {
      StageNext(pre, v, r, post, s, j);
    }
  }

  lemma StageLast(pre: seq<XY>, v: seq<XY>, post: seq<XY>)
    requires |v| >= 2
    ensures Stage(pre, v, |v| - 1, post) == pre + Round(v) + post
  {
  }

  /** t is s after one pass at position j: a midpoint put behind point j, which goes unless it is the first. */
  ghost predicate Stepped(s: seq<XY>, j: nat, first: bool, t: seq<XY>) {
    && j + 1 < |s|
    && t == s[..if first then j + 1 else j] + [Mid(s[j], s[j + 1])] + s[j + 1..]
  }

  /** The stages of a round that starts at position k. */
  ghost predicate Stages(ss: seq<seq<XY>>, k: nat) {
    forall r, r1 :: 0 <= r && r1 == r + 1 && r1 < |ss| ==> Stepped(ss[r], StageAt(k, r), r == 0, ss[r1])
  }

  lemma StageSteps(ss: seq<seq<XY>>, k: nat, r: nat)
    requires Stages(ss, k) && r + 1 < |ss|
    ensures Stepped(ss[r], StageAt(k, r), r == 0, ss[r + 1])
  {
  }

  /** The stages of a round over v. */
  ghost function RoundStages(pre: seq<XY>, v: seq<XY>, post: seq<XY>): (ss: seq<seq<XY>>) {
    seq(|v|, r requires 0 <= r < |v| => Stage(pre, v, r, post))
  }

  /** The passes of a round over v lead from v to the next round's points. */
  lemma RoundHasStages(pre: seq<XY>, v: seq<XY>, post: seq<XY>)
    requires |v| >= 2
    ensures Stages(RoundStages(pre, v, post), |pre|)
    ensures RoundStages(pre, v, post)[0] == pre + v + post
    ensures RoundStages(pre, v, post)[|v| - 1] == pre + Round(v) + post
  {
    forall r | 0 <= r < |v| - 1
      ensures Stepped(Stage(pre, v, r, post), StageAt(|pre|, r), r == 0, Stage(pre, v, r + 1, post))
    {
      StageStep(pre, v, r, post, Stage(pre, v, r, post), StageAt(|pre|, r));
    }
    StageLast(pre, v, post);
  }

  /** Putting the next midpoint in its place. */
  lemma InsertedMiddle(x: seq<XY>, j: nat, s: seq<XY>)
    requires 1 <= j < |x| - 2 && s == Inner(x, j - 1) + x[j + 1..]
    ensures s[2 * j - 1] == x[j] && s[2 * j] == x[j + 1]
    ensures s[..2 * j] + [Mid(x[j], x[j + 1])] + s[2 * j..] == Inner(x, j) + x[j + 2..]
  {
    InnerPoints(x, j - 1, j - 1);
  }

  lemma FirstInner(x: seq<XY>)
    requires |x| >= 2
    ensures Inner(x, 0) + x[2..] == x
  {
  }

  lemma LastInner(x: seq<XY>)
    requires |x| >= 3
    ensures Inner(x, |x| - 3) + x[|x| - 1..] == WithMidpoints(x)
  {
    hide Inner;
    assert x[|x| - 1..] == [x[|x| - 1]];
  }

  lemma OneRoundLess(v: seq<XY>, n: nat)
    requires |v| >= 2 && n > 0
    ensures Rounds(v, n) == Rounds(Round(v), n - 1) && Rounds(v, 0) == v
  {
  }

  /** Two parts that share an end point. */
  lemma SharedEnd<T>(a: seq<T>, b: seq<T>)
    requires a != [] && b != [] && a[|a| - 1] == b[0]
    ensures a + b[1..] == a[..|a| - 1] + b
  {
  }

  lemma CurveIsRounds(w: seq<XY>, m: nat)
    requires 2 * m + 3 <= |w|
    ensures Curve(w[2 * m..]) == Rounds(w[2 * m..2 * m + 3], ITERATIONS)
  {
    hide Rounds;
    assert w[2 * m..][..3] == w[2 * m..2 * m + 3];
  }

  lemma OneCurveMore(w: seq<XY>, m: nat)
    requires 2 * m + 3 <= |w|
    ensures Curves(w, m + 1) == Curves(w, m) + Curve(w[2 * m..])[1..]
  {
  }

  /** Refining the next three points gives one curve more. */
  lemma NextCurve(w: seq<XY>, m: nat, s: seq<XY>)
    requires 2 * m + 3 <= |w| && s == Curves(w, m) + w[2 * m + 1..]
    ensures s == Curves(w, m)[..12 * m] + w[2 * m..2 * m + 3] + w[2 * m + 3..]
    ensures Curves(w, m)[..12 * m] + Rounds(w[2 * m..2 * m + 3], ITERATIONS) + w[2 * m + 3..]
      == Curves(w, m + 1) + w[2 * m + 3..]
  {
    hide Rounds, Curves;
    var head, tail := Curves(w, m), w[2 * m..];
    CurvesLast(w, m);
    CurveEnds(tail);
    OneCurveMore(w, m);
    CurveIsRounds(w, m);
    SharedEnd(head, tail);
    SharedEnd(head, Curve(tail));
    assert tail[1..] == w[2 * m + 1..] && tail == w[2 * m..2 * m + 3] + w[2 * m + 3..];
  }

  /** Before the first curve nothing is refined, after the last one everything is. */
  lemma FirstAndLastCurve(w: seq<XY>, m: nat)
    requires |w| == 2 * m + 1
    ensures Curves(w, 0) + w[2 * 0 + 1..] == w && Curves(w, m) + w[2 * m + 1..] == Curves(w, m)
  {
    assert Curves(w, 0) == w[..1];
  }

  class Outline {
    var spline: Point?
    ghost var nodes: seq<Point>
    ghost var values: seq<XY>
    ghost var points: set<Point>

    /** The list runs through nodes, whose coordinates are values. */
    ghost predicate Valid()
      reads this, points
    {
      && (forall i :: 0 <= i < |nodes| ==> nodes[i] in points)
      && Distinct(nodes) && |values| == |nodes|
      && spline == (if |nodes| == 0 then null else nodes[0])
      && (forall i {:trigger nodes[i].next} :: 0 <= i < |nodes| ==>
            nodes[i].next == if i + 1 < |nodes| then nodes[i + 1] else null)
      && forall i :: 0 <= i < |nodes| ==> nodes[i].x == values[i].x && nodes[i].y == values[i].y
    }

    /** The points stand at one position each. */
    lemma NodesApart(k: nat)
      requires Valid() && k < |nodes|
      ensures forall i :: 0 <= i < |nodes| && i != k ==> nodes[i] != nodes[k]
    {
      OnlyThere(nodes, k);
    }

    /** A record that leads to p's successor becomes p's successor. */
    method LinkBehind(p: Point, q: Point, ghost k: nat)
      requires Valid() && k < |nodes| && nodes[k] == p && q !in nodes && q.next == p.next
      modifies this`nodes, this`values, this`points, p`next
      ensures Valid()
      ensures nodes == old(nodes[..k + 1] + [q] + nodes[k + 1..]) && points == old(points) + {q}
      ensures values == old(values[..k + 1] + [XY(q.x, q.y)] + values[k + 1..])
    {
      hide Distinct;
      NodesApart(k);
      InsertedDistinct(nodes, k + 1, q);
      p.next := q;
      nodes, points := nodes[..k + 1] + [q] + nodes[k + 1..], points + {q};
      values := values[..k + 1] + [XY(q.x, q.y)] + values[k + 1..];
    }

    method InsertPoint(p: Point, q: Point, ghost k: nat)
      requires Valid() && k < |nodes| && nodes[k] == p && q !in nodes
      modifies this`nodes, this`values, this`points, p`next, q`next
      ensures Valid()
      ensures nodes == old(nodes[..k + 1] + [q] + nodes[k + 1..]) && points == old(points) + {q}
      ensures values == old(values[..k + 1] + [XY(q.x, q.y)] + values[k + 1..])
    {
      hide Distinct;
      q.next := p.next;
      LinkBehind(p, q, k);
    }

    /** A point takes the coordinates of its successor. */
    method CopySuccessor(p: Point, tmp: Point, ghost k: nat)
      requires Valid() && k + 1 < |nodes| && nodes[k] == p && nodes[k + 1] == tmp
      modifies this`values, p`x, p`y
      ensures Valid() && values == old(values[k := values[k + 1]])
    {
      hide Distinct;
      OnlyThere(nodes, k);
      p.x := tmp.x;
      p.y := tmp.y;
      values := values[k := values[k + 1]];
    }

    /** The record behind a point is unlinked. */
    method Unlink(p: Point, tmp: Point, ghost k: nat)
      requires Valid() && k + 1 < |nodes| && nodes[k] == p && nodes[k + 1] == tmp
      modifies this`nodes, this`values, p`next
      ensures Valid()
      ensures nodes == old(nodes[..k + 1] + nodes[k + 2..]) && values == old(values[..k + 1] + values[k + 2..])
    {
      hide Distinct;
      OnlyThere(nodes, k);
      DroppedDistinct(nodes, k + 1);
      p.next := tmp.next;
      nodes := nodes[..k + 1] + nodes[k + 2..];
      values := values[..k + 1] + values[k + 2..];
    }

    method DeletePoint(p: Point, ghost k: nat)
      requires Valid() && k + 1 < |nodes| && nodes[k] == p
      modifies this`nodes, this`values, p
      ensures Valid()
      ensures nodes == old(nodes[..k + 1] + nodes[k + 2..]) && points == old(points)
      ensures values == old(values[..k] + values[k + 1..])
    {
      assert nodes[k].next == nodes[k + 1];
      var tmp := p.next;
      CopySuccessor(p, tmp, k);
      Unlink(p, tmp, k);
    }

    /** The midpoint of a point and its successor goes between them. */
    method InsertMidpoint(p: Point, ghost k: nat) returns (p4: Point)
      requires Valid() && k + 1 < |nodes| && nodes[k] == p
      modifies this`nodes, this`values, this`points, p`next
      ensures Valid() && fresh(p4)
      ensures nodes == old(nodes[..k + 1] + [p4] + nodes[k + 1..]) && points == old(points) + {p4}
      ensures values == old(values[..k + 1] + [Mid(values[k], values[k + 1])] + values[k + 1..])
      ensures p4.next == old(nodes[k + 1])
    {
      assert nodes[k].next == nodes[k + 1];
      p4 := new Point((p.x + p.next.x) / 2.0, (p.y + p.next.y) / 2.0);
      InsertPoint(p, p4, k);
      assert nodes[k + 1] == p4 && nodes[k + 2] == old(nodes[k + 1]);
    }

    /** Deleting the point before an inserted one undoes the insertion but for the coordinates. */
    method DeleteBefore(p: Point, p4: Point, ghost k: nat, ghost n: seq<Point>, ghost v: seq<XY>, ghost m: XY)
      requires Valid() && k + 1 < |n| == |v| && n[k] == p
      requires nodes == n[..k + 1] + [p4] + n[k + 1..] && values == v[..k + 1] + [m] + v[k + 1..]
      modifies this`nodes, this`values, this`points, p
      ensures Valid() && nodes == n && values == v[..k] + [m] + v[k + 1..] && points == old(points)
    {
      InsertedAndDropped(n, k, p4, nodes);
      InsertedAndDropped(v, k, m, values);
      DeletePoint(p, k);
    }

    /** One pass of a round: the midpoint goes behind the point at hand, and the point, unless it is the first, is
        deleted: its record now holds the midpoint. */
    method Advance(p1: Point, p: Point, ghost k: nat) returns (after: Point)
      requires Valid() && k + 1 < |nodes| && nodes[k] == p
      modifies this`nodes, this`values, this`points, p
      ensures Valid() && after == old(nodes[k + 1]) && fresh(points - old(points))
      ensures p != p1 ==> nodes == old(nodes)
      ensures p == p1 ==> Midway(old(nodes), nodes, k, 1) && k + 1 < |nodes| && fresh(nodes[k + 1])
      ensures Stepped(old(values), k, p == p1, values)
    {
      var p4 := InsertMidpoint(p, k);
      after := p4.next;
      if p != p1 {
        DeleteBefore(p, p4, k, old(nodes), old(values), old(Mid(values[k], values[k + 1])));
      }
    }

    /** Turn r of a round over the points n from position k on. */
    method Turn(p1: Point, p: Point, ghost k: nat, ghost r: nat, ghost n: seq<Point>, ghost ss: seq<seq<XY>>)
        returns (after: Point)
      requires Valid() && k + r + 1 < |n| && p == n[k + r] && Midway(n, nodes, k, r) && (p == p1 <==> r == 0)
      requires r + 1 < |ss| && values == ss[r] && Stages(ss, k)
      modifies this`nodes, this`values, this`points, p
      ensures Valid() && values == ss[r + 1] && after == n[k + r + 1] && Midway(n, nodes, k, r + 1)
      ensures fresh(points - old(points))
      ensures if r == 0 then k + 1 < |nodes| && fresh(nodes[k + 1]) else nodes == old(nodes)
    {
      hide Outline.Valid, Stages, Midway;
      ghost var before, j := nodes, StageAt(k, r);
      StandsAt(n, nodes, k, r);
      StageSteps(ss, k, r);
      after := Advance(p1, p, j);
      MidwayNext(n, before, nodes, k, r);
    }

    /** One round over the points from position k on up to k + m; ss are the values after each pass. */
    method RefineOnce(p1: Point, p3: Point, ghost k: nat, ghost m: nat, ghost ss: seq<seq<XY>>)
      requires Valid() && m > 0 && k + m < |nodes| && nodes[k] == p1 && nodes[k + m] == p3
      requires |ss| == m + 1 && ss[0] == values && Stages(ss, k)
      modifies this`nodes, this`values, this`points, points
      ensures Valid() && values == ss[m] && fresh(points - old(points))
      ensures |nodes| == old(|nodes|) + 1 && fresh(nodes[k + 1])
      ensures nodes == old(nodes[..k + 1]) + [nodes[k + 1]] + old(nodes[k + 1..])
    {
      hide Distinct, Stages, Midway;
      NodesApart(k);
      NodesApart(k + m);
      ghost var n, r := nodes, 0;
      var p := p1;
      MidwayStart(n, k);
      while p != p3
        invariant Valid() && r <= m && values == ss[r] && fresh(points - old(points))
        invariant p == n[k + r] && Midway(n, nodes, k, r)
        invariant r > 0 ==> k + 1 < |nodes| && fresh(nodes[k + 1])
        decreases m - r
      {
        p := Turn(p1, p, k, r, n, ss);
        r := r + 1;
      }
      MidwayEnd(n, nodes, k, r);
    }

    /** The inner loop of the refinement: the points v between pre and post become the next round's. */
    method RefineBetween(p1: Point, p3: Point, ghost pre: seq<XY>, ghost v: seq<XY>, ghost post: seq<XY>)
      requires Valid() && |v| >= 2 && values == pre + v + post
      requires nodes[|pre|] == p1 && nodes[|pre| + |v| - 1] == p3
      modifies this`nodes, this`values, this`points, points
      ensures Valid() && values == pre + Round(v) + post
      ensures nodes[..|pre| + 1] == old(nodes[..|pre| + 1])
      ensures nodes[|pre| + |v|..] == old(nodes[|pre| + |v| - 1..])
      ensures fresh(points - old(points))
    {
      RoundHasStages(pre, v, post);
      RefineOnce(p1, p3, |pre|, |v| - 1, RoundStages(pre, v, post));
    }

    /** The three points p1, p2, p3 become one refined curve. */
    method LineApprox(p1: Point, p2: Point, p3: Point, ghost pre: seq<XY>, ghost v: seq<XY>, ghost post: seq<XY>)
      requires Valid() && |v| == 3 && values == pre + v + post
      requires nodes[|pre|] == p1 && nodes[|pre| + 1] == p2 && nodes[|pre| + 2] == p3
      modifies this`nodes, this`values, this`points, points
      ensures Valid() && values == pre + Rounds(v, ITERATIONS) + post
      ensures nodes[|pre| + 12..] == old(nodes[|pre| + 2..])
      ensures nodes[..|pre| + 1] == old(nodes[..|pre| + 1])
      ensures fresh(points - old(points))
    {
      hide Distinct, Round, Rounds;
      ghost var k, cur := |pre|, v;
      var reps := ITERATIONS;
      while reps > 0
        invariant Valid() && 0 <= reps && |cur| == 13 - reps && values == pre + cur + post
        invariant Rounds(cur, reps) == Rounds(v, ITERATIONS)
        invariant nodes[..k + 1] == old(nodes[..k + 1]) && nodes[k + |cur| - 1..] == old(nodes[k + 2..])
        invariant fresh(points - old(points))
      {
        assert nodes[k] == nodes[..k + 1][k] && nodes[k + |cur| - 1] == nodes[k + |cur| - 1..][0];
        RefineBetween(p1, p3, pre, cur, post);
        OneRoundLess(cur, reps);
        cur := Round(cur);
        reps := reps - 1;
      }
      OneRoundLess(cur, 1);
    }

    /** The midpoint between control points j and j + 1. */
    method PlaceMidpoint(p1: Point, ghost x: seq<XY>, ghost j: nat) returns (p: Point)
      requires Valid() && 1 <= j < |x| - 2 && values == Inner(x, j - 1) + x[j + 1..] && p1 == nodes[2 * j - 1]
      modifies this`nodes, this`values, this`points, p1
      ensures Valid() && fresh(points - old(points))
      ensures values == Inner(x, j) + x[j + 2..] && p == nodes[2 * j + 1]
    {
      assert nodes[2 * j - 1].next == nodes[2 * j];
      p := p1.next;
      var p2 := p;
      InsertedMiddle(x, j, values);
      var p4 := InsertMidpoint(p1, 2 * j - 1);
    }

    /** The first phase: midpoints go between the inner control points. */
    method InsertMidpoints(n: nat)
      requires Valid() && n == |nodes| && n >= 3
      modifies this`nodes, this`values, this`points, points
      ensures Valid() && values == WithMidpoints(old(values)) && fresh(points - old(points))
    {
      hide Distinct, Mid, Inner;
      ghost var x := values;
      FirstInner(x);
      LastInner(x);
      var mid := n - 3;
      if mid > 0 {
        assert nodes[0].next == nodes[1];
        var p := spline.next;
        var j := 1;
        while j < n - 2
          invariant Valid() && 1 <= j <= n - 2 && fresh(points - old(points))
          invariant values == Inner(x, j - 1) + x[j + 1..] && p == nodes[2 * j - 1]
        {
          p := PlaceMidpoint(p, x, j);
          j := j + 1;
        }
      }
    }

    /** The curve of three consecutive points, all before them being done. */
    method NextLine(p1: Point, p2: Point, p3: Point, ghost w: seq<XY>, ghost m: nat)
      requires Valid() && 2 * m + 3 <= |w| && values == Curves(w, m) + w[2 * m + 1..]
      requires nodes[12 * m] == p1 && nodes[12 * m + 1] == p2 && nodes[12 * m + 2] == p3
      modifies this`nodes, this`values, this`points, points
      ensures Valid() && fresh(points - old(points))
      ensures values == Curves(w, m + 1) + w[2 * m + 3..] && nodes[12 * m + 12] == p3
    {
      hide Curves, Rounds, Distinct;
      NextCurve(w, m, values);
      LineApprox(p1, p2, p3, Curves(w, m)[..12 * m], w[2 * m..2 * m + 3], w[2 * m + 3..]);
      assert nodes[12 * m + 12] == nodes[12 * m + 12..][0];
    }

    /** One turn of the second phase: from the first point of a curve to the first of the next, or nowhere. */
    method NextCurveFrom(p1: Point, ghost w: seq<XY>, ghost m: nat, ghost k: nat)
        returns (p: Point?, ghost l: nat)
      requires Valid() && k <= m && |w| == 2 * m + 1 && values == Curves(w, k) + w[2 * k + 1..] && p1 == nodes[12 * k]
      modifies this`nodes, this`values, this`points, points
      ensures Valid() && fresh(points - old(points))
      ensures l == (if k < m then k + 1 else m) && values == Curves(w, l) + w[2 * l + 1..]
      ensures p == if k < m then nodes[12 * l] else null
    {
      hide Distinct, Curves;
      l := if k < m then k + 1 else m;
      if k < m {
        assert nodes[12 * k].next == nodes[12 * k + 1] && nodes[12 * k + 1].next == nodes[12 * k + 2];
      }
      p := p1.next;
      if p == null {
        return;
      }
      var p2 := p;
      p := p.next;
      if p == null {
        return;
      }
      var p3 := p;
      NextLine(p1, p2, p3, w, k);
    }

    /** The second phase: every three points become a curve, whose last point begins the next one. */
    method ApproxCurves(ghost m: nat)
      requires Valid() && |nodes| == 2 * m + 1
      modifies this`nodes, this`values, this`points, points
      ensures Valid() && values == Curves(old(values), m) && fresh(points - old(points))
    {
      hide Distinct, Curves;
      ghost var w, k, done := values, 0, false;
      var p := spline;
      FirstAndLastCurve(w, m);
      while p != null
        invariant Valid() && k <= m && values == Curves(w, k) + w[2 * k + 1..]
        invariant p == (if done then null else nodes[12 * k]) && (done ==> k == m) && fresh(points - old(points))
        decreases m - k, !done
      {
        done := k == m;
        p, k := NextCurveFrom(p, w, m, k);
      }
    }

    /** The whole approximation of the n points of a spline. */
    method ApproxSpline(n: nat)
      requires Valid() && n == |nodes|
      modifies this`nodes, this`values, this`points, points
      ensures Valid() && values == Approximated(old(values)) && fresh(points - old(points))
    {
      if n < 3 {
        return;
      }
      InsertMidpoints(n);
      ApproxCurves(n - 2);
    }
  }
}
