/**
 xditview's spline approximation: midpoints are inserted between the inner control points, and every three points
 are then refined in place on the linked list.  How many points come out, which stay, and where the new ones lie.
 */
module Spline {
  const ITERATIONS := 10

  datatype XY = XY(x: real, y: real)

  function Mid(p: XY, q: XY): XY {
    XY((p.x + q.x) / 2.0, (p.y + q.y) / 2.0)
  }

  // ---------------------------------------------------------------------------------------
  // The points as values
  // ---------------------------------------------------------------------------------------

  /** The midpoints of the first r adjacent pairs. */
  function Mids(v: seq<XY>, r: nat): (w: seq<XY>)
    requires r < |v|
    ensures |w| == r
    decreases r
  {
    if r == 0 then [] else Mids(v, r - 1) + [Mid(v[r - 1], v[r])]
  }

  lemma {:induction false} MidsAt(v: seq<XY>, r: nat, i: nat)
    requires i < r < |v|
    ensures Mids(v, r)[i] == Mid(v[i], v[i + 1])
    decreases r
  {
    if i < r - 1 {
      MidsAt(v, r - 1, i);
    }
  }

  /** One round: the end points stay, every adjacent pair is replaced by its midpoint. */
  function Round(v: seq<XY>): (r: seq<XY>)
    requires |v| >= 2
    ensures |r| == |v| + 1
  {
    [v[0]] + Mids(v, |v| - 1) + [v[|v| - 1]]
  }

  function Rounds(v: seq<XY>, n: nat): (r: seq<XY>)
    requires |v| >= 2
    ensures |r| == |v| + n
    decreases n, |v|
  {
    if n == 0 then v else Rounds(Round(v), n - 1)
  }

  /** Refinement keeps the end points of a curve. */
  lemma {:induction false} RoundsEnds(v: seq<XY>, n: nat)
    requires |v| >= 2
    ensures Rounds(v, n)[0] == v[0] && Rounds(v, n)[|v| + n - 1] == v[|v| - 1]
    decreases n, |v|
  {
    if n > 0 {
      RoundsEnds(Round(v), n - 1);
    }
  }

  /** Where the points of a round lie. */
  lemma RoundPoints(v: seq<XY>, i: nat)
    requires |v| >= 2 && i <= |v|
    ensures i == 0 ==> Round(v)[i] == v[0]
    ensures i == |v| ==> Round(v)[i] == v[|v| - 1]
    ensures 0 < i < |v| ==> Round(v)[i] == XY((v[i - 1].x + v[i].x) / 2.0, (v[i - 1].y + v[i].y) / 2.0)
  {
    if 0 < i < |v| {
      MidsAt(v, |v| - 1, i - 1);
    }
  }

  /** One more round is a round of what the rounds before have made. */
  lemma {:induction false} LastRound(v: seq<XY>, n: nat)
    requires |v| >= 2
    ensures Rounds(v, n + 1) == Round(Rounds(v, n))
    decreases n
  {
    if n > 0 {
      LastRound(Round(v), n - 1);
    }
  }

  /** The first r + 2 control points with midpoints between the inner ones. */
  function Inner(v: seq<XY>, r: nat): (w: seq<XY>)
    requires |v| >= r + 2
    ensures |w| == 2 * r + 2
    decreases r
  {
    if r == 0 then v[..2] else Inner(v, r - 1) + [Mid(v[r], v[r + 1]), v[r + 1]]
  }

  /** The control points with a midpoint between every two inner ones. */
  function WithMidpoints(v: seq<XY>): (r: seq<XY>)
    requires |v| >= 3
    ensures |r| == 2 * |v| - 3
  {
    Inner(v, |v| - 3) + [v[|v| - 1]]
  }

  /** Control point k is the middle one of curve k - 1. */
  lemma {:induction false} InnerPoints(v: seq<XY>, r: nat, k: nat)
    requires |v| >= r + 2 && k <= r
    ensures Inner(v, r)[0] == v[0] && Inner(v, r)[2 * k + 1] == v[k + 1]
    ensures k > 0 ==> Inner(v, r)[2 * k] == Mid(v[k], v[k + 1])
    decreases r
  {
    if r == 0 {
      assert Inner(v, r) == v[..2];
    } else {
      InnerPoints(v, r - 1, if k < r then k else 0);
      assert Inner(v, r) == Inner(v, r - 1) + [Mid(v[r], v[r + 1]), v[r + 1]];
    }
  }

  /** One curve: its first three points after all rounds. */
  function Curve(v: seq<XY>): (r: seq<XY>)
    requires |v| >= 3
    ensures |r| == 3 + ITERATIONS
  {
    Rounds(v[..3], ITERATIONS)
  }

  /** The first m curves, each refined; neighbouring curves share an end point. */
  function Curves(v: seq<XY>, m: nat): (r: seq<XY>)
    requires |v| >= 2 * m + 1
    ensures |r| == 12 * m + 1 && r[0] == v[0]
    decreases m
  {
    if m == 0 then [v[0]] else Curves(v, m - 1) + Curve(v[2 * m - 2..])[1..]
  }

  /** The spline of a list of control points. */
  function Approximated(v: seq<XY>): seq<XY> {
    if |v| < 3 then v else Curves(WithMidpoints(v), |v| - 2)
  }

  /** Twelve segments for each of the n - 2 curves. */
  lemma ApproximatedCount(v: seq<XY>)
    requires |v| >= 3
    ensures |Approximated(v)| == 12 * (|v| - 2) + 1
  {
  }

  // ---------------------------------------------------------------------------------------
  // Where the points lie
  // ---------------------------------------------------------------------------------------

  /** The closed half-plane a x + b y <= c. */
  predicate InHalf(a: real, b: real, c: real, p: XY) {
    a * p.x + b * p.y <= c
  }

  ghost predicate AllInHalf(a: real, b: real, c: real, v: seq<XY>) {
    forall i :: 0 <= i < |v| ==> InHalf(a, b, c, v[i])
  }

  /** Every half-plane around the points v holds p: p lies in their convex hull. */
  ghost predicate InHull(v: seq<XY>, p: XY) {
    forall a: real, b: real, c: real :: AllInHalf(a, b, c, v) ==> InHalf(a, b, c, p)
  }

  lemma MidInHalf(a: real, b: real, c: real, p: XY, q: XY)
    requires InHalf(a, b, c, p) && InHalf(a, b, c, q)
    ensures InHalf(a, b, c, Mid(p, q))
  {
    assert a * ((p.x + q.x) / 2.0) == (a * p.x + a * q.x) / 2.0;
    assert b * ((p.y + q.y) / 2.0) == (b * p.y + b * q.y) / 2.0;
  }

  lemma {:induction false} RoundsInHalf(a: real, b: real, c: real, v: seq<XY>, n: nat)
    requires |v| >= 2 && AllInHalf(a, b, c, v)
    ensures AllInHalf(a, b, c, Rounds(v, n))
    decreases n, |v|
  {
    if n > 0 {
      var r := Round(v);
      forall i | 0 <= i < |r| ensures InHalf(a, b, c, r[i]) {
        if 1 <= i < |v| {
          MidsAt(v, |v| - 1, i - 1);
          MidInHalf(a, b, c, v[i - 1], v[i]);
        }
      }
      RoundsInHalf(a, b, c, r, n - 1);
    }
  }

  lemma CurveEnds(v: seq<XY>)
    requires |v| >= 3
    ensures Curve(v)[0] == v[0] && Curve(v)[12] == v[2]
  {
    RoundsEnds(v[..3], ITERATIONS);
  }

  lemma CurveInHull(v: seq<XY>, i: nat)
    requires |v| >= 3 && i <= 12
    ensures InHull(v[..3], Curve(v)[i])
  {
    var w, n := v[..3], ITERATIONS;
    forall a: real, b: real, c: real | AllInHalf(a, b, c, w) ensures InHalf(a, b, c, Curve(v)[i]) {
      RoundsInHalf(a, b, c, w, n);
    }
  }

  lemma CurvesLast(v: seq<XY>, m: nat)
    requires |v| >= 2 * m + 1
    ensures Curves(v, m)[12 * m] == v[2 * m]
  {
    if m > 0 {
      CurveEnds(v[2 * m - 2..]);
    }
  }

  /** The points of curve k: from its first end point at 12 k to its last at 12 k + 12 they are the refinement of
      the curve's three points. */
  lemma {:induction false} CurvePoints(v: seq<XY>, m: nat, k: nat, i: nat)
    requires |v| >= 2 * m + 1 && k < m && i <= 12
    ensures Curves(v, m)[12 * k + i] == Curve(v[2 * k..])[i]
    decreases m
  {
    hide Curve;
    var before, last := Curves(v, m - 1), Curve(v[2 * m - 2..]);
    assert Curves(v, m) == before + last[1..] && |before| == 12 * (m - 1) + 1;
    if k < m - 1 {
      CurvePoints(v, m - 1, k, i);
    } else if i == 0 {
      CurvesLast(v, k);
      CurveEnds(v[2 * k..]);
    }
  }

  /** Point i of curve k: it lies in the convex hull of the curve's three points, and the first and the last are the
      first and the last of these. */
  lemma CurveIsBounded(v: seq<XY>, k: nat, i: nat)
    requires k + 2 < |v| && i <= 12
    ensures InHull(WithMidpoints(v)[2 * k..2 * k + 3], Approximated(v)[12 * k + i])
    ensures i == 0 ==> Approximated(v)[12 * k + i] == WithMidpoints(v)[2 * k]
    ensures i == 12 ==> Approximated(v)[12 * k + i] == WithMidpoints(v)[2 * k + 2]
  {
    var w, m := WithMidpoints(v), |v| - 2;
    CurvePoints(w, m, k, i);
    var u := w[2 * k..];
    CurveInHull(u, i);
    CurveEnds(u);
    assert u[..3] == w[2 * k..2 * k + 3];
  }

  /** The spline still starts and ends where its control points do. */
  lemma EndsStay(v: seq<XY>)
    requires |v| >= 3
    ensures Approximated(v)[0] == v[0] && Approximated(v)[12 * (|v| - 2)] == v[|v| - 1]
  {
    InnerPoints(v, |v| - 3, 0);
    CurveIsBounded(v, 0, 0);
    CurveIsBounded(v, |v| - 3, 12);
  }

  lemma RoundBackwards(v: seq<XY>, w: seq<XY>)
    requires |v| == |w| >= 2 && forall i :: 0 <= i < |v| ==> w[i] == v[|v| - 1 - i]
    ensures forall i :: 0 <= i <= |v| ==> Round(w)[i] == Round(v)[|v| - i]
  {
    forall i | 0 <= i <= |v| ensures Round(w)[i] == Round(v)[|v| - i] {
      RoundPoints(v, |v| - i);
      RoundPoints(w, i);
    }
  }

  /** Drawn from its other end, a curve has the same points. */
  lemma {:induction false} RoundsBackwards(v: seq<XY>, w: seq<XY>, n: nat)
    requires |v| == |w| >= 2 && forall i :: 0 <= i < |v| ==> w[i] == v[|v| - 1 - i]
    ensures forall i :: 0 <= i < |v| + n ==> Rounds(w, n)[i] == Rounds(v, n)[|v| + n - 1 - i]
    decreases n
  {
    if n > 0 {
      RoundBackwards(v, w);
      RoundsBackwards(Round(v), Round(w), n - 1);
    }
  }

  /** Between the ends, the curves meet halfway between control points: at points 12, 24, ... */
  lemma CurvesMeetHalfway(v: seq<XY>, k: nat)
    requires 0 < k < |v| - 2
    ensures Approximated(v)[12 * k] == XY((v[k].x + v[k + 1].x) / 2.0, (v[k].y + v[k + 1].y) / 2.0)
  {
    InnerPoints(v, |v| - 3, k);
    CurveIsBounded(v, k, 0);
  }
}
