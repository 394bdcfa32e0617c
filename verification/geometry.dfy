/** Geometry kernel over real coordinates: points, squared distances, the
    clamped point-to-segment projection, min/max over coordinate lists and
    the Catmull-Rom sample polynomial used to smooth brush strokes.
    Distances are kept squared so that no square root is needed: for a
    length bound r, `hypot(dx, dy) <= r` holds exactly when
    `r >= 0 && dx*dx + dy*dy <= r*r`. */
module Geometry {

  datatype Point = Point(x: real, y: real)

  function Min(a: real, b: real): real { if a <= b then a else b }
  function Max(a: real, b: real): real { if a >= b then a else b }
  function Abs(a: real): real { if a < 0.0 then -a else a }

  /** The identity on reals. `Sq` multiplies through it so that the solver
      sees a product of two terms rather than a bare power, which keeps the
      sign lemmas below usable wherever a square appears. */
  function Copy(a: real): real { a }

  /** a squared. */
  function Sq(a: real): real { a * Copy(a) }

  /** Squared Euclidean distance between (x1, y1) and (x2, y2). */
  function Dist2(x1: real, y1: real, x2: real, y2: real): (d: real)
    ensures d >= 0.0
    ensures x1 == x2 && y1 == y2 ==> d == 0.0
  {
    SqNonNeg(x1 - x2);
    SqNonNeg(y1 - y2);
    Sq(x1 - x2) + Sq(y1 - y2)
  }

  /** `Math.hypot(...) <= r` for a squared distance `d2`. */
  predicate WithinDist(d2: real, r: real)
  {
    r >= 0.0 && d2 <= Sq(r)
  }

  /** Math.max(0, Math.min(1, t)). */
  function Clamp01(t: real): (c: real)
    ensures 0.0 <= c <= 1.0
    ensures 0.0 <= t <= 1.0 ==> c == t
    ensures t < 0.0 ==> c == 0.0
    ensures t > 1.0 ==> c == 1.0
  {
    if t < 0.0 then 0.0 else if t > 1.0 then 1.0 else t
  }

  /** Squared length of the vector (dx, dy); zero only for the zero vector. */
  function Len2(dx: real, dy: real): (n: real)
    ensures n >= 0.0
    ensures n == 0.0 <==> dx == 0.0 && dy == 0.0
  {
    SqNonNeg(dx);
    SqNonNeg(dy);
    if dx != 0.0 then SqPos(dx); Sq(dx) + Sq(dy)
    else if dy != 0.0 then SqPos(dy); Sq(dx) + Sq(dy)
    else Sq(dx) + Sq(dy)
  }

  /** Dot product of (wx, wy) and (dx, dy). */
  function Dot(wx: real, wy: real, dx: real, dy: real): real
  {
    wx * dx + wy * dy
  }

  /** The unclamped parameter of the projection of w onto the line through
      the origin along the non-zero vector d. */
  function ProjParam(wx: real, wy: real, dx: real, dy: real): real
    requires !(dx == 0.0 && dy == 0.0)
  {
    Dot(wx, wy, dx, dy) / Len2(dx, dy)
  }

  lemma ProjParamScaled(wx: real, wy: real, dx: real, dy: real)
    requires !(dx == 0.0 && dy == 0.0)
    ensures Len2(dx, dy) > 0.0
    ensures ProjParam(wx, wy, dx, dy) * Len2(dx, dy) == Dot(wx, wy, dx, dy)
  {
  }

  /** Squared distance from (px, py) to the segment (x1, y1)-(x2, y2), that
      is pointToSegmentDistance squared. A degenerate segment falls back to
      the distance to its single point; otherwise the projection parameter
      is clamped into [0, 1]. The result is the least squared distance from
      p to a point of the segment, and it is attained at one of them; in
      particular it is never more than either endpoint distance. */
  function SegDist2(px: real, py: real, x1: real, y1: real, x2: real, y2: real): (d: real)
    ensures 0.0 <= d
    ensures forall s :: 0.0 <= s <= 1.0 ==> d <= SegPoint2(px, py, x1, y1, x2, y2, s)
    ensures exists s :: 0.0 <= s <= 1.0 && d == SegPoint2(px, py, x1, y1, x2, y2, s)
    ensures d <= Dist2(px, py, x1, y1)
    ensures d <= Dist2(px, py, x2, y2)
    ensures x1 == x2 && y1 == y2 ==> d == Dist2(px, py, x1, y1)
    ensures (px == x1 && py == y1) || (px == x2 && py == y2) ==> d == 0.0
  {
    SegPointsAlong(px, py, x1, y1, x2, y2);
    assert SegPoint2(px, py, x1, y1, x2, y2, 0.0) == Dist2(px, py, x1, y1) by {
      assert x1 + 0.0 * (x2 - x1) == x1 && y1 + 0.0 * (y2 - y1) == y1;
    }
    assert SegPoint2(px, py, x1, y1, x2, y2, 1.0) == Dist2(px, py, x2, y2) by {
      assert x1 + 1.0 * (x2 - x1) == x2 && y1 + 1.0 * (y2 - y1) == y2;
    }
    var c := NearestParam(px - x1, py - y1, x2 - x1, y2 - y1);
    assert OffsetDist2(px - x1, py - y1, x2 - x1, y2 - y1) == SegPoint2(px, py, x1, y1, x2, y2, c);
    OffsetDist2(px - x1, py - y1, x2 - x1, y2 - y1)
  }

  /** Squared distance from (px, py) to the point at parameter s of the
      segment (x1, y1)-(x2, y2). */
  function SegPoint2(px: real, py: real, x1: real, y1: real, x2: real, y2: real, s: real): real
  {
    Dist2(px, py, x1 + s * (x2 - x1), y1 + s * (y2 - y1))
  }

  /** |w - s d|^2: the squared length of w minus s times d. */
  function Along(wx: real, wy: real, dx: real, dy: real, s: real): real
  {
    Sq(wx - s * dx) + Sq(wy - s * dy)
  }

  lemma SegPointsAlong(px: real, py: real, x1: real, y1: real, x2: real, y2: real)
    ensures forall s :: SegPoint2(px, py, x1, y1, x2, y2, s) == Along(px - x1, py - y1, x2 - x1, y2 - y1, s)
  {
    forall s
      ensures SegPoint2(px, py, x1, y1, x2, y2, s) == Along(px - x1, py - y1, x2 - x1, y2 - y1, s)
    {
      assert px - (x1 + s * (x2 - x1)) == (px - x1) - s * (x2 - x1);
      assert py - (y1 + s * (y2 - y1)) == (py - y1) - s * (y2 - y1);
    }
  }

  /** SegDist2 with everything measured from (x1, y1): w = p - p1 and
      d = p2 - p1. The projection is p1 + c d, so p minus it is w - c d. */
  function OffsetDist2(wx: real, wy: real, dx: real, dy: real): (d: real)
    ensures 0.0 <= d
    ensures forall s :: 0.0 <= s <= 1.0 ==> d <= Along(wx, wy, dx, dy, s)
    ensures exists s :: 0.0 <= s <= 1.0 && d == Along(wx, wy, dx, dy, s)
    ensures dx == 0.0 && dy == 0.0 ==> d == Sq(wx) + Sq(wy)
  {
    var c := NearestParam(wx, wy, dx, dy);
    NearestIsLeast(wx, wy, dx, dy);
    SqNonNeg(wx - c * dx);
    SqNonNeg(wy - c * dy);
    if dx == 0.0 && dy == 0.0 then PointAlong(wx, wy, dx, dy); Along(wx, wy, dx, dy, c)
    else Along(wx, wy, dx, dy, c)
  }

  /** The parameter of the nearest point: the clamped projection, or 0 for
      a degenerate segment, whose every parameter names its one point. */
  function NearestParam(wx: real, wy: real, dx: real, dy: real): (c: real)
    ensures 0.0 <= c <= 1.0
  {
    if dx == 0.0 && dy == 0.0 then 0.0 else Clamp01(ProjParam(wx, wy, dx, dy))
  }

  /** No parameter in [0, 1] gives a point nearer than NearestParam's. */
  lemma NearestIsLeast(wx: real, wy: real, dx: real, dy: real)
    ensures forall s :: 0.0 <= s <= 1.0 ==>
              Along(wx, wy, dx, dy, NearestParam(wx, wy, dx, dy)) <= Along(wx, wy, dx, dy, s)
  {
    if dx == 0.0 && dy == 0.0 {
      PointAlong(wx, wy, dx, dy);
    } else {
      ProjParamScaled(wx, wy, dx, dy);
      ClampedIsLeast(wx, wy, dx, dy, ProjParam(wx, wy, dx, dy), NearestParam(wx, wy, dx, dy));
    }
  }

  /** Along a zero vector every parameter gives w itself. */
  lemma PointAlong(wx: real, wy: real, dx: real, dy: real)
    requires dx == 0.0 && dy == 0.0
    ensures forall s :: Along(wx, wy, dx, dy, s) == Sq(wx) + Sq(wy)
  {
    forall s
      ensures Along(wx, wy, dx, dy, s) == Sq(wx) + Sq(wy)
    {
      assert wx - s * dx == wx && wy - s * dy == wy;
    }
  }

  /** The clamp c of the unconstrained minimiser t of f(s) = |w - s d|^2
      minimises f over [0, 1]. */
  lemma ClampedIsLeast(wx: real, wy: real, dx: real, dy: real, t: real, c: real)
    requires Len2(dx, dy) > 0.0 && t * Len2(dx, dy) == Dot(wx, wy, dx, dy)
    requires c == Clamp01(t)
    ensures forall s :: 0.0 <= s <= 1.0 ==> Along(wx, wy, dx, dy, c) <= Along(wx, wy, dx, dy, s)
  {
    forall s | 0.0 <= s <= 1.0
      ensures Along(wx, wy, dx, dy, c) <= Along(wx, wy, dx, dy, s)
    {
      ClampedNoFarther(wx, wy, dx, dy, t, c, s);
    }
  }

  lemma ClampedNoFarther(wx: real, wy: real, dx: real, dy: real, t: real, c: real, s: real)
    requires Len2(dx, dy) > 0.0 && t * Len2(dx, dy) == Dot(wx, wy, dx, dy)
    requires c == Clamp01(t) && 0.0 <= s <= 1.0
    ensures Along(wx, wy, dx, dy, c) <= Along(wx, wy, dx, dy, s)
  {
    var a, b, len2 := Sq(wx) + Sq(wy), Dot(wx, wy, dx, dy), Len2(dx, dy);
    Expand(wx, wy, dx, dy, s);
    Expand(wx, wy, dx, dy, c);
    QuadLeast(a, b, len2, t, c, s);
  }

  /** f(s) = a - 2 s b + s^2 len2, minimised at t = b / len2: over [0, 1]
      it is least at the clamp of t, since f(s) - f(c) = (s - c)(s + c - 2t) len2. */
  lemma QuadLeast(a: real, b: real, len2: real, t: real, c: real, s: real)
    requires len2 > 0.0 && t * len2 == b && c == Clamp01(t) && 0.0 <= s <= 1.0
    ensures a - 2.0 * c * b + c * c * len2 <= a - 2.0 * s * b + s * s * len2
  {
    var diff := (a - 2.0 * s * b + s * s * len2) - (a - 2.0 * c * b + c * c * len2);
    if t < 0.0 {
      assert diff == s * (s - 2.0 * t) * len2;
      MulNonNeg(s, s - 2.0 * t);
      MulNonNeg(s * (s - 2.0 * t), len2);
    } else if t > 1.0 {
      assert diff == (1.0 - s) * (2.0 * t - 1.0 - s) * len2;
      MulNonNeg(1.0 - s, 2.0 * t - 1.0 - s);
      MulNonNeg((1.0 - s) * (2.0 * t - 1.0 - s), len2);
    } else {
      assert diff == (s - t) * (s - t) * len2;
      MulNonNeg((s - t) * (s - t), len2);
    }
  }

  lemma Expand(wx: real, wy: real, dx: real, dy: real, s: real)
    ensures Sq(wx - s * dx) + Sq(wy - s * dy)
            == (Sq(wx) + Sq(wy)) - 2.0 * s * Dot(wx, wy, dx, dy) + s * s * Len2(dx, dy)
  {
  }

  lemma MulPosPos(a: real, b: real)
    requires a > 0.0 && b > 0.0
    ensures a * b > 0.0
  {
  }

  lemma MulNonNeg(a: real, b: real)
    requires a >= 0.0 && b >= 0.0
    ensures a * b >= 0.0
  {
  }

  lemma SqPos(a: real)
    requires a != 0.0
    ensures Sq(a) > 0.0
  {
    if a < 0.0 {
      MulPosPos(-a, -Copy(a));
    } else {
      MulPosPos(a, Copy(a));
    }
  }

  lemma SqNonNeg(a: real)
    ensures Sq(a) >= 0.0
  {
    if a < 0.0 {
      MulNonNeg(-a, -Copy(a));
    } else {
      MulNonNeg(a, Copy(a));
    }
  }

  /** Smallest element of a non-empty list (Math.min(...xs)). */
  function SeqMin(xs: seq<real>): (m: real)
    requires |xs| > 0
    ensures m in xs
    ensures forall i :: 0 <= i < |xs| ==> m <= xs[i]
  {
    if |xs| == 1 then xs[0] else Min(xs[0], SeqMin(xs[1..]))
  }

  /** Largest element of a non-empty list (Math.max(...xs)). */
  function SeqMax(xs: seq<real>): (m: real)
    requires |xs| > 0
    ensures m in xs
    ensures forall i :: 0 <= i < |xs| ==> xs[i] <= m
  {
    if |xs| == 1 then xs[0] else Max(xs[0], SeqMax(xs[1..]))
  }

  function Xs(pts: seq<Point>): (xs: seq<real>)
    ensures |xs| == |pts|
    ensures forall i :: 0 <= i < |pts| ==> xs[i] == pts[i].x
  {
    seq(|pts|, i requires 0 <= i < |pts| => pts[i].x)
  }

  function Ys(pts: seq<Point>): (ys: seq<real>)
    ensures |ys| == |pts|
    ensures forall i :: 0 <= i < |pts| ==> ys[i] == pts[i].y
  {
    seq(|pts|, i requires 0 <= i < |pts| => pts[i].y)
  }

  /** Every point moved by (-dx, -dy). */
  function Translated(pts: seq<Point>, dx: real, dy: real): (r: seq<Point>)
    ensures |r| == |pts|
    ensures forall i :: 0 <= i < |pts| ==> r[i] == Point(pts[i].x - dx, pts[i].y - dy)
  {
    seq(|pts|, i requires 0 <= i < |pts| => Point(pts[i].x - dx, pts[i].y - dy))
  }

  /** Shifting every element shifts the minimum and maximum by the same amount. */
  lemma ShiftMinMax(xs: seq<real>, ys: seq<real>, d: real)
    requires |xs| > 0 && |ys| == |xs|
    requires forall i :: 0 <= i < |xs| ==> ys[i] == xs[i] - d
    ensures SeqMin(ys) == SeqMin(xs) - d
    ensures SeqMax(ys) == SeqMax(xs) - d
  {
    var i :| 0 <= i < |ys| && ys[i] == SeqMin(ys);
    var j :| 0 <= j < |xs| && xs[j] == SeqMin(xs);
    assert SeqMin(ys) <= ys[j];
    assert SeqMin(xs) <= xs[i];
    var k :| 0 <= k < |ys| && ys[k] == SeqMax(ys);
    var m :| 0 <= m < |xs| && xs[m] == SeqMax(xs);
    assert ys[m] <= SeqMax(ys);
    assert xs[k] <= SeqMax(xs);
  }

  /** One coordinate of the Catmull-Rom sample at parameter t for the
      window (a0, a1, a2, a3). It interpolates: t = 0 gives a1 and t = 1
      gives a2. */
  function CatmullRom(a0: real, a1: real, a2: real, a3: real, t: real): (v: real)
    ensures t == 0.0 ==> v == a1
    ensures t == 1.0 ==> v == a2
  {
    var tt := t * t;
    var ttt := tt * t;
    0.5 * ((2.0 * a1) + (-a0 + a2) * t + (2.0 * a0 - 5.0 * a1 + 4.0 * a2 - a3) * tt
           + (-a0 + 3.0 * a1 - 3.0 * a2 + a3) * ttt)
  }

  /** The four sample indices of the window for segment i of n samples:
      the neighbours are clamped into the list at both ends. */
  function WindowIndices(n: nat, i: nat): (w: (nat, nat, nat, nat))
    requires i + 1 < n
    ensures w.0 < n && w.1 < n && w.2 < n && w.3 < n
    ensures w.1 == i && w.2 == i + 1
    ensures w.0 == (if i == 0 then 0 else i - 1)
    ensures w.3 == (if i + 2 < n then i + 2 else i + 1)
  {
    (if i == 0 then i else i - 1, i, i + 1, if i + 2 < n then i + 2 else i + 1)
  }

  /** The smoothed point at parameter t on segment i of the raw samples. */
  function SampleAt(pts: seq<Point>, i: nat, t: real): Point
    requires i + 1 < |pts|
  {
    var w := WindowIndices(|pts|, i);
    var p0, p1, p2, p3 := pts[w.0], pts[w.1], pts[w.2], pts[w.3];
    Point(CatmullRom(p0.x, p1.x, p2.x, p3.x, t), CatmullRom(p0.y, p1.y, p2.y, p3.y, t))
  }

  /** The smoothed curve passes through every raw sample, and consecutive
      segments join: the end of segment i is the start of segment i + 1. */
  lemma {:induction false} SmoothedCurveInterpolates(pts: seq<Point>, i: nat)
    requires i + 1 < |pts|
    ensures SampleAt(pts, i, 0.0) == pts[i]
    ensures SampleAt(pts, i, 1.0) == pts[i + 1]
    ensures i + 2 < |pts| ==> SampleAt(pts, i, 1.0) == SampleAt(pts, i + 1, 0.0)
  {
  }
}
