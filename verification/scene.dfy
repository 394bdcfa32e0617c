/** The object scene: what a cell of the object store holds, the bounding
    box every tool measures objects by, and the centring done when a brush
    stroke or a shape drag is committed. */
module Scene {
  import opened Geometry

  datatype Option<T> = None | Some(value: T)
  {
    /** `x ?? d`. */
    function GetOr(d: T): T
    {
      match this
      case None => d
      case Some(v) => v
    }
  }

  /** Pivot, rotation (radians) and per-axis scale of an object. */
  datatype Transform = Transform(x: real, y: real, rotation: real, scaleX: real, scaleY: real)

  /** The transform given to objects that are placed with no offset. */
  const Identity := Transform(0.0, 0.0, 0.0, 1.0, 1.0)

  /** A style record. Brushes carry `color` and `width`, shapes `color` and
      `thickness`, the rectangle seeded into a new project only `fill`. */
  datatype Style = Style(color: Option<string>, fill: Option<string>, width: Option<real>,
                         thickness: Option<real>, opacity: real)

  /** An elliptical hole cut out of a brush when it is drawn, centred in
      pivot-relative coordinates. */
  datatype EraserMask = EraserMask(x: real, y: real, radiusX: real, radiusY: real)

  datatype ShapeKind = Line | Rect | Circle

  /** The objects a cell holds. A brush keeps its smoothed points relative to
      its pivot. A shape keeps its two drag ends, relative to its pivot;
      the rectangle seeded into a new project has none. A flood fill keeps
      its pixel box in canvas coordinates. Any object may gain a transform
      when the transform tool first selects it. */
  datatype SceneObject =
    | Brush(points: seq<Point>, style: Style, transform: Option<Transform>, masks: seq<EraserMask>)
    | Shape(kind: ShapeKind, ends: Option<(Point, Point)>, style: Style, transform: Option<Transform>)
    | Fill(position: (int, int), width: int, height: int, color: string, opacity: real,
           transform: Option<Transform>)

  /** A box given by its centre and its size. */
  datatype Box = Box(x: real, y: real, width: real, height: real)

  const ZeroBox := Box(0.0, 0.0, 0.0, 0.0)

  predicate Contains(b: Box, p: Point)
  {
    b.x - b.width / 2.0 <= p.x <= b.x + b.width / 2.0 &&
    b.y - b.height / 2.0 <= p.y <= b.y + b.height / 2.0
  }

  /** The points a box is measured over: a brush's points, or a shape's two
      ends when it has them; nothing for anything else. */
  function Outline(o: SceneObject): (pts: seq<Point>)
    ensures o.Brush? ==> pts == o.points
    ensures o.Shape? && o.ends.Some? ==> pts == [o.ends.value.0, o.ends.value.1]
    ensures o.Fill? || (o.Shape? && o.ends.None?) ==> pts == []
  {
    match o
    case Brush(points, _, _, _) => points
    case Shape(_, ends, _, _) => if ends.Some? then [ends.value.0, ends.value.1] else []
    case Fill(_, _, _, _, _, _) => []
  }

  /** The centre/size box of the min and max coordinates of a non-empty
      list of points: its edges are the extreme coordinates. */
  function BoxOf(pts: seq<Point>): (b: Box)
    requires |pts| > 0
    ensures b.width >= 0.0 && b.height >= 0.0
    ensures b.x - b.width / 2.0 == SeqMin(Xs(pts)) && b.x + b.width / 2.0 == SeqMax(Xs(pts))
    ensures b.y - b.height / 2.0 == SeqMin(Ys(pts)) && b.y + b.height / 2.0 == SeqMax(Ys(pts))
  {
    var xs, ys := Xs(pts), Ys(pts);
    var minX, maxX := SeqMin(xs), SeqMax(xs);
    var minY, maxY := SeqMin(ys), SeqMax(ys);
    assert minX <= maxX by { assert minX <= xs[0] <= maxX; }
    assert minY <= maxY by { assert minY <= ys[0] <= maxY; }
    Box((minX + maxX) / 2.0, (minY + maxY) / 2.0, maxX - minX, maxY - minY)
  }

  /** The box holds every point, and each of its edges touches one: it is
      the smallest box that holds them all. */
  lemma BoxOfTight(pts: seq<Point>)
    requires |pts| > 0
    ensures forall i :: 0 <= i < |pts| ==> Contains(BoxOf(pts), pts[i])
    ensures exists i :: 0 <= i < |pts| && pts[i].x == BoxOf(pts).x - BoxOf(pts).width / 2.0
    ensures exists i :: 0 <= i < |pts| && pts[i].x == BoxOf(pts).x + BoxOf(pts).width / 2.0
    ensures exists i :: 0 <= i < |pts| && pts[i].y == BoxOf(pts).y - BoxOf(pts).height / 2.0
    ensures exists i :: 0 <= i < |pts| && pts[i].y == BoxOf(pts).y + BoxOf(pts).height / 2.0
  {
    var b, xs, ys := BoxOf(pts), Xs(pts), Ys(pts);
    forall i | 0 <= i < |pts|
      ensures Contains(b, pts[i])
    {
      assert xs[i] == pts[i].x && ys[i] == pts[i].y;
    }
    var i0 :| 0 <= i0 < |xs| && xs[i0] == SeqMin(xs);
    var i1 :| 0 <= i1 < |xs| && xs[i1] == SeqMax(xs);
    var i2 :| 0 <= i2 < |ys| && ys[i2] == SeqMin(ys);
    var i3 :| 0 <= i3 < |ys| && ys[i3] == SeqMax(ys);
  }

  /** getObjectBoundingBox: the box of the object's outline, in its own
      (pivot-relative) coordinates, or the zero box when it has none (a
      point-less brush, the seeded rectangle, a flood fill). */
  function BoundingBox(o: SceneObject): (b: Box)
    ensures b.width >= 0.0 && b.height >= 0.0
    ensures |Outline(o)| > 0 ==> b == BoxOf(Outline(o))
    ensures Outline(o) == [] ==> b == ZeroBox
  {
    var pts := Outline(o);
    if |pts| > 0 then BoxOf(pts) else ZeroBox
  }

  /** The box holds the whole outline. */
  lemma BoundingBoxHoldsOutline(o: SceneObject)
    ensures forall i :: 0 <= i < |Outline(o)| ==> Contains(BoundingBox(o), Outline(o)[i])
  {
    if |Outline(o)| > 0 {
      BoxOfTight(Outline(o));
    }
  }

  // ---------------------------------------------------------------
  // Committing a brush stroke
  // ---------------------------------------------------------------

  /** The centre of the raw samples' box: the pivot of a committed stroke. */
  function StrokeCentre(raw: seq<Point>): (c: Point)
    requires |raw| > 0
    ensures c == Point(BoxOf(raw).x, BoxOf(raw).y)
  {
    var xs, ys := Xs(raw), Ys(raw);
    Point((SeqMin(xs) + SeqMax(xs)) / 2.0, (SeqMin(ys) + SeqMax(ys)) / 2.0)
  }

  /** The raw samples relative to their box centre are centred at (0, 0),
      keep their box size, and give the raw samples back when the centre
      is added again. */
  lemma CentredStroke(raw: seq<Point>)
    requires |raw| > 0
    ensures var c := StrokeCentre(raw);
            var rel := Translated(raw, c.x, c.y);
            BoxOf(rel).x == 0.0 && BoxOf(rel).y == 0.0 &&
            BoxOf(rel).width == BoxOf(raw).width && BoxOf(rel).height == BoxOf(raw).height &&
            forall i :: 0 <= i < |raw| ==> Point(rel[i].x + c.x, rel[i].y + c.y) == raw[i]
  {
    var c := StrokeCentre(raw);
    var rel := Translated(raw, c.x, c.y);
    ShiftMinMax(Xs(raw), Xs(rel), c.x);
    ShiftMinMax(Ys(raw), Ys(rel), c.y);
  }

  /** The smoothed stroke from segment i on: for each segment of the
      relative samples, in order, the Catmull-Rom samples at the parameters
      `ts` emitted by the sampling loop. */
  function Smoothed(rel: seq<Point>, i: nat, ts: seq<real>): (r: seq<Point>)
    ensures i + 1 < |rel| ==> |r| == (|rel| - 1 - i) * |ts|
    ensures i + 1 >= |rel| ==> r == []
    decreases |rel| - i
  {
    if i + 1 >= |rel| then []
    else SegmentSamples(rel, i, ts) + Smoothed(rel, i + 1, ts)
  }

  function SegmentSamples(rel: seq<Point>, i: nat, ts: seq<real>): (r: seq<Point>)
    requires i + 1 < |rel|
    ensures |r| == |ts|
    ensures forall k :: 0 <= k < |ts| ==> r[k] == SampleAt(rel, i, ts[k])
  {
    seq(|ts|, k requires 0 <= k < |ts| => SampleAt(rel, i, ts[k]))
  }

  /** The object a brush commit pushes: the smoothed relative points, the
      raw box centre as pivot, no rotation, unit scale. */
  function CommitBrush(raw: seq<Point>, ts: seq<real>, color: string, size: real): (o: SceneObject)
    requires |raw| > 0
    ensures o.Brush? && o.masks == []
    ensures o.transform == Some(Transform(StrokeCentre(raw).x, StrokeCentre(raw).y, 0.0, 1.0, 1.0))
    ensures o.style == Style(Some(color), None, Some(size), None, 1.0)
    ensures o.points == Smoothed(Translated(raw, StrokeCentre(raw).x, StrokeCentre(raw).y), 0, ts)
    ensures |ts| > 0 && ts[0] == 0.0 ==> PassesThrough(o.points, StrokeCentre(raw), raw, |ts|)
  {
    var c := StrokeCentre(raw);
    CommittedThroughRaw(raw, c, ts);
    Brush(Smoothed(Translated(raw, c.x, c.y), 0, ts),
          Style(Some(color), None, Some(size), None, 1.0),
          Some(Transform(c.x, c.y, 0.0, 1.0, 1.0)), [])
  }

  /** Placed back at its pivot, a stroke smoothed from t = 0 passes through
      every raw sample but the last, one segment's worth of samples apart. */
  lemma CommittedThroughRaw(raw: seq<Point>, c: Point, ts: seq<real>)
    ensures |ts| > 0 && ts[0] == 0.0 ==> PassesThrough(Smoothed(Translated(raw, c.x, c.y), 0, ts), c, raw, |ts|)
  {
    if |ts| > 0 && ts[0] == 0.0 {
      var pts := Smoothed(Translated(raw, c.x, c.y), 0, ts);
      forall k | 0 <= k < |raw| - 1
        ensures Stride(k, |ts|) < |pts| && Point(pts[Stride(k, |ts|)].x + c.x, pts[Stride(k, |ts|)].y + c.y) == raw[k]
      {
        CommittedSample(raw, c, ts, k);
      }
    }
  }

  lemma CommittedSample(raw: seq<Point>, c: Point, ts: seq<real>, k: nat)
    requires |ts| > 0 && ts[0] == 0.0 && k + 1 < |raw|
    ensures var pts := Smoothed(Translated(raw, c.x, c.y), 0, ts);
            Stride(k, |ts|) < |pts| && Point(pts[Stride(k, |ts|)].x + c.x, pts[Stride(k, |ts|)].y + c.y) == raw[k]
  {
    var rel := Translated(raw, c.x, c.y);
    SmoothedHitsSamples(rel, 0, ts, k);
    var j := Stride(k, |ts|);
    assert j == (k - 0) * |ts|;
    assert Smoothed(rel, 0, ts)[j] == rel[k] == Point(raw[k].x - c.x, raw[k].y - c.y);
  }

  /** Sample k * n of `pts`, moved by `c`, is raw sample k, for every raw
      sample but the last. */
  predicate PassesThrough(pts: seq<Point>, c: Point, raw: seq<Point>, n: nat)
  {
    forall k :: 0 <= k < |raw| - 1 ==>
      Stride(k, n) < |pts| && Point(pts[Stride(k, n)].x + c.x, pts[Stride(k, n)].y + c.y) == raw[k]
  }

  /** Where the k-th group of n samples starts. */
  function Stride(k: nat, n: nat): nat
  {
    k * n
  }

  /** When the sampling loop starts at t = 0, the smoothed stroke passes
      through every relative sample but the last: counting from segment i,
      sample (k - i) * |ts| is relative sample k. */
  lemma {:induction false} SmoothedHitsSamples(rel: seq<Point>, i: nat, ts: seq<real>, k: nat)
    requires |ts| > 0 && ts[0] == 0.0
    requires i <= k && k + 1 < |rel|
    ensures (k - i) * |ts| < |Smoothed(rel, i, ts)|
    ensures Smoothed(rel, i, ts)[(k - i) * |ts|] == rel[k]
    decreases k - i
  {
    var head := SegmentSamples(rel, i, ts);
    var rest := Smoothed(rel, i + 1, ts);
    var whole := Smoothed(rel, i, ts);
    assert whole == head + rest;
    if i == k {
      assert (k - i) * |ts| == 0;
      FirstSampleIsStart(rel, k, ts);
      assert whole[0] == head[0];
    } else {
      var n, j := |ts|, k - (i + 1);
      SmoothedHitsSamples(rel, i + 1, ts, k);
      assert j * n < |rest|;
      MulSucc(j, n);
      assert (k - i) * n == n + j * n;
      assert whole[n + j * n] == rest[j * n];
    }
  }

  lemma FirstSampleIsStart(rel: seq<Point>, k: nat, ts: seq<real>)
    requires |ts| > 0 && ts[0] == 0.0
    requires k + 1 < |rel|
    ensures SegmentSamples(rel, k, ts)[0] == rel[k]
  {
    SmoothedCurveInterpolates(rel, k);
  }

  lemma MulSucc(j: nat, n: nat)
    ensures (j + 1) * n == n + j * n
  {
  }

  // ---------------------------------------------------------------
  // Committing a shape drag
  // ---------------------------------------------------------------

  /** The object a shape commit pushes: both drag ends relative to their
      midpoint, which becomes the pivot. */
  function CommitShape(kind: ShapeKind, start: Point, end: Point, color: string, thickness: real)
    : (o: SceneObject)
    ensures o.Shape? && o.kind == kind && o.ends.Some?
    ensures o.style == Style(Some(color), None, None, Some(thickness), 1.0)
    ensures o.transform.Some? && o.transform.value.rotation == 0.0
    ensures o.transform.value.scaleX == 1.0 && o.transform.value.scaleY == 1.0
    // adding the pivot back gives the drag ends
    ensures o.ends.value.0.x + o.transform.value.x == start.x
    ensures o.ends.value.0.y + o.transform.value.y == start.y
    ensures o.ends.value.1.x + o.transform.value.x == end.x
    ensures o.ends.value.1.y + o.transform.value.y == end.y
    // the ends are point-symmetric about the pivot, so the box is centred there
    ensures o.ends.value.0.x == -o.ends.value.1.x && o.ends.value.0.y == -o.ends.value.1.y
  {
    var cx, cy := (start.x + end.x) / 2.0, (start.y + end.y) / 2.0;
    Shape(kind, Some((Point(start.x - cx, start.y - cy), Point(end.x - cx, end.y - cy))),
          Style(Some(color), None, None, Some(thickness), 1.0),
          Some(Transform(cx, cy, 0.0, 1.0, 1.0)))
  }

  /** A committed shape's box is centred on its pivot: box centre (0, 0). */
  lemma ShapeBoxCentred(kind: ShapeKind, start: Point, end: Point, color: string, thickness: real)
    ensures var b := BoundingBox(CommitShape(kind, start, end, color, thickness));
            b.x == 0.0 && b.y == 0.0
  {
    var o := CommitShape(kind, start, end, color, thickness);
    var pts := Outline(o);
    var b := BoxOf(pts);
    assert pts == [o.ends.value.0, o.ends.value.1];
    assert Xs(pts) == [pts[0].x, pts[1].x];
    assert Ys(pts) == [pts[0].y, pts[1].y];
    assert SeqMin(Xs(pts)) == -SeqMax(Xs(pts));
    assert SeqMin(Ys(pts)) == -SeqMax(Ys(pts));
  }
}
