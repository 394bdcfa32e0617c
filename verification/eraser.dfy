/** The object eraser (eraseWithCircle): every object of every layer's cell
    at the current frame is tested against a circle. Strokes are cut into
    the maximal runs of segments the circle does not reach, shapes are
    deleted whole when the circle covers their box centre, and anything
    else stays. Only a stroke's pivot translation is applied when it is
    measured; its rotation and scale are ignored. */
module Eraser {
  import opened Geometry
  import opened Scene

  /** Stroke width assumed for a brush whose style has none. */
  const DefaultStrokeWidth := 4.0

  /** Segment (p1, p2) of a stroke translated by (tx, ty) is safe when
      neither endpoint nor any point of the segment is within `eff` of
      (x, y). */
  predicate SegmentSafe(p1: Point, p2: Point, tx: real, ty: real, x: real, y: real, eff: real)
  {
    var x1, y1, x2, y2 := p1.x + tx, p1.y + ty, p2.x + tx, p2.y + ty;
    !WithinDist(SegDist2(x, y, x1, y1, x2, y2), eff) &&
    !WithinDist(Dist2(x, y, x1, y1), eff) &&
    !WithinDist(Dist2(x, y, x2, y2), eff)
  }

  /** The endpoint tests add nothing: the segment distance is never larger
      than either endpoint distance, so a segment is safe exactly when the
      segment itself is out of reach, that is, when no point of it is
      within `eff` of (x, y). */
  lemma SafeIffSegmentClear(p1: Point, p2: Point, tx: real, ty: real, x: real, y: real, eff: real)
    ensures SegmentSafe(p1, p2, tx, ty, x, y, eff)
            <==> !WithinDist(SegDist2(x, y, p1.x + tx, p1.y + ty, p2.x + tx, p2.y + ty), eff)
    ensures SegmentSafe(p1, p2, tx, ty, x, y, eff)
            <==> SegmentClear(x, y, p1.x + tx, p1.y + ty, p2.x + tx, p2.y + ty, eff)
  {
  }

  /** No point of the segment (x1, y1)-(x2, y2) is within `eff` of (x, y). */
  ghost predicate SegmentClear(x: real, y: real, x1: real, y1: real, x2: real, y2: real, eff: real)
  {
    forall s :: 0.0 <= s <= 1.0 ==> !WithinDist(SegPoint2(x, y, x1, y1, x2, y2, s), eff)
  }

  /** Segment i of a stroke, from pts[i] to pts[i + 1], is safe. */
  predicate SafeAt(pts: seq<Point>, i: nat, tx: real, ty: real, x: real, y: real, eff: real)
    requires i < |pts| - 1
  {
    SegmentSafe(pts[i], pts[i + 1], tx, ty, x, y, eff)
  }

  /** Flag i tells whether segment i is safe (SafeFlagsAt). Built one
      segment at a time so that each flag is looked at only when needed. */
  function SafeFlags(pts: seq<Point>, tx: real, ty: real, x: real, y: real, eff: real): (safe: seq<bool>)
    requires |pts| > 0
    ensures |safe| == |pts| - 1
    decreases |pts|
  {
    if |pts| == 1 then []
    else SafeFlags(pts[..|pts| - 1], tx, ty, x, y, eff) + [SafeAt(pts, |pts| - 2, tx, ty, x, y, eff)]
  }

  lemma {:induction false} SafeFlagsAt(pts: seq<Point>, i: nat, tx: real, ty: real, x: real, y: real, eff: real)
    requires i < |pts| - 1
    ensures SafeFlags(pts, tx, ty, x, y, eff)[i] == SafeAt(pts, i, tx, ty, x, y, eff)
    decreases |pts|
  {
    var pre := pts[..|pts| - 1];
    if i < |pts| - 2 {
      SafeFlagsAt(pre, i, tx, ty, x, y, eff);
      assert pre[i] == pts[i] && pre[i + 1] == pts[i + 1];
    }
  }

  /** Segments start .. end - 1, that is points start .. end. */
  datatype Run = Run(start: nat, end: nat)

  /** The first index at or after i whose flag is false, or |safe| if
      there is none. */
  function RunEnd(safe: seq<bool>, i: nat): (e: nat)
    requires i <= |safe|
    ensures i <= e <= |safe|
    ensures forall k :: i <= k < e ==> safe[k]
    ensures e == |safe| || !safe[e]
    decreases |safe| - i
  {
    if i == |safe| || !safe[i] then i else RunEnd(safe, i + 1)
  }

  /** The runs of consecutive true flags at or after i, left to right: a
      false flag is skipped, a true one opens a run that reaches to the
      next false flag. */
  function RunsFrom(safe: seq<bool>, i: nat): (rs: seq<Run>)
    requires i <= |safe|
    ensures forall k :: 0 <= k < |rs| ==> i <= rs[k].start < rs[k].end <= |safe|
    decreases |safe| - i
  {
    if i == |safe| then []
    else if !safe[i] then RunsFrom(safe, i + 1)
    else [Run(i, RunEnd(safe, i))] + RunsFrom(safe, RunEnd(safe, i))
  }

  /** All the runs of a list of flags. */
  function Runs(safe: seq<bool>): (rs: seq<Run>)
    ensures forall k :: 0 <= k < |rs| ==> rs[k].start < rs[k].end <= |safe|
  {
    RunsFrom(safe, 0)
  }

  /** Every run holds only true flags. */
  lemma {:induction false} RunsAllSafe(safe: seq<bool>, i: nat)
    requires i <= |safe|
    ensures forall k, j :: 0 <= k < |RunsFrom(safe, i)| && RunsFrom(safe, i)[k].start <= j < RunsFrom(safe, i)[k].end
                           ==> safe[j]
    decreases |safe| - i
  {
    if i < |safe| {
      if !safe[i] {
        RunsAllSafe(safe, i + 1);
        assert RunsFrom(safe, i) == RunsFrom(safe, i + 1);
      } else {
        var e := RunEnd(safe, i);
        RunsAllSafe(safe, e);
        var rs, rest := RunsFrom(safe, i), RunsFrom(safe, e);
        assert rs == [Run(i, e)] + rest;
        forall k, j | 0 <= k < |rs| && rs[k].start <= j < rs[k].end
          ensures safe[j]
        {
          if k > 0 {
            assert rs[k] == rest[k - 1];
          }
        }
      }
    }
  }

  /** No run can be extended to the left, except one starting at i. */
  lemma {:induction false} RunsStartMaximal(safe: seq<bool>, i: nat)
    requires i <= |safe|
    ensures forall k :: 0 <= k < |RunsFrom(safe, i)| && RunsFrom(safe, i)[k].start > i
                        ==> !safe[RunsFrom(safe, i)[k].start - 1]
    decreases |safe| - i
  {
    if i < |safe| {
      var rs := RunsFrom(safe, i);
      if !safe[i] {
        RunsStartMaximal(safe, i + 1);
        assert rs == RunsFrom(safe, i + 1);
      } else {
        var e := RunEnd(safe, i);
        assert rs == [Run(i, e)] + RunsFrom(safe, e);
        if e < |safe| {
          RunsStartMaximal(safe, e + 1);
          var rest := RunsFrom(safe, e + 1);
          assert RunsFrom(safe, e) == rest;
          forall k | 0 <= k < |rs| && rs[k].start > i
            ensures !safe[rs[k].start - 1]
          {
            assert k > 0 && rs[k] == rest[k - 1];
            if rest[k - 1].start == e + 1 {
              assert !safe[e];
            } else {
              assert rest[k - 1].start > e + 1;
            }
          }
        }
      }
    }
  }

  /** No run can be extended to the right. */
  lemma {:induction false} RunsEndMaximal(safe: seq<bool>, i: nat)
    requires i <= |safe|
    ensures forall k :: 0 <= k < |RunsFrom(safe, i)|
                        ==> RunsFrom(safe, i)[k].end == |safe| || !safe[RunsFrom(safe, i)[k].end]
    decreases |safe| - i
  {
    if i < |safe| {
      if !safe[i] {
        RunsEndMaximal(safe, i + 1);
        assert RunsFrom(safe, i) == RunsFrom(safe, i + 1);
      } else {
        var e := RunEnd(safe, i);
        RunsEndMaximal(safe, e);
        var rs, rest := RunsFrom(safe, i), RunsFrom(safe, e);
        assert rs == [Run(i, e)] + rest;
        forall k | 0 <= k < |rs|
          ensures rs[k].end == |safe| || !safe[rs[k].end]
        {
          if k > 0 {
            assert rs[k] == rest[k - 1];
          }
        }
      }
    }
  }

  /** Runs are listed left to right with at least one false flag between
      two of them. */
  lemma {:induction false} RunsSeparated(safe: seq<bool>, i: nat)
    requires i <= |safe|
    ensures forall k :: 0 <= k < |RunsFrom(safe, i)| - 1 ==> RunsFrom(safe, i)[k].end < RunsFrom(safe, i)[k + 1].start
    decreases |safe| - i
  {
    if i < |safe| {
      if !safe[i] {
        RunsSeparated(safe, i + 1);
        assert RunsFrom(safe, i) == RunsFrom(safe, i + 1);
      } else {
        var e := RunEnd(safe, i);
        RunsSeparated(safe, e);
        var rs, rest := RunsFrom(safe, i), RunsFrom(safe, e);
        assert rs == [Run(i, e)] + rest;
        if e < |safe| {
          assert rest == RunsFrom(safe, e + 1);
        }
        forall k | 0 <= k < |rs| - 1
          ensures rs[k].end < rs[k + 1].start
        {
          assert rs[k + 1] == rest[k];
          if k > 0 {
            assert rs[k] == rest[k - 1];
          }
        }
      }
    }
  }

  /** Every true flag at or after i lies in some run. */
  lemma {:induction false} RunsCover(safe: seq<bool>, i: nat, j: nat)
    requires i <= j < |safe| && safe[j]
    ensures exists k :: 0 <= k < |RunsFrom(safe, i)| && RunsFrom(safe, i)[k].start <= j < RunsFrom(safe, i)[k].end
    decreases |safe| - i
  {
    var rs := RunsFrom(safe, i);
    if !safe[i] {
      RunsCover(safe, i + 1, j);
      assert rs == RunsFrom(safe, i + 1);
    } else {
      var e := RunEnd(safe, i);
      assert rs == [Run(i, e)] + RunsFrom(safe, e);
      if j < e {
        assert rs[0].start <= j < rs[0].end;
      } else {
        RunsCover(safe, e, j);
        var rest := RunsFrom(safe, e);
        var k :| 0 <= k < |rest| && rest[k].start <= j < rest[k].end;
        assert rs[k + 1] == rest[k];
      }
    }
  }

  /** The points of each run. */
  function Slices(pts: seq<Point>, rs: seq<Run>): (pieces: seq<seq<Point>>)
    requires forall k :: 0 <= k < |rs| ==> rs[k].start < rs[k].end < |pts|
    ensures |pieces| == |rs|
    ensures forall k :: 0 <= k < |rs| ==> pieces[k] == pts[rs[k].start .. rs[k].end + 1]
  {
    seq(|rs|, k requires 0 <= k < |rs| => pts[rs[k].start .. rs[k].end + 1])
  }

  lemma SlicesAppend(pts: seq<Point>, a: seq<Run>, b: seq<Run>)
    requires forall k :: 0 <= k < |a| ==> a[k].start < a[k].end < |pts|
    requires forall k :: 0 <= k < |b| ==> b[k].start < b[k].end < |pts|
    ensures Slices(pts, a + b) == Slices(pts, a) + Slices(pts, b)
  {
    var ab := a + b;
    assert forall k :: 0 <= k < |b| ==> ab[|a| + k] == b[k];
  }

  /** A slice followed by the next element is the slice one longer. */
  lemma SliceSnoc<T>(s: seq<T>, a: nat, b: nat)
    requires a <= b < |s|
    ensures s[a .. b] + [s[b]] == s[a .. b + 1]
  {
  }

  /** Within a stretch of true flags every index reaches the same end. */
  lemma {:induction false} RunEndInside(safe: seq<bool>, s: nat, i: nat)
    requires s <= i <= |safe|
    requires forall k :: s <= k < i ==> safe[k]
    ensures RunEnd(safe, s) == RunEnd(safe, i)
    decreases i - s
  {
    if s < i {
      RunEndInside(safe, s + 1, i);
    }
  }

  /** The state of the splitting loop after i segments. With no open
      piece, the closed pieces followed by the slices of the runs from i
      on are all the slices; with an open piece of the points s .. i,
      whose segments are all safe, the same holds for the runs from s. */
  ghost predicate SplitState(pts: seq<Point>, safe: seq<bool>, i: nat, pieces: seq<seq<Point>>, current: seq<Point>)
  {
    |safe| == |pts| - 1 && i <= |safe| &&
    if current == [] then
      (i == 0 || !safe[i - 1]) &&
      Slices(pts, Runs(safe)) == pieces + Slices(pts, RunsFrom(safe, i))
    else
      var s := i + 1 - |current|;
      0 <= s < i && current == pts[s .. i + 1] && (forall k :: s <= k < i ==> safe[k]) &&
      Slices(pts, Runs(safe)) == pieces + Slices(pts, RunsFrom(safe, s))
  }

  /** A safe segment after an unsafe one (or at the start) opens a piece. */
  lemma SplitOpen(pts: seq<Point>, safe: seq<bool>, i: nat, pieces: seq<seq<Point>>)
    requires SplitState(pts, safe, i, pieces, []) && i < |safe| && safe[i]
    ensures SplitState(pts, safe, i + 1, pieces, [pts[i]] + [pts[i + 1]])
  {
    assert pts[i .. i + 2] == [pts[i]] + [pts[i + 1]];
  }

  /** A safe segment after a safe one extends the open piece. */
  lemma SplitExtend(pts: seq<Point>, safe: seq<bool>, i: nat, pieces: seq<seq<Point>>, current: seq<Point>)
    requires SplitState(pts, safe, i, pieces, current) && current != [] && i < |safe| && safe[i]
    ensures SplitState(pts, safe, i + 1, pieces, current + [pts[i + 1]])
  {
    SliceSnoc(pts, i + 1 - |current|, i + 1);
  }

  /** An unsafe segment closes the open piece, if any, as the slice of the
      run that ends at it. */
  lemma SplitClose(pts: seq<Point>, safe: seq<bool>, i: nat, pieces: seq<seq<Point>>, current: seq<Point>)
    requires SplitState(pts, safe, i, pieces, current) && i < |safe| && !safe[i]
    ensures current != [] ==> |current| > 1 && SplitState(pts, safe, i + 1, pieces + [current], [])
    ensures current == [] ==> SplitState(pts, safe, i + 1, pieces, [])
  {
    assert RunsFrom(safe, i) == RunsFrom(safe, i + 1);
    if current != [] {
      var s: nat := i + 1 - |current|;
      RunEndInside(safe, s, i);
      assert RunsFrom(safe, s) == [Run(s, i)] + RunsFrom(safe, i);
      SlicesAppend(pts, [Run(s, i)], RunsFrom(safe, i));
      assert Slices(pts, [Run(s, i)]) == [current];
    }
  }

  /** After the last segment the open piece, if any, is the last slice. */
  lemma SplitFinish(pts: seq<Point>, safe: seq<bool>, pieces: seq<seq<Point>>, current: seq<Point>)
    requires SplitState(pts, safe, |safe|, pieces, current)
    ensures current != [] ==> |current| > 1 && pieces + [current] == Slices(pts, Runs(safe))
    ensures current == [] ==> pieces == Slices(pts, Runs(safe))
  {
    if current != [] {
      var s: nat := |safe| + 1 - |current|;
      RunEndInside(safe, s, |safe|);
      assert RunsFrom(safe, s) == [Run(s, |safe|)];
      assert Slices(pts, [Run(s, |safe|)]) == [current];
    } else {
      assert Slices(pts, RunsFrom(safe, |safe|)) == [];
    }
  }

  /** One turn of the splitting loop on a segment whose safety is ok. */
  ghost predicate SplitTurn(ok: bool, p1: Point, p2: Point, pieces: seq<seq<Point>>, current: seq<Point>,
                            pieces': seq<seq<Point>>, current': seq<Point>)
  {
    if ok then pieces' == pieces && current' == (if current == [] then [p1] else current) + [p2]
    else current' == [] && pieces' == (if |current| > 1 then pieces + [current] else pieces)
  }

  /** Each turn of the loop keeps SplitState. */
  lemma SplitStep(pts: seq<Point>, safe: seq<bool>, i: nat, pieces: seq<seq<Point>>, current: seq<Point>,
                  pieces': seq<seq<Point>>, current': seq<Point>)
    requires SplitState(pts, safe, i, pieces, current) && i < |safe|
    requires SplitTurn(safe[i], pts[i], pts[i + 1], pieces, current, pieces', current')
    ensures SplitState(pts, safe, i + 1, pieces', current')
  {
    if !safe[i] {
      SplitClose(pts, safe, i, pieces, current);
    } else if current == [] {
      SplitOpen(pts, safe, i, pieces);
    } else {
      SplitExtend(pts, safe, i, pieces, current);
    }
  }

  /** The stroke-splitting loop: walk the segments, grow the current piece
      while segments are safe, close it at an unsafe one, and keep every
      closed piece of two or more points. The result is exactly the slices
      of the maximal safe runs. */
  method SplitStroke(pts: seq<Point>, tx: real, ty: real, x: real, y: real, eff: real)
    returns (pieces: seq<seq<Point>>)
    requires |pts| > 0
    ensures pieces == Slices(pts, Runs(SafeFlags(pts, tx, ty, x, y, eff)))
  {
    ghost var safe := SafeFlags(pts, tx, ty, x, y, eff);
    pieces := [];
    var current: seq<Point> := [];
    var i := 0;
    while i < |pts| - 1
      invariant i <= |pts| - 1
      invariant SplitState(pts, safe, i, pieces, current)
    {
      ghost var pieces0, current0 := pieces, current;
      var p1, p2 := pts[i], pts[i + 1];
      var ok := SegmentSafe(p1, p2, tx, ty, x, y, eff);
      SafeFlagsAt(pts, i, tx, ty, x, y, eff);
      if ok {
        if |current| == 0 {
          current := [p1];
        }
        current := current + [p2];
      } else {
        if |current| > 1 {
          pieces := pieces + [current];
        }
        current := [];
      }
      SplitStep(pts, safe, i, pieces0, current0, pieces, current);
      i := i + 1;
    }
    SplitFinish(pts, safe, pieces, current);
    if |current| > 1 {
      pieces := pieces + [current];
    }
  }

  /** What the eraser leaves of one object. */
  function EraseObject(o: SceneObject, x: real, y: real, radius: real): (out: seq<SceneObject>)
  {
    match o
    case Brush(points, style, transform, _) =>
      if |points| == 0 then [o] else ErasedStroke(points, style, transform, x, y, radius)
    case Shape(_, _, _, _) => if ShapeHit(o, x, y, radius) then [] else [o]
    case Fill(_, _, _, _, _, _) => [o]
  }

  /** Where the pivot of a transform, if any, puts the origin. */
  function PivotX(t: Option<Transform>): real { if t.Some? then t.value.x else 0.0 }
  function PivotY(t: Option<Transform>): real { if t.Some? then t.value.y else 0.0 }

  /** How near the circle may come to a stroke's centre line: the radius
      plus half the stroke width. */
  function Reach(style: Style, radius: real): real
  {
    radius + style.width.GetOr(DefaultStrokeWidth) / 2.0
  }

  /** The safety flags of a stroke's segments, measured with its pivot
      translation. */
  function StrokeFlags(points: seq<Point>, transform: Option<Transform>, style: Style,
                       x: real, y: real, radius: real): (safe: seq<bool>)
    requires |points| > 0
    ensures |safe| == |points| - 1
  {
    SafeFlags(points, PivotX(transform), PivotY(transform), x, y, Reach(style, radius))
  }

  /** Flag i of a stroke is the safety test of segment i, with the stroke
      moved by its pivot translation and the circle widened to the radius
      plus half the stroke width. */
  lemma StrokeFlagsAt(points: seq<Point>, transform: Option<Transform>, style: Style,
                      x: real, y: real, radius: real, i: nat)
    requires i < |points| - 1
    ensures StrokeFlags(points, transform, style, x, y, radius)[i] ==
            SafeAt(points, i, PivotX(transform), PivotY(transform), x, y, Reach(style, radius))
  {
    SafeFlagsAt(points, i, PivotX(transform), PivotY(transform), x, y, Reach(style, radius));
  }

  /** The mask every rebuilt piece carries: the circle, relative to the
      stroke's pivot. */
  function StrokeMask(transform: Option<Transform>, x: real, y: real, radius: real): EraserMask
  {
    EraserMask(x - PivotX(transform), y - PivotY(transform), radius, radius)
  }

  /** The brushes a stroke with at least one point is rebuilt into. */
  function ErasedStroke(points: seq<Point>, style: Style, transform: Option<Transform>,
                        x: real, y: real, radius: real): seq<SceneObject>
    requires |points| > 0
  {
    Rebuilt(Slices(points, Runs(StrokeFlags(points, transform, style, x, y, radius))),
            style, Some(transform.GetOr(Identity)), StrokeMask(transform, x, y, radius))
  }

  /** A shape is erased when the circle covers its box centre moved by its
      pivot. */
  predicate ShapeHit(o: SceneObject, x: real, y: real, radius: real)
    requires o.Shape?
  {
    var box := BoundingBox(o);
    WithinDist(Dist2(box.x + PivotX(o.transform), box.y + PivotY(o.transform), x, y), radius)
  }

  /** One new brush per piece, each with the style, a copy of the
      transform and a single fresh mask. */
  function Rebuilt(pieces: seq<seq<Point>>, style: Style, transform: Option<Transform>, mask: EraserMask)
    : (out: seq<SceneObject>)
    ensures |out| == |pieces|
    ensures forall k :: 0 <= k < |pieces| ==> out[k] == Brush(pieces[k], style, transform, [mask])
  {
    seq(|pieces|, k requires 0 <= k < |pieces| => Brush(pieces[k], style, transform, [mask]))
  }

  /** The concatenation of f over a list, left to right. */
  function ConcatMap(objs: seq<SceneObject>, f: SceneObject -> seq<SceneObject>): seq<SceneObject>
    decreases |objs|
  {
    if objs == [] then [] else ConcatMap(objs[..|objs| - 1], f) + f(objs[|objs| - 1])
  }

  /** The rebuilt cell: what survives of each object, in the original order. */
  function ErasedList(objs: seq<SceneObject>, x: real, y: real, radius: real): seq<SceneObject>
  {
    ConcatMap(objs, o => EraseObject(o, x, y, radius))
  }

  /** Mapping over a concatenation maps each part in turn: results keep the
      relative order of the objects they come from. */
  lemma {:induction false} ConcatMapAppend(a: seq<SceneObject>, b: seq<SceneObject>, f: SceneObject -> seq<SceneObject>)
    ensures ConcatMap(a + b, f) == ConcatMap(a, f) + ConcatMap(b, f)
    decreases |b|
  {
    if b == [] {
      assert a + b == a;
    } else {
      var b' := b[..|b| - 1];
      assert (a + b)[..|a + b| - 1] == a + b';
      assert (a + b)[|a + b| - 1] == b[|b| - 1];
      ConcatMapAppend(a, b', f);
    }
  }

  /** Erasing a concatenation erases each part in turn. */
  lemma ErasedListAppend(a: seq<SceneObject>, b: seq<SceneObject>, x: real, y: real, radius: real)
    ensures ErasedList(a + b, x, y, radius) == ErasedList(a, x, y, radius) + ErasedList(b, x, y, radius)
  {
    ConcatMapAppend(a, b, o => EraseObject(o, x, y, radius));
  }

  /** The brush branch of the loop body: split the stroke and rebuild one
      brush per piece. */
  method EraseStroke(points: seq<Point>, style: Style, transform: Option<Transform>,
                     x: real, y: real, radius: real) returns (out: seq<SceneObject>)
    requires |points| > 0
    ensures out == ErasedStroke(points, style, transform, x, y, radius)
  {
    var eff := Reach(style, radius);
    var tx, ty := PivotX(transform), PivotY(transform);
    var pieces := SplitStroke(points, tx, ty, x, y, eff);
    out := Rebuilt(pieces, style, Some(transform.GetOr(Identity)), StrokeMask(transform, x, y, radius));
  }

  /** What the loop body computes for one object. */
  method EraseOne(o: SceneObject, x: real, y: real, radius: real) returns (out: seq<SceneObject>)
    ensures out == EraseObject(o, x, y, radius)
  {
    match o
    case Brush(points, style, transform, _) =>
      if |points| == 0 {
        OthersSurvive(o, x, y, radius);
        out := [o];
      } else {
        StrokeErased(o, x, y, radius);
        out := EraseStroke(points, style, transform, x, y, radius);
      }
    case Shape(_, _, _, transform) =>
      ShapeSurvival(o, x, y, radius);
      if ShapeHit(o, x, y, radius) {
        out := [];
      } else {
        out := [o];
      }
    case Fill(_, _, _, _, _, _) =>
      OthersSurvive(o, x, y, radius);
      out := [o];
  }

  /** The loop over a cell's objects, with the stroke loop inside it. */
  method EraseCell(objs: seq<SceneObject>, x: real, y: real, radius: real) returns (out: seq<SceneObject>)
    ensures out == ErasedList(objs, x, y, radius)
  {
    ghost var f := o => EraseObject(o, x, y, radius);
    out := [];
    var i := 0;
    while i < |objs|
      invariant 0 <= i <= |objs|
      invariant out == ConcatMap(objs[..i], f)
    {
      assert objs[..i + 1][..i] == objs[..i];
      var r := EraseOne(objs[i], x, y, radius);
      out := out + r;
      i := i + 1;
    }
    assert objs[..i] == objs;
  }

  // ---------------------------------------------------------------
  // What happens to each kind of object
  // ---------------------------------------------------------------

  /** A brush with points is erased through ErasedStroke. */
  lemma StrokeErased(o: SceneObject, x: real, y: real, radius: real)
    requires o.Brush? && |o.points| > 0
    ensures EraseObject(o, x, y, radius) == ErasedStroke(o.points, o.style, o.transform, x, y, radius)
  {
  }

  /** Every piece a stroke leaves is a slice of at least two consecutive
      points, covering a maximal run of safe segments; each new brush has
      the old style, the old transform (or the identity) and one mask
      centred on the eraser relative to the pivot. */
  lemma StrokePieces(points: seq<Point>, style: Style, transform: Option<Transform>,
                     x: real, y: real, radius: real, k: nat)
    requires |points| > 0
    requires k < |ErasedStroke(points, style, transform, x, y, radius)|
    ensures var safe := StrokeFlags(points, transform, style, x, y, radius);
            var r := ErasedStroke(points, style, transform, x, y, radius)[k];
            var rs := Runs(safe);
            k < |rs| &&
            var a, b := rs[k].start, rs[k].end;
              a < b < |points| && r.Brush? && r.points == points[a .. b + 1] &&
              (forall j :: a <= j < b ==> safe[j]) &&
              (a == 0 || !safe[a - 1]) && (b == |safe| || !safe[b]) &&
              r.style == style && r.transform == Some(transform.GetOr(Identity)) &&
              r.masks == [StrokeMask(transform, x, y, radius)]
  {
    var safe := StrokeFlags(points, transform, style, x, y, radius);
    RunsAllSafe(safe, 0);
    RunsStartMaximal(safe, 0);
    RunsEndMaximal(safe, 0);
  }

  /** A stroke the circle does not reach at all comes back as one stroke
      with the same points, rebuilt with a fresh single mask. */
  lemma UntouchedStroke(points: seq<Point>, style: Style, transform: Option<Transform>,
                        x: real, y: real, radius: real)
    requires |points| >= 2
    requires forall i :: 0 <= i < |points| - 1 ==>
               SafeAt(points, i, PivotX(transform), PivotY(transform), x, y, Reach(style, radius))
    ensures ErasedStroke(points, style, transform, x, y, radius)
            == [Brush(points, style, Some(transform.GetOr(Identity)), [StrokeMask(transform, x, y, radius)])]
  {
    var safe := StrokeFlags(points, transform, style, x, y, radius);
    forall i | 0 <= i < |safe|
      ensures safe[i]
    {
      SafeFlagsAt(points, i, PivotX(transform), PivotY(transform), x, y, Reach(style, radius));
    }
    AllSafeOneRun(safe);
    assert Slices(points, Runs(safe)) == [points[0 .. |points|]];
    assert points[0 .. |points|] == points;
  }

  /** All flags true: one run over all of them. */
  lemma AllSafeOneRun(safe: seq<bool>)
    requires |safe| > 0
    requires forall i :: 0 <= i < |safe| ==> safe[i]
    ensures Runs(safe) == [Run(0, |safe|)]
  {
    RunEndInside(safe, 0, |safe|);
    assert RunsFrom(safe, 0) == [Run(0, |safe|)] + RunsFrom(safe, |safe|);
  }

  /** A stroke of one point has no segments and disappears; so does a
      stroke none of whose segments is safe. */
  lemma StrokeWithNoSafeSegmentVanishes(points: seq<Point>, style: Style, transform: Option<Transform>,
                                        x: real, y: real, radius: real)
    requires |points| > 0
    requires forall i :: 0 <= i < |points| - 1 ==>
               !SafeAt(points, i, PivotX(transform), PivotY(transform), x, y, Reach(style, radius))
    ensures ErasedStroke(points, style, transform, x, y, radius) == []
  {
    var safe := StrokeFlags(points, transform, style, x, y, radius);
    forall i | 0 <= i < |safe|
      ensures !safe[i]
    {
      SafeFlagsAt(points, i, PivotX(transform), PivotY(transform), x, y, Reach(style, radius));
    }
    NoSafeNoRuns(safe, 0);
  }

  /** All flags false: no run. */
  lemma {:induction false} NoSafeNoRuns(safe: seq<bool>, i: nat)
    requires i <= |safe|
    requires forall k :: 0 <= k < |safe| ==> !safe[k]
    ensures RunsFrom(safe, i) == []
    decreases |safe| - i
  {
    if i < |safe| {
      NoSafeNoRuns(safe, i + 1);
      assert RunsFrom(safe, i) == RunsFrom(safe, i + 1);
    }
  }

  /** A line, rectangle or circle survives, unchanged, exactly when its box
      centre moved by its pivot is farther than the radius from (x, y). */
  lemma ShapeSurvival(o: SceneObject, x: real, y: real, radius: real)
    requires o.Shape?
    ensures var box := BoundingBox(o);
            var cx, cy := box.x + PivotX(o.transform), box.y + PivotY(o.transform);
            (EraseObject(o, x, y, radius) == [o] <==> !WithinDist(Dist2(cx, cy, x, y), radius)) &&
            (EraseObject(o, x, y, radius) == [] <==> WithinDist(Dist2(cx, cy, x, y), radius))
  {
  }

  /** Fills and point-less brushes always survive unchanged. */
  lemma OthersSurvive(o: SceneObject, x: real, y: real, radius: real)
    requires o.Fill? || (o.Brush? && |o.points| == 0)
    ensures EraseObject(o, x, y, radius) == [o]
  {
  }
}
