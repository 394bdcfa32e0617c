/** The transform tool: the hit test that picks the object under the
    pointer, the rotate and corner handles of the selected object, and the
    move, rotate and resize arithmetic applied to its transform while it is
    dragged. Math.sin, Math.cos and Math.atan2 are supplied by the caller
    as functions, so nothing here depends on their floating-point values. */
module Selection {
  import opened Geometry
  import opened Scene
  import opened Exposure

  /** Half the side of a corner handle's square, and the rotate handle's radius. */
  const HandleSize: real := 8.0
  /** How far above the box's top edge the rotate handle sits. */
  const RotateDist: real := 15.0
  /** The smallest visual width or height a resize produces. */
  const MinSize: real := 4.0

  /** (Math.sin(a), Math.cos(a)). */
  type Trig = real -> (real, real)
  /** Math.atan2(dy, dx). */
  type Atan2 = (real, real) -> real

  /** d rotated by angle a. */
  function Rotated(d: Point, a: real, trig: Trig): Point
  {
    var (sin, cos) := trig(a);
    Point(d.x * cos - d.y * sin, d.x * sin + d.y * cos)
  }

  /** The pointer relative to the pivot, turned back by the rotation but not
      divided by the scale: the frame in which the handles are laid out. */
  function HandleFrame(p: Point, t: Transform, trig: Trig): Point
  {
    Rotated(Point(p.x - t.x, p.y - t.y), -t.rotation, trig)
  }

  /** The pointer in the object's own coordinates, or None when a zero scale
      makes the division produce a value that no comparison accepts. */
  function ToLocal(p: Point, t: Transform, trig: Trig): (q: Option<Point>)
    ensures q.Some? <==> t.scaleX != 0.0 && t.scaleY != 0.0
    ensures q.Some? ==> q.value.x * t.scaleX == HandleFrame(p, t, trig).x
    ensures q.Some? ==> q.value.y * t.scaleY == HandleFrame(p, t, trig).y
  {
    var r := HandleFrame(p, t, trig);
    if t.scaleX == 0.0 || t.scaleY == 0.0 then None else Some(Point(r.x / t.scaleX, r.y / t.scaleY))
  }

  // ---------------------------------------------------------------
  // Hit test
  // ---------------------------------------------------------------

  /** Brushes are padded by half their width (4 when unset); nothing else is. */
  function Padding(o: SceneObject): real
  {
    if o.Brush? then o.style.width.GetOr(4.0) / 2.0 else 0.0
  }

  predicate InPadded(b: Box, pad: real, q: Point)
  {
    b.x - b.width / 2.0 - pad <= q.x <= b.x + b.width / 2.0 + pad &&
    b.y - b.height / 2.0 - pad <= q.y <= b.y + b.height / 2.0 + pad
  }

  /** The pointer falls inside the object's padded box, taken in the
      object's own coordinates. */
  predicate Hits(o: SceneObject, p: Point, trig: Trig)
  {
    var local := if o.transform.Some? then ToLocal(p, o.transform.value, trig) else Some(p);
    local.Some? && InPadded(BoundingBox(o), Padding(o), local.value)
  }

  /** An object placed at its pivot with no rotation and unit scale, as
      every commit places it, is hit at every point of its outline moved to
      the pivot. */
  lemma OutlineHits(o: SceneObject, i: nat, trig: Trig)
    requires o.transform.Some? && i < |Outline(o)|
    requires o.transform.value.rotation == 0.0
    requires o.transform.value.scaleX == 1.0 && o.transform.value.scaleY == 1.0
    requires trig(0.0) == (0.0, 1.0)
    requires o.Brush? ==> o.style.width.GetOr(4.0) >= 0.0
    ensures Hits(o, Point(o.transform.value.x + Outline(o)[i].x, o.transform.value.y + Outline(o)[i].y), trig)
  {
    var t := o.transform.value;
    var q := Outline(o)[i];
    BoundingBoxHoldsOutline(o);
    assert Contains(BoundingBox(o), q);
    assert HandleFrame(Point(t.x + q.x, t.y + q.y), t, trig) == q;
  }

  /** What each of the n layers shows at frame f. */
  function FrameView(keys: seq<seq<bool>>, cells: seq<seq<Cell>>, n: nat, f: nat): (v: seq<Cell>)
    requires f < |keys| == |cells| && Grid(keys, cells, n)
    ensures |v| == n && forall l :: 0 <= l < n ==> v[l] == Exposed(keys, cells, f, l)
  {
    seq(n, l requires 0 <= l < n => Exposed(keys, cells, f, l))
  }

  /** Object i of layer l's list is under the pointer. */
  predicate HitIn(view: seq<Cell>, l: nat, i: nat, under: SceneObject -> bool)
  {
    l < |view| && i < |view[l]| && under(view[l][i])
  }

  /** The hit test at one pointer position, as a test on objects. */
  function Under(p: Point, trig: Trig): (under: SceneObject -> bool)
    ensures forall o :: under(o) == Hits(o, p, trig)
  {
    o => Hits(o, p, trig)
  }

  /** Where a picked object lives: the keyframe cell whose list the layer
      exposes, and the object's index in it. */
  datatype ObjRef = ObjRef(frame: nat, layer: nat, index: nat)

  /** The search order of the hit test: layers from the top, and within a
      layer the objects from the last drawn. (l, i) comes no later than r
      in that order when it is on a lower layer or earlier in the list. */
  predicate NotAfter(l: nat, i: nat, r: ObjRef)
  {
    l < r.layer || (l == r.layer && i <= r.index)
  }

  /** hit is the first object under the pointer in search order over what
      the n layers show at frame f, and names the keyframe cell it was read
      from; None when no object is under the pointer. */
  ghost predicate Picked(keys: seq<seq<bool>>, cells: seq<seq<Cell>>, n: nat, f: nat, under: SceneObject -> bool,
                         hit: Option<ObjRef>)
    requires f < |keys| == |cells| && Grid(keys, cells, n)
  {
    var view := FrameView(keys, cells, n, f);
    match hit
    case None => forall l: nat, i: nat :: !HitIn(view, l, i, under)
    case Some(r) =>
      HitIn(view, r.layer, r.index, under) &&
      r.frame as int == LastKeyBelow(Col(keys, r.layer), f + 1) &&
      (forall l: nat, i: nat :: HitIn(view, l, i, under) ==> NotAfter(l, i, r))
  }

  predicate ValidRef(tl: Timeline, r: ObjRef)
    reads tl
  {
    r.frame < |tl.objectFrames| && r.layer < |tl.objectFrames[r.frame]| &&
    r.index < |tl.objectFrames[r.frame][r.layer]|
  }

  function At(tl: Timeline, r: ObjRef): SceneObject
    reads tl
    requires ValidRef(tl, r)
  {
    tl.objectFrames[r.frame][r.layer][r.index]
  }

  /** getObjectAtPosition: the first object under the pointer at the current
      frame, layers from the top and objects from the last; a hit makes its
      layer the active one. */
  method PickObject(tl: Timeline, p: Point, trig: Trig) returns (hit: Option<ObjRef>)
    requires tl.Valid()
    modifies tl
    ensures tl.Valid()
    ensures tl.layers == old(tl.layers) && tl.realFrames == old(tl.realFrames)
    ensures tl.objectFrames == old(tl.objectFrames) && tl.currentFrame == old(tl.currentFrame)
    ensures Picked(tl.realFrames, tl.objectFrames, |tl.layers|, tl.currentFrame, Under(p, trig), hit)
    ensures hit.Some? ==> ValidRef(tl, hit.value) && tl.activeLayer == hit.value.layer
    ensures hit.Some? ==> At(tl, hit.value)
                          == Exposed(tl.realFrames, tl.objectFrames, tl.currentFrame, hit.value.layer)[hit.value.index]
    ensures hit.None? ==> tl.activeLayer == old(tl.activeLayer)
  {
    hit := FindHit(tl, Under(p, trig));
    if hit.Some? {
      tl.activeLayer := hit.value.layer;
    }
  }

  /** The search loop of getObjectAtPosition, over layers from the top. */
  method FindHit(tl: Timeline, under: SceneObject -> bool) returns (hit: Option<ObjRef>)
    requires tl.Valid()
    ensures Picked(tl.realFrames, tl.objectFrames, |tl.layers|, tl.currentFrame, under, hit)
    ensures hit.Some? ==> ValidRef(tl, hit.value)
    ensures hit.Some? ==> At(tl, hit.value)
                          == Exposed(tl.realFrames, tl.objectFrames, tl.currentFrame, hit.value.layer)[hit.value.index]
  {
    var n, f := |tl.layers|, tl.currentFrame;
    ghost var view := FrameView(tl.realFrames, tl.objectFrames, n, f);
    var l := n;
    while l > 0
      invariant 0 <= l <= n
      invariant forall l': nat, i: nat :: l <= l' ==> !HitIn(view, l', i, under)
    {
      l := l - 1;
      var objs := tl.GetExposedObjectFrame(f, l);
      var i := LastHit(objs, under);
      if i >= 0 {
        var k := tl.FindPreviousReal(f + 1, l);
        hit := Some(ObjRef(k as nat, l, i as nat));
        return;
      }
    }
    hit := None;
  }

  /** The objects of one layer, from the last: the index of the last one
      under the pointer, or -1 when none is. */
  method LastHit(objs: Cell, under: SceneObject -> bool) returns (i: int)
    ensures -1 <= i < |objs|
    ensures i >= 0 ==> under(objs[i])
    ensures forall j :: i < j < |objs| ==> !under(objs[j])
  {
    i := |objs| - 1;
    while i >= 0 && !under(objs[i])
      invariant -1 <= i < |objs|
      invariant forall j :: i < j < |objs| ==> !under(objs[j])
    {
      i := i - 1;
    }
  }

  // ---------------------------------------------------------------
  // Handles
  // ---------------------------------------------------------------

  datatype Handle = RotateHandle | CornerHandle(corner: nat)

  /** Corner i of a box of visual size w by h centred on the pivot:
      top-left, top-right, bottom-right, bottom-left. */
  function Corner(w: real, h: real, i: nat): (c: Point)
    requires i < 4
  {
    if i == 0 then Point(-w / 2.0, -h / 2.0)
    else if i == 1 then Point(w / 2.0, -h / 2.0)
    else if i == 2 then Point(w / 2.0, h / 2.0)
    else Point(-w / 2.0, h / 2.0)
  }

  /** Opposite(c): the corner diagonally across from corner c. */
  function Opposite(c: nat): (o: nat)
    requires c < 4
    ensures o < 4
  {
    if c < 2 then c + 2 else c - 2
  }

  /** The opposite corner is the point reflection of the corner through the
      pivot, it is found by Opposite(c), and going across twice returns to
      the start. */
  lemma OppositeCorner(w: real, h: real, i: nat)
    requires i < 4
    ensures Corner(w, h, Opposite(i)) == Point(-Corner(w, h, i).x, -Corner(w, h, i).y)
    ensures Opposite(i) == (i + 2) % 4
    ensures Opposite(Opposite(i)) == i
  {
  }

  /** The pointer, in the handle frame, is on the rotate handle of a box of
      visual height h: within HandleSize of the point RotateDist above the
      top edge. */
  predicate OnRotate(q: Point, h: real)
  {
    WithinDist(Dist2(q.x, q.y, 0.0, -h / 2.0 - RotateDist), HandleSize)
  }

  /** The pointer is on corner i's square handle. */
  predicate OnCorner(q: Point, w: real, h: real, i: nat)
    requires i < 4
  {
    Abs(q.x - Corner(w, h, i).x) <= HandleSize && Abs(q.y - Corner(w, h, i).y) <= HandleSize
  }

  /** The box's visual size: its bounding box scaled. */
  function VisualW(o: SceneObject, t: Transform): real { BoundingBox(o).width * t.scaleX }
  function VisualH(o: SceneObject, t: Transform): real { BoundingBox(o).height * t.scaleY }

  /** h is the handle found under the pointer: the rotate handle is tested
      first, then the corners in order, and the first one that holds wins. */
  predicate IsHandle(o: SceneObject, p: Point, trig: Trig, h: Handle)
  {
    o.transform.Some? &&
    var t := o.transform.value;
    var q, w, ht := HandleFrame(p, t, trig), VisualW(o, t), VisualH(o, t);
    match h
    case RotateHandle => OnRotate(q, ht)
    case CornerHandle(i) =>
      i < 4 && !OnRotate(q, ht) && OnCorner(q, w, ht, i) && forall j :: 0 <= j < i ==> !OnCorner(q, w, ht, j)
  }

  /** No handle is under the pointer (or the object has no transform). */
  predicate NoHandle(o: SceneObject, p: Point, trig: Trig)
  {
    o.transform.Some? ==>
      var t := o.transform.value;
      var q, w, ht := HandleFrame(p, t, trig), VisualW(o, t), VisualH(o, t);
      !OnRotate(q, ht) && forall j :: 0 <= j < 4 ==> !OnCorner(q, w, ht, j)
  }

  /** getHandleUnderMouse. */
  method HandleUnderMouse(o: SceneObject, p: Point, trig: Trig) returns (h: Option<Handle>)
    ensures h.Some? ==> IsHandle(o, p, trig, h.value)
    ensures h.None? <==> NoHandle(o, p, trig)
  {
    if o.transform.None? {
      return None;
    }
    var t := o.transform.value;
    var w, ht := VisualW(o, t), VisualH(o, t);
    var q := HandleFrame(p, t, trig);
    if OnRotate(q, ht) {
      return Some(RotateHandle);
    }
    for i := 0 to 4
      invariant forall j :: 0 <= j < i ==> !OnCorner(q, w, ht, j)
    {
      if OnCorner(q, w, ht, i) {
        return Some(CornerHandle(i));
      }
    }
    return None;
  }

  /** Two handles under the pointer at once only happen on a small box:
      once the visual box is wider than 32 and taller than 16, the rotate
      circle and the four corner squares are pairwise apart, so the order
      in which they are tested does not matter. */
  lemma HandlesApart(q: Point, w: real, h: real, i: nat, j: nat)
    requires Abs(w) > 4.0 * HandleSize && Abs(h) > 2.0 * HandleSize && i < 4 && j < 4
    ensures OnCorner(q, w, h, i) && OnCorner(q, w, h, j) ==> i == j
    ensures !(OnRotate(q, h) && OnCorner(q, w, h, i))
  {
    if OnRotate(q, h) && OnCorner(q, w, h, i) {
      RotateBand(q, h);
      assert false;
    }
  }

  /** A point on the rotate handle lies within HandleSize of its centre on
      each axis. */
  lemma RotateBand(q: Point, h: real)
    requires OnRotate(q, h)
    ensures Abs(q.x) <= HandleSize && Abs(q.y + h / 2.0 + RotateDist) <= HandleSize
  {
    var dx, dy := q.x - 0.0, q.y - (-h / 2.0 - RotateDist);
    SqNonNeg(dx);
    SqNonNeg(dy);
    assert Sq(dx) == Sq(Abs(dx)) && Sq(dy) == Sq(Abs(dy));
    if Abs(dx) > HandleSize {
      SqGrows(Abs(dx), HandleSize);
    }
    if Abs(dy) > HandleSize {
      SqGrows(Abs(dy), HandleSize);
    }
  }

  lemma SqGrows(a: real, b: real)
    requires a > b >= 0.0
    ensures Sq(a) > Sq(b)
  {
    assert a * a > b * a >= b * b;
  }

  /** The pointer exactly on a corner of a box wider than 32 and taller than
      16 is on that corner's handle and on no other. */
  lemma PointerOnCorner(w: real, h: real, i: nat)
    requires Abs(w) > 4.0 * HandleSize && Abs(h) > 2.0 * HandleSize && i < 4
    ensures OnCorner(Corner(w, h, i), w, h, i)
    ensures !OnRotate(Corner(w, h, i), h)
    ensures forall j :: 0 <= j < 4 && j != i ==> !OnCorner(Corner(w, h, i), w, h, j)
  {
    var c := Corner(w, h, i);
    HandlesApart(c, w, h, i, i);
    forall j | 0 <= j < 4 && j != i
      ensures !OnCorner(c, w, h, j)
    {
      HandlesApart(c, w, h, i, j);
    }
  }

  // ---------------------------------------------------------------
  // Transform arithmetic
  // ---------------------------------------------------------------

  /** The transform an object gains when first selected: its box centre as
      the pivot, no rotation, unit scale. */
  function LazyTransform(o: SceneObject): (t: Transform)
    ensures t.rotation == 0.0 && t.scaleX == 1.0 && t.scaleY == 1.0
    ensures Point(t.x, t.y) == Point(BoundingBox(o).x, BoundingBox(o).y)
  {
    var b := BoundingBox(o);
    Transform(b.x, b.y, 0.0, 1.0, 1.0)
  }

  /** The pointer's offset from the pivot, kept at the start of a move. */
  function Offset(p: Point, t: Transform): Point
  {
    Point(p.x - t.x, p.y - t.y)
  }

  /** A move: the pivot is the pointer less the offset. */
  function Moved(t: Transform, p: Point, offset: Point): (r: Transform)
    ensures r.rotation == t.rotation && r.scaleX == t.scaleX && r.scaleY == t.scaleY
    ensures Point(r.x + offset.x, r.y + offset.y) == p
  {
    t.(x := p.x - offset.x, y := p.y - offset.y)
  }

  /** The pivot follows the pointer: it moves by exactly the pointer's
      displacement since the press, and a drag back to the press point
      restores the transform. */
  lemma MoveFollowsPointer(t: Transform, press: Point, p: Point)
    ensures Moved(t, p, Offset(press, t)) == t.(x := t.x + (p.x - press.x), y := t.y + (p.y - press.y))
    ensures Moved(t, press, Offset(press, t)) == t
  {
  }

  /** Math.round(r / step) * step: r rounded to the nearest multiple of step,
      halves upward. */
  function Snap(r: real, step: real): real
    requires step > 0.0
  {
    ((r / step + 0.5).Floor as real) * step
  }

  /** The snapped angle is a multiple of the step within half a step of the
      angle, and snapping again leaves it alone. */
  lemma SnapNearest(r: real, step: real)
    requires step > 0.0
    ensures Abs(Snap(r, step) - r) <= step / 2.0
    ensures Snap(Snap(r, step), step) == Snap(r, step)
  {
    var u := r / step;
    var k := (u + 0.5).Floor;
    assert k as real <= u + 0.5 < k as real + 1.0;
    assert r == u * step;
    var d := k as real - u;
    assert -0.5 < d <= 0.5;
    assert Snap(r, step) - r == d * step;
    assert Abs(d * step) <= 0.5 * step by {
      if d >= 0.0 { assert d * step <= 0.5 * step; } else { assert -d * step < 0.5 * step; }
    }
    assert Snap(r, step) == k as real * step;
    SnapMultiple(k, step);
  }

  /** A multiple of the step snaps to itself. */
  lemma SnapMultiple(k: int, step: real)
    requires step > 0.0
    ensures Snap(k as real * step, step) == k as real * step
  {
    var s := k as real * step;
    assert s / step == k as real;
    assert (k as real + 0.5).Floor == k;
  }

  /** A rotate drag: the rotation at the press plus the angle the pointer has
      swept about the pivot since, snapped to the step when Shift is held. */
  function Turned(t: Transform, angle: real, startAngle: real, startRotation: real, snap: bool, step: real): (r: Transform)
    requires step > 0.0
    ensures Point(r.x, r.y) == Point(t.x, t.y) && r.scaleX == t.scaleX && r.scaleY == t.scaleY
    ensures !snap ==> r.rotation - startRotation == angle - startAngle
    ensures snap ==> Abs(r.rotation - (startRotation + (angle - startAngle))) <= step / 2.0
  {
    var raw := startRotation + (angle - startAngle);
    SnapNearest(raw, step);
    t.(rotation := if snap then Snap(raw, step) else raw)
  }

  /** One axis of a resize: the new visual size is the pointer's distance
      q - opp from the opposite corner, at least MinSize, and the scale is
      that over the box dimension dim; a zero dimension keeps the scale. */
  function AxisScale(scale: real, dim: real, q: real, opp: real): real
  {
    if dim == 0.0 then scale else Max(MinSize, Abs(q - opp)) / dim
  }

  /** A resize from corner c, with q the pointer in the handle frame: each
      visual dimension becomes the pointer's distance from the opposite
      corner on that axis, at least MinSize. */
  function Resized(t: Transform, b: Box, q: Point, c: nat): (r: Transform)
    requires c < 4
    ensures Point(r.x, r.y) == Point(t.x, t.y) && r.rotation == t.rotation
    ensures r.scaleX == AxisScale(t.scaleX, b.width, q.x, Corner(b.width * t.scaleX, b.height * t.scaleY, Opposite(c)).x)
    ensures r.scaleY == AxisScale(t.scaleY, b.height, q.y, Corner(b.width * t.scaleX, b.height * t.scaleY, Opposite(c)).y)
  {
    var opp := Corner(b.width * t.scaleX, b.height * t.scaleY, Opposite(c));
    t.(scaleX := AxisScale(t.scaleX, b.width, q.x, opp.x), scaleY := AxisScale(t.scaleY, b.height, q.y, opp.y))
  }

  /** On one axis, a resize makes the visual size, dim times the new scale,
      the pointer's distance from the opposite corner, and never less than
      MinSize. */
  lemma AxisSize(scale: real, dim: real, q: real, opp: real)
    requires dim != 0.0
    ensures dim * AxisScale(scale, dim, q, opp) == Max(MinSize, Abs(q - opp)) >= MinSize
  {
  }

  /** One axis of a resize with the pointer exactly on a corner, measured
      from the corner across: the scale keeps its magnitude when the visual
      size v = dim * scale is at least MinSize. */
  lemma AxisAtCorner(scale: real, dim: real, v: real, half: real, opp: real)
    requires dim > 0.0 && v == dim * scale && Abs(v) >= MinSize
    requires (half == v / 2.0 || half == -v / 2.0) && opp == -half
    ensures AxisScale(scale, dim, half, opp) == Abs(scale)
  {
    assert Abs(half - opp) == Abs(v);
    assert Abs(v) == dim * Abs(scale);
  }

  /** Grabbing corner c and not moving keeps the size: on both axes, the
      pointer on the corner of a box of visual size w by h (each at least
      MinSize) gives back the magnitude of the scale, so a resize that has
      not moved changes nothing but a mirrored scale's sign. */
  lemma ResizeAtCornerKeepsSize(sx: real, bw: real, sy: real, bh: real, w: real, h: real, c: nat)
    requires c < 4 && bw > 0.0 && bh > 0.0 && w == bw * sx && h == bh * sy
    requires Abs(w) >= MinSize && Abs(h) >= MinSize
    ensures AxisScale(sx, bw, Corner(w, h, c).x, Corner(w, h, Opposite(c)).x) == Abs(sx)
    ensures AxisScale(sy, bh, Corner(w, h, c).y, Corner(w, h, Opposite(c)).y) == Abs(sy)
  {
    OppositeCorner(w, h, c);
    assert Corner(w, h, c).x == w / 2.0 || Corner(w, h, c).x == -w / 2.0;
    assert Corner(w, h, c).y == h / 2.0 || Corner(w, h, c).y == -h / 2.0;
    AxisAtCorner(sx, bw, w, Corner(w, h, c).x, Corner(w, h, Opposite(c)).x);
    AxisAtCorner(sy, bh, h, Corner(w, h, c).y, Corner(w, h, Opposite(c)).y);
  }

  // ---------------------------------------------------------------
  // The tool
  // ---------------------------------------------------------------

  datatype Action = Idle | Move | Rotate | Resize(corner: nat)

  /** The object as the transform tool holds it once selected: given the
      lazy transform when it has none, otherwise as it is. */
  function Selectable(o: SceneObject): (s: SceneObject)
    ensures s.transform.Some?
    ensures o.transform.Some? ==> s == o
    ensures o.transform.None? ==> s == o.(transform := Some(LazyTransform(o)))
  {
    if o.transform.Some? then o else o.(transform := Some(LazyTransform(o)))
  }

  function ActionOf(h: Handle): Action
  {
    match h
    case RotateHandle => Rotate
    case CornerHandle(c) => Resize(c)
  }

  /** The transform a drag gives the selected object, by the action in
      progress. */
  function Dragged(o: SceneObject, t: Transform, action: Action, p: Point, trig: Trig, atan2: Atan2,
                   offset: Point, startAngle: real, startRotation: real, snap: bool, step: real): Transform
    requires step > 0.0
  {
    match action
    case Idle => t
    case Move => Moved(t, p, offset)
    case Rotate => Turned(t, atan2(p.y - t.y, p.x - t.x), startAngle, startRotation, snap, step)
    case Resize(c) => if c < 4 then Resized(t, BoundingBox(o), HandleFrame(p, t, trig), c) else t
  }

  class TransformTool {
    /** The selected object, by where it is stored. */
    var selected: Option<ObjRef>
    var dragging: bool
    var action: Action
    var offset: Point
    var startAngle: real
    var startRotation: real
    /** A press has begun a gesture that no release has ended yet. */
    var drawing: bool

    constructor ()
      ensures selected.None? && !dragging && !drawing && action == Idle
    {
      selected := None;
      dragging := false;
      drawing := false;
      action := Idle;
      offset := Point(0.0, 0.0);
      startAngle := 0.0;
      startRotation := 0.0;
    }

    /** The first step of a press, given the selected object if there is
        one: a handle under the pointer starts a rotate or a resize; the
        handle taken is returned. */
    method GrabHandle(sel: Option<SceneObject>, p: Point, trig: Trig, atan2: Atan2) returns (h: Option<Handle>)
      modifies this
      ensures selected == old(selected)
      ensures h.Some? ==> sel.Some? && IsHandle(sel.value, p, trig, h.value)
      ensures h.None? ==> sel.None? || NoHandle(sel.value, p, trig)
      ensures h.None? ==> dragging == old(dragging) && action == old(action)
      ensures h.Some? ==> dragging && action == ActionOf(h.value)
      ensures h == Some(RotateHandle) ==>
                var t := sel.value.transform.value;
                startAngle == atan2(p.y - t.y, p.x - t.x) && startRotation == t.rotation
    {
      h := None;
      if sel.Some? {
        h := HandleUnderMouse(sel.value, p, trig);
        if h.Some? {
          var t := sel.value.transform.value;
          action := ActionOf(h.value);
          if h == Some(RotateHandle) {
            startAngle := atan2(p.y - t.y, p.x - t.x);
            startRotation := t.rotation;
          }
          dragging := true;
        }
      }
    }

    /** The rest of a press: the object under the pointer is selected, given
        a transform if it has none, and a move starts; with nothing under
        the pointer the selection is cleared. */
    method SelectAt(tl: Timeline, p: Point, trig: Trig)
      requires tl.Valid()
      modifies this, tl
      ensures tl.Valid()
      ensures tl.layers == old(tl.layers) && tl.realFrames == old(tl.realFrames)
      ensures tl.currentFrame == old(tl.currentFrame)
      ensures Picked(tl.realFrames, old(tl.objectFrames), |tl.layers|, tl.currentFrame, Under(p, trig), selected)
      ensures selected.None? ==>
                action == Idle && dragging == old(dragging) &&
                tl.objectFrames == old(tl.objectFrames) && tl.activeLayer == old(tl.activeLayer)
      ensures selected.Some? ==>
                var r := selected.value;
                old(ValidRef(tl, r)) && ValidRef(tl, r) && tl.activeLayer == r.layer && action == Move && dragging &&
                At(tl, r) == Selectable(old(At(tl, r))) &&
                tl.objectFrames == old(tl.objectFrames)[r.frame := old(tl.objectFrames)[r.frame][r.layer :=
                                     old(tl.objectFrames)[r.frame][r.layer][r.index := At(tl, r)]]] &&
                offset == Offset(p, At(tl, r).transform.value)
    {
      ghost var keys, cells := tl.realFrames, tl.objectFrames;
      var hit := PickObject(tl, p, trig);
      assert Picked(keys, cells, |tl.layers|, tl.currentFrame, Under(p, trig), hit);
      selected := hit;
      if hit.Some? {
        var r := hit.value;
        var o := At(tl, r);
        var moved := Selectable(o);
        tl.ReplaceObject(r.frame, r.layer, r.index, moved);
        action := Move;
        offset := Offset(p, moved.transform.value);
        dragging := true;
      } else {
        action := Idle;
      }
    }

    /** A press with the transform tool: the current cell becomes a keyframe,
        a press is pending, then a handle of the selected object is tried,
        and otherwise the object under the pointer is selected. */
    method Press(tl: Timeline, p: Point, trig: Trig, atan2: Atan2) returns (h: Option<Handle>)
      requires tl.Valid()
      modifies this, tl
      ensures tl.Valid()
      ensures tl.layers == old(tl.layers) && tl.currentFrame == old(tl.currentFrame)
      ensures tl.realFrames == Flag(old(tl.realFrames), tl.currentFrame, old(tl.activeLayer), true)
      ensures drawing
      ensures h.Some? <==> old(selected).Some? && old(ValidRef(tl, selected.value))
                           && !old(NoHandle(At(tl, selected.value), p, trig))
      ensures h.Some? ==>
                selected == old(selected) && IsHandle(old(At(tl, selected.value)), p, trig, h.value) &&
                dragging && action == ActionOf(h.value) &&
                tl.objectFrames == old(tl.objectFrames) && tl.activeLayer == old(tl.activeLayer)
      ensures h == Some(RotateHandle) ==>
                var t := old(At(tl, selected.value)).transform.value;
                startAngle == atan2(p.y - t.y, p.x - t.x) && startRotation == t.rotation
      ensures h.None? ==> Picked(tl.realFrames, old(tl.objectFrames), |tl.layers|, tl.currentFrame, Under(p, trig), selected)
      ensures h.None? && selected.None? ==>
                action == Idle && dragging == old(dragging) &&
                tl.objectFrames == old(tl.objectFrames) && tl.activeLayer == old(tl.activeLayer)
      ensures h.None? && selected.Some? ==>
                var r := selected.value;
                old(ValidRef(tl, r)) && ValidRef(tl, r) && tl.activeLayer == r.layer && action == Move && dragging &&
                At(tl, r) == Selectable(old(At(tl, r))) &&
                tl.objectFrames == old(tl.objectFrames)[r.frame := old(tl.objectFrames)[r.frame][r.layer :=
                                     old(tl.objectFrames)[r.frame][r.layer][r.index := At(tl, r)]]] &&
                offset == Offset(p, At(tl, r).transform.value)
    {
      tl.MarkCurrentKeyframe();
      h := Hold(tl, p, trig, atan2);
    }

    /** The rest of a press once the cell is flagged: the press becomes
        pending, and the handle of the selected object under the pointer is
        grabbed when there is one; otherwise the object under the pointer is
        selected. */
    method Hold(tl: Timeline, p: Point, trig: Trig, atan2: Atan2) returns (h: Option<Handle>)
      requires tl.Valid()
      modifies this, tl
      ensures tl.Valid()
      ensures tl.layers == old(tl.layers) && tl.currentFrame == old(tl.currentFrame)
      ensures tl.realFrames == old(tl.realFrames) && drawing
      ensures h.Some? <==> old(selected).Some? && old(ValidRef(tl, selected.value))
                           && !old(NoHandle(At(tl, selected.value), p, trig))
      ensures h.Some? ==>
                selected == old(selected) && IsHandle(old(At(tl, selected.value)), p, trig, h.value) &&
                dragging && action == ActionOf(h.value) &&
                tl.objectFrames == old(tl.objectFrames) && tl.activeLayer == old(tl.activeLayer)
      ensures h == Some(RotateHandle) ==>
                var t := old(At(tl, selected.value)).transform.value;
                startAngle == atan2(p.y - t.y, p.x - t.x) && startRotation == t.rotation
      ensures h.None? ==> Picked(tl.realFrames, old(tl.objectFrames), |tl.layers|, tl.currentFrame, Under(p, trig), selected)
      ensures h.None? && selected.None? ==>
                action == Idle && dragging == old(dragging) &&
                tl.objectFrames == old(tl.objectFrames) && tl.activeLayer == old(tl.activeLayer)
      ensures h.None? && selected.Some? ==>
                var r := selected.value;
                old(ValidRef(tl, r)) && ValidRef(tl, r) && tl.activeLayer == r.layer && action == Move && dragging &&
                At(tl, r) == Selectable(old(At(tl, r))) &&
                tl.objectFrames == old(tl.objectFrames)[r.frame := old(tl.objectFrames)[r.frame][r.layer :=
                                     old(tl.objectFrames)[r.frame][r.layer][r.index := At(tl, r)]]] &&
                offset == Offset(p, At(tl, r).transform.value)
    {
      var sel := if selected.Some? && ValidRef(tl, selected.value) then Some(At(tl, selected.value)) else None;
      h := GrabHandle(sel, p, trig, atan2);
      if h.None? {
        SelectAt(tl, p, trig);
      }
      drawing := true;
    }

    /** Pointer motion while dragging: the selected object's transform
        becomes the one the action in progress computes; the object stays
        where it is stored. Nothing happens when not dragging. */
    method Drag(tl: Timeline, p: Point, trig: Trig, atan2: Atan2, snap: bool, step: real)
      requires tl.Valid() && step > 0.0
      modifies tl
      ensures tl.Valid()
      ensures tl.layers == old(tl.layers) && tl.realFrames == old(tl.realFrames)
      ensures tl.currentFrame == old(tl.currentFrame) && tl.activeLayer == old(tl.activeLayer)
      ensures !(dragging && selected.Some? && old(ValidRef(tl, selected.value)) &&
                old(At(tl, selected.value)).transform.Some?) ==>
                tl.objectFrames == old(tl.objectFrames)
      ensures dragging && selected.Some? && old(ValidRef(tl, selected.value))
              && old(At(tl, selected.value)).transform.Some? ==>
                var r := selected.value;
                var o := old(At(tl, r));
                var t := Dragged(o, o.transform.value, action, p, trig, atan2, offset, startAngle, startRotation, snap, step);
                tl.objectFrames == old(tl.objectFrames)[r.frame := old(tl.objectFrames)[r.frame][r.layer :=
                                     old(tl.objectFrames)[r.frame][r.layer][r.index := o.(transform := Some(t))]]]
    {
      if dragging && selected.Some? && ValidRef(tl, selected.value) && At(tl, selected.value).transform.Some? {
        var r := selected.value;
        var o := At(tl, r);
        var t := Dragged(o, o.transform.value, action, p, trig, atan2, offset, startAngle, startRotation, snap, step);
        tl.ReplaceObject(r.frame, r.layer, r.index, o.(transform := Some(t)));
      }
    }

    /** Releasing the pointer saves the current cell as a keyframe,
        propagated, whenever a press is pending: after a drag, which it ends
        (leaving the press pending), or after a press that hit no handle and
        no object, which it closes. With neither, nothing happens. */
    method Release(tl: Timeline)
      requires tl.Valid()
      modifies this, tl
      ensures tl.Valid()
      ensures selected == old(selected) && !dragging
      ensures tl.layers == old(tl.layers) && tl.currentFrame == old(tl.currentFrame)
      ensures tl.activeLayer == old(tl.activeLayer)
      ensures old(dragging) ==> action == Idle && drawing == old(drawing)
      ensures !old(dragging) ==> action == old(action) && !drawing
      ensures !old(dragging) && !old(drawing) ==>
                tl.realFrames == old(tl.realFrames) && tl.objectFrames == old(tl.objectFrames)
      ensures old(dragging) || old(drawing) ==>
                tl.realFrames == Flag(old(tl.realFrames), tl.currentFrame, tl.activeLayer, true) &&
                Refilled(old(tl.objectFrames), tl.objectFrames, tl.activeLayer, tl.currentFrame,
                         NextKey(tl.realFrames, tl.currentFrame, tl.activeLayer),
                         old(tl.objectFrames[tl.currentFrame][tl.activeLayer])) &&
                ShowsRun(old(tl.realFrames), old(tl.objectFrames), tl.realFrames, tl.objectFrames, |tl.layers|,
                         tl.activeLayer, tl.currentFrame, NextKey(old(tl.realFrames), tl.currentFrame, tl.activeLayer),
                         old(tl.objectFrames[tl.currentFrame][tl.activeLayer]))
    {
      if dragging {
        dragging := false;
        action := Idle;
        tl.SaveFrame();
      } else if drawing {
        drawing := false;
        tl.SaveFrame();
      }
    }
  }
}
