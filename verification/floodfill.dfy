/** Object-based flood fill: a 4-connected region of equal colour is grown
    over a snapshot of the canvas pixels with an explicit stack and a visited
    bitmap, and the fill object records the region's bounding box. */
module FloodFill {
  import opened Geometry
  import opened Scene

  /** One pixel's channels, as read from the canvas. */
  datatype Rgba = Rgba(r: int, g: int, b: int, a: int)

  /** A canvas snapshot: pixels row by row, `width` pixels per row. */
  datatype Raster = Raster(width: nat, height: nat, data: seq<Rgba>)

  /** A pixel position (x, y). */
  type Pixel = (int, int)

  predicate WellFormed(img: Raster)
  {
    |img.data| == img.width * img.height
  }

  /** Position of pixel (x, y) in the row-by-row data; negative or past the
      end for some positions outside the picture. */
  function Index(width: int, q: Pixel): int
  {
    q.1 * width + q.0
  }

  predicate InBounds(img: Raster, q: Pixel)
  {
    0 <= q.0 < img.width && 0 <= q.1 < img.height
  }

  /** The colour stored at a data position; None past either end (the
      source then reads undefined channels, which equal no colour). */
  function PixelAt(img: Raster, i: int): (c: Option<Rgba>)
    ensures c.Some? <==> 0 <= i < |img.data|
  {
    if 0 <= i < |img.data| then Some(img.data[i]) else None
  }

  /** The pixel at (x, y) of a snapshot; rows are `img.width` long, so an x
      outside the row reads a pixel of a neighbouring row. */
  function GetPixel(img: Raster, q: Pixel): Option<Rgba>
  {
    PixelAt(img, Index(img.width, q))
  }

  /** Two pixels match when all four channels are equal. */
  predicate PixelMatch(a: Option<Rgba>, b: Option<Rgba>)
  {
    a == b
  }

  /** A channel value as the clamped byte array stores it. */
  function Byte(v: int): (b: int)
    ensures 0 <= b <= 255
    ensures 0 <= v <= 255 ==> b == v
  {
    if v < 0 then 0 else if v > 255 then 255 else v
  }

  /** Writing colour c, fully opaque, at (x, y) of a pixel buffer whose rows
      are `width` long; a write outside the buffer is dropped. */
  function SetPixel(data: seq<Rgba>, width: int, q: Pixel, c: Rgba): (r: seq<Rgba>)
    ensures |r| == |data|
  {
    var i := Index(width, q);
    if 0 <= i < |data| then data[i := Rgba(Byte(c.r), Byte(c.g), Byte(c.b), 255)] else data
  }

  /** Reading back after a write inside the picture: the written pixel holds
      the colour with alpha 255, every other pixel is unchanged. */
  lemma SetThenGet(img: Raster, q: Pixel, p: Pixel, c: Rgba)
    requires WellFormed(img) && InBounds(img, q) && InBounds(img, p)
    ensures GetPixel(img.(data := SetPixel(img.data, img.width, q, c)), p) ==
            if p == q then Some(Rgba(Byte(c.r), Byte(c.g), Byte(c.b), 255)) else GetPixel(img, p)
  {
    IndexInRange(img, q);
    IndexInRange(img, p);
    if p != q {
      IndexInjective(img, p, q);
    }
  }

  /** The pixel the fill starts from: the pointer position rounded down. */
  function StartPixel(start: Point): Pixel
  {
    (start.x.Floor, start.y.Floor)
  }

  /** The colour the region is grown over: whatever is stored at the start
      pixel's data position, even when that position wraps into another row. */
  function Target(img: Raster, start: Point): Option<Rgba>
  {
    GetPixel(img, StartPixel(start))
  }

  function East(q: Pixel): Pixel { (q.0 + 1, q.1) }
  function West(q: Pixel): Pixel { (q.0 - 1, q.1) }
  function South(q: Pixel): Pixel { (q.0, q.1 + 1) }
  function North(q: Pixel): Pixel { (q.0, q.1 - 1) }

  /** A pixel the fill may absorb: inside the picture and of the target colour. */
  predicate Absorbs(img: Raster, target: Option<Rgba>, q: Pixel)
  {
    InBounds(img, q) && PixelMatch(GetPixel(img, q), target)
  }

  /** The same test as a function value, so that the search reasoning does
      not look inside it. */
  function Absorbable(img: Raster, target: Option<Rgba>): (ok: Pixel -> bool)
    ensures forall q :: ok(q) == Absorbs(img, target, q)
  {
    q => Absorbs(img, target, q)
  }

  /** `q` is joined to `s` by a path of at most `n` steps between
      horizontally or vertically adjacent absorbable pixels. */
  ghost predicate ReachIn(ok: Pixel -> bool, s: Pixel, q: Pixel, n: nat)
    decreases n
  {
    ok(q) &&
    (q == s ||
     (n > 0 &&
      (ReachIn(ok, s, West(q), n - 1) || ReachIn(ok, s, East(q), n - 1) ||
       ReachIn(ok, s, North(q), n - 1) || ReachIn(ok, s, South(q), n - 1))))
  }

  /** The 4-connected region of the target colour around `s`. */
  ghost predicate Reachable(ok: Pixel -> bool, s: Pixel, q: Pixel)
  {
    exists n: nat :: ReachIn(ok, s, q, n)
  }

  /** Every pixel of the picture. */
  ghost function Pixels(img: Raster): set<Pixel>
  {
    set x: int, y: int | 0 <= x < img.width && 0 <= y < img.height :: (x, y)
  }

  lemma InPixels(img: Raster, q: Pixel)
    requires InBounds(img, q)
    ensures q in Pixels(img)
  {
    var x, y := q.0, q.1;
    assert (x, y) in Pixels(img);
  }

  /** The fill object's box is the tightest box around `region`. */
  predicate TightBox(o: SceneObject, region: set<Pixel>)
  {
    o.Fill? && o.width >= 1 && o.height >= 1 &&
    (forall q :: q in region ==>
       o.position.0 <= q.0 <= o.position.0 + o.width - 1 &&
       o.position.1 <= q.1 <= o.position.1 + o.height - 1) &&
    (exists q :: q in region && q.0 == o.position.0) &&
    (exists q :: q in region && q.0 == o.position.0 + o.width - 1) &&
    (exists q :: q in region && q.1 == o.position.1) &&
    (exists q :: q in region && q.1 == o.position.1 + o.height - 1)
  }

  lemma IndexInRange(img: Raster, q: Pixel)
    requires WellFormed(img) && InBounds(img, q)
    ensures 0 <= Index(img.width, q) < |img.data|
  {
    var w, h := img.width, img.height;
    assert q.1 * w + q.0 < (q.1 + 1) * w;
    MulMonotone(q.1 + 1, h, w);
  }

  lemma MulMonotone(a: int, b: int, c: nat)
    requires 0 <= a <= b
    ensures a * c <= b * c
  {
  }

  lemma IndexInjective(img: Raster, p: Pixel, q: Pixel)
    requires InBounds(img, p) && InBounds(img, q) && p != q
    ensures Index(img.width, p) != Index(img.width, q)
  {
    var w := img.width;
    if p.1 < q.1 {
      MulMonotone(p.1 + 1, q.1, w);
      assert p.1 * w + p.0 < (p.1 + 1) * w;
    } else if q.1 < p.1 {
      MulMonotone(q.1 + 1, p.1, w);
      assert q.1 * w + q.0 < (q.1 + 1) * w;
    }
  }

  /** A region that holds the start pixel and every absorbable neighbour of
      each of its pixels holds the whole 4-connected region. */
  lemma {:induction false} ClosedHoldsReach(ok: Pixel -> bool, s: Pixel, region: set<Pixel>, q: Pixel, n: nat)
    requires ok(s) ==> s in region
    requires forall r :: r in region ==>
               (ok(West(r)) ==> West(r) in region) &&
               (ok(East(r)) ==> East(r) in region) &&
               (ok(North(r)) ==> North(r) in region) &&
               (ok(South(r)) ==> South(r) in region)
    requires ReachIn(ok, s, q, n)
    ensures q in region
    decreases n
  {
    if q != s {
      if ReachIn(ok, s, West(q), n - 1) {
        ClosedHoldsReach(ok, s, region, West(q), n - 1);
        assert East(West(q)) == q;
      } else if ReachIn(ok, s, East(q), n - 1) {
        ClosedHoldsReach(ok, s, region, East(q), n - 1);
        assert West(East(q)) == q;
      } else if ReachIn(ok, s, North(q), n - 1) {
        ClosedHoldsReach(ok, s, region, North(q), n - 1);
        assert South(North(q)) == q;
      } else {
        ClosedHoldsReach(ok, s, region, South(q), n - 1);
        assert North(South(q)) == q;
      }
    }
  }

  /** A popped pixel is settled: absorbed, or one the fill never absorbs. */
  predicate Settled(ok: Pixel -> bool, q: Pixel, stack: seq<Pixel>, seen: map<Pixel, nat>)
  {
    q in stack || q in seen || !ok(q)
  }

  /** Every neighbour of an absorbed pixel is still waiting on the stack or settled. */
  ghost predicate Frontier(ok: Pixel -> bool, stack: seq<Pixel>, seen: map<Pixel, nat>)
  {
    forall r :: r in seen ==>
      Settled(ok, West(r), stack, seen) && Settled(ok, East(r), stack, seen) &&
      Settled(ok, North(r), stack, seen) && Settled(ok, South(r), stack, seen)
  }

  /** A stack entry is the start pixel or a neighbour of an absorbed pixel. */
  predicate Pushed(s: Pixel, q: Pixel, seen: map<Pixel, nat>)
  {
    q == s || West(q) in seen || East(q) in seen || North(q) in seen || South(q) in seen
  }

  /** What the search knows about the absorbed pixels (with the number of
      steps that join each to the start pixel) and the pending stack. */
  ghost predicate Search(ok: Pixel -> bool, s: Pixel, stack: seq<Pixel>, seen: map<Pixel, nat>)
  {
    (forall q :: q in seen ==> ReachIn(ok, s, q, seen[q])) &&
    (forall j :: 0 <= j < |stack| ==> Pushed(s, stack[j], seen)) &&
    Frontier(ok, stack, seen) &&
    (ok(s) ==> s in stack || s in seen)
  }

  /** The visited bitmap marks exactly the absorbed pixels. */
  ghost predicate Marks(img: Raster, visited: seq<bool>, seen: map<Pixel, nat>)
  {
    |visited| == |img.data| &&
    (forall q :: q in seen ==> InBounds(img, q)) &&
    forall q :: InBounds(img, q) ==>
      0 <= Index(img.width, q) < |visited| && (visited[Index(img.width, q)] <==> q in seen)
  }

  function IntMin(a: int, b: int): int { if a < b then a else b }
  function IntMax(a: int, b: int): int { if a > b then a else b }

  /** The running bounds minX, minY, maxX, maxY of the absorbed pixels. */
  datatype Extent = Extent(minX: int, minY: int, maxX: int, maxY: int)

  /** The bounds before anything is absorbed. */
  function InitialExtent(img: Raster): Extent
  {
    Extent(img.width, img.height, 0, 0)
  }

  /** The bounds after absorbing pixel q. */
  function Grow(ext: Extent, q: Pixel): (ext': Extent)
    ensures ext'.minX <= ext.minX && ext'.minY <= ext.minY && ext'.maxX >= ext.maxX && ext'.maxY >= ext.maxY
    ensures ext'.minX <= q.0 <= ext'.maxX && ext'.minY <= q.1 <= ext'.maxY
  {
    Extent(IntMin(ext.minX, q.0), IntMin(ext.minY, q.1), IntMax(ext.maxX, q.0), IntMax(ext.maxY, q.1))
  }

  /** The fill object built from the final bounds. */
  function FillObject(ext: Extent, color: string): SceneObject
  {
    Fill((ext.minX, ext.minY), ext.maxX - ext.minX + 1, ext.maxY - ext.minY + 1, color, 1.0, None)
  }

  /** Four absorbed pixels, one on each side of the bounds. */
  type Witnesses = (Pixel, Pixel, Pixel, Pixel)

  /** The running bounds: the starting values while nothing is absorbed,
      afterwards bounds of the absorbed pixels attained by the witnesses. */
  ghost predicate Bounds(img: Raster, region: set<Pixel>, ext: Extent, wit: Witnesses)
  {
    (region == {} ==> ext == InitialExtent(img)) &&
    (forall q :: q in region ==> ext.minX <= q.0 <= ext.maxX && ext.minY <= q.1 <= ext.maxY) &&
    (region != {} ==>
       wit.0 in region && wit.0.0 == ext.minX && wit.1 in region && wit.1.0 == ext.maxX &&
       wit.2 in region && wit.2.1 == ext.minY && wit.3 in region && wit.3.1 == ext.maxY)
  }

  /** Everything the fill loop keeps true between two pops. */
  ghost predicate Scan(img: Raster, target: Option<Rgba>, s: Pixel, visited: seq<bool>, stack: seq<Pixel>,
                       seen: map<Pixel, nat>, ext: Extent, wit: Witnesses)
  {
    Marks(img, visited, seen) && Search(Absorbable(img, target), s, stack, seen) &&
    Bounds(img, seen.Keys, ext, wit)
  }

  /** The flood fill of the object-based fill tool: None when the start pixel
      already has the fill colour; otherwise a fill object whose box is the
      tight box of the 4-connected region of the start pixel's colour. */
  method FloodFillObject(img: Raster, start: Point, color: string, fill: Rgba)
    returns (result: Option<SceneObject>, ghost region: set<Pixel>)
    requires WellFormed(img)
    ensures result.None? <==> Target(img, start) == Some(fill)
    ensures result.None? ==> region == {}
    ensures result.Some? ==>
              forall q :: q in region <==> Reachable(Absorbable(img, Target(img, start)), StartPixel(start), q)
    ensures result.Some? ==> (region != {} <==> InBounds(img, StartPixel(start)))
    ensures result.Some? ==>
              result.value.Fill? && result.value.color == color && result.value.opacity == 1.0 &&
              result.value.transform.None?
    ensures result.Some? && region != {} ==> TightBox(result.value, region)
    ensures result.Some? && region == {} ==>
              result.value.position == (img.width as int, img.height as int) &&
              result.value.width == 1 - img.width && result.value.height == 1 - img.height
  {
    var s := StartPixel(start);
    var stack := [s];
    var target := GetPixel(img, s);
    if PixelMatch(target, Some(fill)) {
      return None, {};
    }
    var ext := InitialExtent(img);
    var visited := new bool[img.width * img.height](_ => false);
    ghost var seen: map<Pixel, nat> := map[];
    ghost var wit := (s, s, s, s);
    ScanStart(img, target, s, visited[..]);
    while |stack| > 0
      invariant Scan(img, target, s, visited[..], stack, seen, ext, wit)
      decreases Pixels(img) - seen.Keys, |stack|
    {
      stack, ext, seen, wit := Visit(img, target, s, visited, stack, ext, seen, wit);
    }
    region := seen.Keys;
    ScanDone(img, start, visited[..], seen, ext, wit, color);
    result := Some(FillObject(ext, color));
  }

  /** Before the first pop: nothing visited, only the start pixel pending. */
  lemma ScanStart(img: Raster, target: Option<Rgba>, s: Pixel, visited: seq<bool>)
    requires WellFormed(img) && |visited| == |img.data|
    requires forall i :: 0 <= i < |visited| ==> !visited[i]
    ensures Scan(img, target, s, visited, [s], map[], InitialExtent(img), (s, s, s, s))
  {
    forall q | InBounds(img, q) ensures 0 <= Index(img.width, q) < |visited| {
      IndexInRange(img, q);
    }
  }

  /** One pop of the fill loop: a pixel outside the picture, already visited
      or of another colour is dropped; otherwise it is absorbed, marked,
      taken into the bounds, and its four neighbours are pushed. */
  method Visit(img: Raster, target: Option<Rgba>, ghost s: Pixel, visited: array<bool>, stack: seq<Pixel>,
               ext: Extent, ghost seen: map<Pixel, nat>, ghost wit: Witnesses)
    returns (stack': seq<Pixel>, ext': Extent, ghost seen': map<Pixel, nat>, ghost wit': Witnesses)
    requires WellFormed(img) && |stack| > 0
    requires Scan(img, target, s, visited[..], stack, seen, ext, wit)
    modifies visited
    ensures Scan(img, target, s, visited[..], stack', seen', ext', wit')
    ensures Pixels(img) - seen'.Keys < Pixels(img) - seen.Keys || (seen' == seen && |stack'| < |stack|)
  {
    var e := stack[|stack| - 1];
    var rest := stack[..|stack| - 1];
    stack', ext', seen', wit' := rest, ext, seen, wit;
    if 0 <= e.0 < img.width && 0 <= e.1 < img.height {
      var index := Index(img.width, e);
      Probe(img, target, visited, seen, e);
      if !visited[index] && PixelMatch(GetPixel(img, e), target) {
        ghost var marks := visited[..];
        ghost var d := AbsorbScan(img, target, s, marks, stack, seen, ext, wit, e);
        Shrinks(img, seen, e, d);
        visited[index] := true;
        assert visited[..] == marks[index := true];
        ext' := Grow(ext, e);
        seen', wit' := seen[e := d], GrowWitnesses(ext, wit, e);
        stack' := rest + [East(e), West(e), South(e), North(e)];
      } else {
        SkipScan(img, target, s, visited[..], stack, seen, ext, wit);
      }
    } else {
      SkipScan(img, target, s, visited[..], stack, seen, ext, wit);
    }
  }

  /** Absorbing the popped pixel keeps what the loop knows. */
  lemma AbsorbScan(img: Raster, target: Option<Rgba>, s: Pixel, visited: seq<bool>, stack: seq<Pixel>,
                   seen: map<Pixel, nat>, ext: Extent, wit: Witnesses, e: Pixel) returns (d: nat)
    requires WellFormed(img) && |stack| > 0 && Scan(img, target, s, visited, stack, seen, ext, wit)
    requires e == stack[|stack| - 1] && InBounds(img, e)
    requires e !in seen && Absorbs(img, target, e)
    ensures 0 <= Index(img.width, e) < |visited|
    ensures Scan(img, target, s, visited[Index(img.width, e) := true],
                 stack[..|stack| - 1] + [East(e), West(e), South(e), North(e)],
                 seen[e := d], Grow(ext, e), GrowWitnesses(ext, wit, e))
  {
    d := AbsorbStep(Absorbable(img, target), s, stack, seen);
    MarkStep(img, visited, seen, e, d);
    BoundsStep(img, seen.Keys, ext, wit, e);
    assert seen[e := d].Keys == seen.Keys + {e};
  }

  /** Absorbing a pixel of the picture leaves fewer pixels unabsorbed. */
  lemma Shrinks(img: Raster, seen: map<Pixel, nat>, e: Pixel, d: nat)
    requires InBounds(img, e) && e !in seen
    ensures Pixels(img) - seen[e := d].Keys < Pixels(img) - seen.Keys
  {
    assert seen[e := d].Keys == seen.Keys + {e};
    InPixels(img, e);
  }

  /** Dropping the popped pixel keeps what the loop knows. */
  lemma SkipScan(img: Raster, target: Option<Rgba>, s: Pixel, visited: seq<bool>, stack: seq<Pixel>,
                 seen: map<Pixel, nat>, ext: Extent, wit: Witnesses)
    requires |stack| > 0 && Scan(img, target, s, visited, stack, seen, ext, wit)
    requires stack[|stack| - 1] in seen || !Absorbs(img, target, stack[|stack| - 1])
    ensures Scan(img, target, s, visited, stack[..|stack| - 1], seen, ext, wit)
  {
    SkipStep(Absorbable(img, target), s, stack, seen);
  }

  /** When the stack is empty the absorbed pixels are exactly the region,
      and the bounds are tight. */
  lemma ScanDone(img: Raster, start: Point, visited: seq<bool>, seen: map<Pixel, nat>,
                 ext: Extent, wit: Witnesses, color: string)
    requires Scan(img, Target(img, start), StartPixel(start), visited, [], seen, ext, wit)
    ensures forall q :: q in seen.Keys <==> Reachable(Absorbable(img, Target(img, start)), StartPixel(start), q)
    ensures seen.Keys != {} <==> InBounds(img, StartPixel(start))
    ensures seen.Keys != {} ==> TightBox(FillObject(ext, color), seen.Keys)
    ensures seen.Keys == {} ==> ext == InitialExtent(img)
  {
    var s := StartPixel(start);
    var ok, region := Absorbable(img, Target(img, start)), seen.Keys;
    forall q | Reachable(ok, s, q) ensures q in region {
      var n: nat :| ReachIn(ok, s, q, n);
      ClosedHoldsReach(ok, s, region, q, n);
    }
    if region != {} {
      var q :| q in region;
      ReachNeedsStart(ok, s, q, seen[q]);
    }
  }

  /** The witnesses after absorbing pixel q. */
  ghost function GrowWitnesses(ext: Extent, wit: Witnesses, q: Pixel): Witnesses
  {
    (if q.0 <= ext.minX then q else wit.0, if q.0 >= ext.maxX then q else wit.1,
     if q.1 <= ext.minY then q else wit.2, if q.1 >= ext.maxY then q else wit.3)
  }

  /** What the loop reads at an in-picture pixel. */
  lemma Probe(img: Raster, target: Option<Rgba>, visited: array<bool>, seen: map<Pixel, nat>, e: Pixel)
    requires WellFormed(img) && Marks(img, visited[..], seen) && InBounds(img, e)
    ensures 0 <= Index(img.width, e) < visited.Length == |img.data|
    ensures (!visited[Index(img.width, e)] && PixelMatch(GetPixel(img, e), target)) <==>
            (e !in seen && Absorbs(img, target, e))
  {
    assert visited[Index(img.width, e)] == visited[..][Index(img.width, e)];
  }

  /** Popping a pixel that is already absorbed or cannot be absorbed. */
  lemma SkipStep(ok: Pixel -> bool, s: Pixel, stack: seq<Pixel>, seen: map<Pixel, nat>)
    requires |stack| > 0 && Search(ok, s, stack, seen)
    requires stack[|stack| - 1] in seen || !ok(stack[|stack| - 1])
    ensures Search(ok, s, stack[..|stack| - 1], seen)
  {
    var rest := stack[..|stack| - 1];
    forall j | 0 <= j < |rest| ensures Pushed(s, rest[j], seen) {
      assert rest[j] == stack[j];
    }
    PoppedFrontier(ok, s, stack, seen);
  }

  /** Dropping a settled pixel from the top of the stack keeps the frontier. */
  lemma PoppedFrontier(ok: Pixel -> bool, s: Pixel, stack: seq<Pixel>, seen: map<Pixel, nat>)
    requires |stack| > 0 && Frontier(ok, stack, seen) && (ok(s) ==> s in stack || s in seen)
    requires stack[|stack| - 1] in seen || !ok(stack[|stack| - 1])
    ensures Frontier(ok, stack[..|stack| - 1], seen) && (ok(s) ==> s in stack[..|stack| - 1] || s in seen)
  {
    var rest, e := stack[..|stack| - 1], stack[|stack| - 1];
    forall q | q in stack ensures q in rest || q == e {
      var j :| 0 <= j < |stack| && stack[j] == q;
      if j < |rest| {
        assert rest[j] == q;
      }
    }
    forall r | r in seen
      ensures Settled(ok, West(r), rest, seen) && Settled(ok, East(r), rest, seen) &&
              Settled(ok, North(r), rest, seen) && Settled(ok, South(r), rest, seen)
    {
      SettledKept(ok, West(r), stack, seen, rest, seen, e);
      SettledKept(ok, East(r), stack, seen, rest, seen, e);
      SettledKept(ok, North(r), stack, seen, rest, seen, e);
      SettledKept(ok, South(r), stack, seen, rest, seen, e);
    }
  }

  /** Absorbing a popped pixel and pushing its four neighbours; the result
      is the number of steps that join it to the start pixel. */
  lemma AbsorbStep(ok: Pixel -> bool, s: Pixel, stack: seq<Pixel>, seen: map<Pixel, nat>)
    returns (d: nat)
    requires |stack| > 0 && Search(ok, s, stack, seen)
    requires ok(stack[|stack| - 1]) && stack[|stack| - 1] !in seen
    ensures var e := stack[|stack| - 1];
            Search(ok, s, stack[..|stack| - 1] + [East(e), West(e), South(e), North(e)], seen[e := d])
  {
    var rest, e := stack[..|stack| - 1], stack[|stack| - 1];
    assert Pushed(s, stack[|stack| - 1], seen);
    d := AbsorbDepth(ok, s, e, seen);
    var stack', seen' := rest + [East(e), West(e), South(e), North(e)], seen[e := d];
    ReachKept(ok, s, seen, e, d, seen');
    forall j | 0 <= j < |stack'| ensures Pushed(s, stack'[j], seen') {
      if j < |rest| {
        assert rest[j] == stack[j];
      } else {
        assert West(East(e)) == e && East(West(e)) == e && North(South(e)) == e && South(North(e)) == e;
      }
    }
    PushedNeighbours(ok, s, stack, seen, d);
  }

  /** Recording the depth of a newly absorbed pixel keeps every recorded depth a witness. */
  lemma ReachKept(ok: Pixel -> bool, s: Pixel, seen: map<Pixel, nat>, e: Pixel, d: nat, seen': map<Pixel, nat>)
    requires forall q :: q in seen ==> ReachIn(ok, s, q, seen[q])
    requires ReachIn(ok, s, e, d) && seen' == seen[e := d]
    ensures forall q :: q in seen' ==> ReachIn(ok, s, q, seen'[q])
  {
    forall q | q in seen' ensures ReachIn(ok, s, q, seen'[q]) {
      if q != e {
        assert seen'[q] == seen[q];
      }
    }
  }

  /** Pushing the four neighbours of an absorbed pixel keeps the frontier. */
  lemma PushedNeighbours(ok: Pixel -> bool, s: Pixel, stack: seq<Pixel>, seen: map<Pixel, nat>, d: nat)
    requires |stack| > 0 && Frontier(ok, stack, seen)
    requires ok(s) ==> s in stack || s in seen
    ensures var e := stack[|stack| - 1];
            var stack', seen' := stack[..|stack| - 1] + [East(e), West(e), South(e), North(e)], seen[e := d];
            Frontier(ok, stack', seen') && (ok(s) ==> s in stack' || s in seen')
  {
    var rest, e := stack[..|stack| - 1], stack[|stack| - 1];
    var stack', seen' := rest + [East(e), West(e), South(e), North(e)], seen[e := d];
    forall q | q in stack ensures q in stack' || q == e {
      var j :| 0 <= j < |stack| && stack[j] == q;
      if j < |rest| {
        assert stack'[j] == q;
      }
    }
    assert East(e) in stack' && West(e) in stack' && South(e) in stack' && North(e) in stack' by {
      assert stack'[|rest|] == East(e) && stack'[|rest| + 1] == West(e);
      assert stack'[|rest| + 2] == South(e) && stack'[|rest| + 3] == North(e);
    }
    forall r | r in seen'
      ensures Settled(ok, West(r), stack', seen') && Settled(ok, East(r), stack', seen') &&
              Settled(ok, North(r), stack', seen') && Settled(ok, South(r), stack', seen')
    {
      if r != e {
        SettledKept(ok, West(r), stack, seen, stack', seen', e);
        SettledKept(ok, East(r), stack, seen, stack', seen', e);
        SettledKept(ok, North(r), stack, seen, stack', seen', e);
        SettledKept(ok, South(r), stack, seen, stack', seen', e);
      }
    }
  }

  /** A settled pixel stays settled when the popped pixel is absorbed. */
  lemma SettledKept(ok: Pixel -> bool, n: Pixel, stack: seq<Pixel>, seen: map<Pixel, nat>,
                    stack': seq<Pixel>, seen': map<Pixel, nat>, e: Pixel)
    requires Settled(ok, n, stack, seen)
    requires n in stack ==> n in stack' || n == e
    requires (e in seen' || !ok(e)) && seen.Keys <= seen'.Keys
    ensures Settled(ok, n, stack', seen')
  {
  }

  /** Marking a newly absorbed pixel in the bitmap. */
  lemma MarkStep(img: Raster, visited: seq<bool>, seen: map<Pixel, nat>, e: Pixel, d: nat)
    requires WellFormed(img) && Marks(img, visited, seen)
    requires InBounds(img, e) && e !in seen
    ensures 0 <= Index(img.width, e) < |visited|
    ensures Marks(img, visited[Index(img.width, e) := true], seen[e := d])
  {
    forall q | InBounds(img, q) && q != e ensures Index(img.width, q) != Index(img.width, e) {
      IndexInjective(img, q, e);
    }
  }

  /** Taking one more in-picture pixel into the running bounds. */
  lemma BoundsStep(img: Raster, region: set<Pixel>, ext: Extent, wit: Witnesses, e: Pixel)
    requires Bounds(img, region, ext, wit) && InBounds(img, e)
    ensures Bounds(img, region + {e}, Grow(ext, e), GrowWitnesses(ext, wit, e))
  {
  }

  /** How many steps join a freshly absorbed pixel to the start pixel. */
  lemma AbsorbDepth(ok: Pixel -> bool, s: Pixel, e: Pixel, seen: map<Pixel, nat>)
    returns (d: nat)
    requires ok(e) && Pushed(s, e, seen)
    requires forall q :: q in seen ==> ReachIn(ok, s, q, seen[q])
    ensures ReachIn(ok, s, e, d)
  {
    if e == s {
      d := 0;
    } else if West(e) in seen {
      d := seen[West(e)] + 1;
    } else if East(e) in seen {
      d := seen[East(e)] + 1;
    } else if North(e) in seen {
      d := seen[North(e)] + 1;
    } else {
      d := seen[South(e)] + 1;
    }
  }

  lemma {:induction false} ReachNeedsStart(ok: Pixel -> bool, s: Pixel, q: Pixel, n: nat)
    requires ReachIn(ok, s, q, n)
    ensures ok(s)
    decreases n
  {
    if q != s {
      if ReachIn(ok, s, West(q), n - 1) {
        ReachNeedsStart(ok, s, West(q), n - 1);
      } else if ReachIn(ok, s, East(q), n - 1) {
        ReachNeedsStart(ok, s, East(q), n - 1);
      } else if ReachIn(ok, s, North(q), n - 1) {
        ReachNeedsStart(ok, s, North(q), n - 1);
      } else {
        ReachNeedsStart(ok, s, South(q), n - 1);
      }
    }
  }
}
