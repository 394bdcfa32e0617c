/** The keyframe store. Two [frame][layer] matrices hold the animation: a
    keyframe flag per cell and an object list per cell. A frame that is not a
    keyframe on a layer shows the list of the nearest keyframe at or before
    it; edits copy a keyframe's list forward into the cells it covers. */
module Exposure {
  import opened Scene
  import Eraser

  /** The object list of one cell. */
  type Cell = seq<SceneObject>

  // ---------------------------------------------------------------
  // One layer: a column of flags and a column of lists
  // ---------------------------------------------------------------

  /** The greatest keyframe index below f, or -1 when there is none. */
  function LastKeyBelow(keys: seq<bool>, f: nat): (k: int)
    requires f <= |keys|
    ensures -1 <= k < f
    ensures k >= 0 ==> keys[k]
    ensures forall i :: k < i < f ==> !keys[i]
    decreases f
  {
    if f == 0 then -1
    else if keys[f - 1] then f - 1
    else LastKeyBelow(keys, f - 1)
  }

  /** The first keyframe index at or after `from`, or the row count when
      there is none. */
  function FirstKeyFrom(keys: seq<bool>, from: nat): (k: nat)
    requires from <= |keys|
    ensures from <= k <= |keys|
    ensures k < |keys| ==> keys[k]
    ensures forall i :: from <= i < k ==> !keys[i]
    decreases |keys| - from
  {
    if from == |keys| then from
    else if keys[from] then from
    else FirstKeyFrom(keys, from + 1)
  }

  /** What frame f shows: the list of the greatest keyframe at or before f,
      or nothing. */
  function Shown(keys: seq<bool>, cells: seq<Cell>, f: nat): Cell
    requires f < |keys| == |cells|
  {
    var k := LastKeyBelow(keys, f + 1);
    if k < 0 then [] else cells[k]
  }

  /** The column with frames [from, to) set to src. */
  function Replace(cells: seq<Cell>, from: int, to: int, src: Cell): (r: seq<Cell>)
    ensures |r| == |cells|
    ensures forall i :: 0 <= i < |r| ==> r[i] == if from <= i < to then src else cells[i]
  {
    seq(|cells|, i requires 0 <= i < |cells| => if from <= i < to then src else cells[i])
  }

  /** The backward scan's answer is fixed by its characterisation. */
  lemma LastKeyIs(keys: seq<bool>, f: nat, k: int)
    requires f <= |keys|
    requires -1 <= k < f && (k >= 0 ==> keys[k])
    requires forall i :: k < i < f ==> !keys[i]
    ensures LastKeyBelow(keys, f) == k
  {
  }

  /** The forward scan's answer is fixed by its characterisation. */
  lemma FirstKeyIs(keys: seq<bool>, from: nat, k: nat)
    requires from <= |keys|
    requires from <= k <= |keys| && (k < |keys| ==> keys[k])
    requires forall i :: from <= i < k ==> !keys[i]
    ensures FirstKeyFrom(keys, from) == k
  {
  }

  /** Setting the flag of frame s moves no keyframe after s. */
  lemma FirstKeyAfterSet(keys: seq<bool>, s: nat, b: bool)
    requires s < |keys|
    ensures FirstKeyFrom(keys[s := b], s + 1) == FirstKeyFrom(keys, s + 1)
  {
    FirstKeyIs(keys[s := b], s + 1, FirstKeyFrom(keys, s + 1));
  }

  /** A run refilled from keyframe s up to the next keyframe shows src;
      every other frame shows what it showed. */
  lemma RunShown(keys: seq<bool>, cells: seq<Cell>, s: nat, src: Cell, f: nat)
    requires f < |keys| == |cells| && s < |keys| && keys[s]
    ensures Shown(keys, Replace(cells, s, FirstKeyFrom(keys, s + 1), src), f)
            == if s <= f < FirstKeyFrom(keys, s + 1) then src else Shown(keys, cells, f)
  {
    var K := FirstKeyFrom(keys, s + 1);
    var k := LastKeyBelow(keys, f + 1);
    if s <= f < K {
      LastKeyIs(keys, f + 1, s);
    } else if f >= K {
      assert keys[K];
      assert K <= k;
    }
  }

  /** Flagging frame s makes the frames from s up to the next keyframe show
      s's own list; every other frame shows what it showed. */
  lemma FlagShown(keys: seq<bool>, cells: seq<Cell>, s: nat, f: nat)
    requires f < |keys| == |cells| && s < |keys|
    ensures Shown(keys[s := true], cells, f)
            == if s <= f < FirstKeyFrom(keys, s + 1) then cells[s] else Shown(keys, cells, f)
  {
    var K := FirstKeyFrom(keys, s + 1);
    var k := LastKeyBelow(keys, f + 1);
    if s <= f < K {
      LastKeyIs(keys[s := true], f + 1, s);
    } else if f < s {
      LastKeyIs(keys[s := true], f + 1, k);
    } else {
      assert keys[K];
      assert K <= k;
      LastKeyIs(keys[s := true], f + 1, k);
    }
  }

  /** With frame s unflagged, frames from s up to the next keyframe fall
      back to the keyframe before s. */
  lemma UnflagInside(keys: seq<bool>, s: nat, f: nat)
    requires f < |keys| && s <= f < FirstKeyFrom(keys, s + 1)
    ensures LastKeyBelow(keys[s := false], f + 1) == LastKeyBelow(keys, s)
  {
    LastKeyIs(keys[s := false], f + 1, LastKeyBelow(keys, s));
  }

  /** Frames before s, or from the next keyframe on, fall back where they
      did, to a keyframe other than s. */
  lemma UnflagOutside(keys: seq<bool>, s: nat, f: nat)
    requires s < |keys| && f < |keys| && (f < s || FirstKeyFrom(keys, s + 1) <= f)
    ensures LastKeyBelow(keys[s := false], f + 1) == LastKeyBelow(keys, f + 1)
    ensures f < s ==> LastKeyBelow(keys, f + 1) < s
    ensures f >= s ==> LastKeyBelow(keys, f + 1) >= FirstKeyFrom(keys, s + 1)
  {
    var k := LastKeyBelow(keys, f + 1);
    if f >= s {
      var K := FirstKeyFrom(keys, s + 1);
      assert keys[K];
      assert K <= k;
    }
    LastKeyIs(keys[s := false], f + 1, k);
  }

  /** Unflagging frame s and refilling its run with the previous keyframe's
      list (or emptying s alone when there is none): the run shows the
      previous keyframe's list, or nothing; every other frame shows what it
      showed. */
  lemma UnflagShown(keys: seq<bool>, cells: seq<Cell>, after: seq<Cell>, s: nat, f: nat)
    requires f < |keys| == |cells| && s < |keys|
    requires LastKeyBelow(keys, s) >= 0 ==>
               after == Replace(cells, s, FirstKeyFrom(keys, s + 1), cells[LastKeyBelow(keys, s)])
    requires LastKeyBelow(keys, s) < 0 ==> after == Replace(cells, s, s + 1, [])
    ensures Shown(keys[s := false], after, f)
            == if s <= f < FirstKeyFrom(keys, s + 1) then
                 (if LastKeyBelow(keys, s) >= 0 then cells[LastKeyBelow(keys, s)] else [])
               else Shown(keys, cells, f)
  {
    if s <= f < FirstKeyFrom(keys, s + 1) {
      UnflagInside(keys, s, f);
    } else {
      UnflagOutside(keys, s, f);
    }
  }

  // ---------------------------------------------------------------
  // The [frame][layer] matrices
  // ---------------------------------------------------------------

  /** Both matrices have the same rows, each with one entry per layer. */
  predicate Grid(keys: seq<seq<bool>>, cells: seq<seq<Cell>>, n: nat)
  {
    |keys| == |cells| &&
    (forall i :: 0 <= i < |keys| ==> |keys[i]| == n) &&
    (forall i :: 0 <= i < |cells| ==> |cells[i]| == n)
  }

  /** Every row of the matrix has an entry for layer l. */
  predicate Covers<T>(m: seq<seq<T>>, l: nat)
  {
    forall i :: 0 <= i < |m| ==> l < |m[i]|
  }

  /** Layer l of the matrix, frame by frame. */
  function Col<T>(m: seq<seq<T>>, l: nat): (c: seq<T>)
    requires Covers(m, l)
    ensures |c| == |m| && forall i :: 0 <= i < |m| ==> c[i] == m[i][l]
  {
    seq(|m|, i requires 0 <= i < |m| => m[i][l])
  }

  /** The flag matrix with cell (s, l) set to b. */
  function Flag(keys: seq<seq<bool>>, s: nat, l: nat, b: bool): seq<seq<bool>>
    requires s < |keys| && l < |keys[s]|
  {
    keys[s := keys[s][l := b]]
  }

  /** Flagging a cell changes its own layer's column at that frame only. */
  lemma ColFlag(keys: seq<seq<bool>>, s: nat, l: nat, b: bool, m: nat)
    requires s < |keys| && Covers(keys, l) && Covers(keys, m)
    ensures Covers(Flag(keys, s, l, b), m)
    ensures Col(Flag(keys, s, l, b), m) == if m == l then Col(keys, l)[s := b] else Col(keys, m)
  {
  }

  /** What frame f shows on layer l (getExposedObjectFrame's answer). */
  function Exposed(keys: seq<seq<bool>>, cells: seq<seq<Cell>>, f: nat, l: nat): Cell
    requires f < |keys| == |cells| && Covers(keys, l) && Covers(cells, l)
  {
    Shown(Col(keys, l), Col(cells, l), f)
  }

  /** The frame after s at which layer l's next keyframe sits, or the row count. */
  function NextKey(keys: seq<seq<bool>>, s: nat, l: nat): nat
    requires s < |keys| && Covers(keys, l)
  {
    FirstKeyFrom(Col(keys, l), s + 1)
  }

  /** `after` is `before` with the cells of layer l in frames [from, to) set
      to src, and every other cell as it was. */
  ghost predicate Refilled(before: seq<seq<Cell>>, after: seq<seq<Cell>>, l: nat, from: int, to: int, src: Cell)
  {
    |after| == |before| &&
    (forall i :: 0 <= i < |before| ==> |after[i]| == |before[i]|) &&
    (forall i, m :: 0 <= i < |before| && 0 <= m < |before[i]| ==>
       after[i][m] == if m == l && from <= i < to then src else before[i][m])
  }

  /** Refilling a longer run over a shorter one from the same frame. */
  lemma RefillCompose(a: seq<seq<Cell>>, b: seq<seq<Cell>>, c: seq<seq<Cell>>, l: nat,
                      s: int, t1: int, t2: int, x: Cell, y: Cell)
    requires t1 <= t2
    requires Refilled(a, b, l, s, t1, x) && Refilled(b, c, l, s, t2, y)
    ensures Refilled(a, c, l, s, t2, y)
  {
  }

  /** Flagging a cell and setting its list keeps the matrices' shape. */
  lemma EditGrid(keys: seq<seq<bool>>, cells: seq<seq<Cell>>, n: nat, s: nat, l: nat, b: bool, v: Cell)
    requires Grid(keys, cells, n) && s < |keys| && l < n
    ensures Grid(Flag(keys, s, l, b), cells[s := cells[s][l := v]], n)
  {
  }

  /** Setting one cell is a refill of a one-frame run. */
  lemma RefillOne(cells: seq<seq<Cell>>, s: nat, l: nat, v: Cell)
    requires s < |cells| && l < |cells[s]|
    ensures Refilled(cells, cells[s := cells[s][l := v]], l, s, s + 1, v)
  {
  }

  /** A refill seen one layer at a time. */
  lemma ColRefilled(before: seq<seq<Cell>>, after: seq<seq<Cell>>, n: nat, l: nat,
                    from: int, to: int, src: Cell, m: nat)
    requires (forall i :: 0 <= i < |before| ==> |before[i]| == n) && m < n
    requires Refilled(before, after, l, from, to, src)
    ensures Covers(before, m) && Covers(after, m)
    ensures Col(after, m) == if m == l then Replace(Col(before, l), from, to, src) else Col(before, m)
  {
  }

  /** One layer of a keyframe edit at s: flag s and refill its run with
      src. The run shows src; every other frame shows what it showed. */
  lemma KeyEditShown(keys: seq<bool>, cells: seq<Cell>, s: nat, src: Cell, f: nat)
    requires f < |keys| == |cells| && s < |keys|
    ensures Shown(keys[s := true], Replace(cells, s, FirstKeyFrom(keys[s := true], s + 1), src), f)
            == if s <= f < FirstKeyFrom(keys, s + 1) then src else Shown(keys, cells, f)
  {
    FirstKeyAfterSet(keys, s, true);
    RunShown(keys[s := true], cells, s, src, f);
    FlagShown(keys, cells, s, f);
  }

  /** Flagging a cell and refilling its run, seen one layer at a time. */
  lemma KeyEditCols(keys: seq<seq<bool>>, before: seq<seq<Cell>>, after: seq<seq<Cell>>, n: nat,
                    s: nat, l: nat, src: Cell, m: nat)
    requires Grid(keys, before, n) && l < n && m < n && s < |keys|
    requires Refilled(before, after, l, s, NextKey(Flag(keys, s, l, true), s, l), src)
    ensures Grid(Flag(keys, s, l, true), after, n)
    ensures Col(Flag(keys, s, l, true), m) == if m == l then Col(keys, l)[s := true] else Col(keys, m)
    ensures Col(after, m) == if m == l then Replace(Col(before, l), s, FirstKeyFrom(Col(keys, l)[s := true], s + 1), src)
                             else Col(before, m)
  {
    ColFlag(keys, s, l, true, m);
    ColFlag(keys, s, l, true, l);
    ColRefilled(before, after, n, l, s, NextKey(Flag(keys, s, l, true), s, l), src, m);
  }

  /** A keyframe edit at (s, l) flags the cell and refills its run with src:
      the frames of the run show src on layer l, and every other frame and
      layer shows what it showed. This is saveFrame, overwriteFrameBlank,
      overwriteFrameDuplicate and a commit. */
  lemma KeyEditExposure(keys: seq<seq<bool>>, before: seq<seq<Cell>>, after: seq<seq<Cell>>, n: nat,
                        s: nat, l: nat, src: Cell, f: nat, m: nat)
    requires Grid(keys, before, n) && l < n && m < n && s < |keys| && f < |keys|
    requires Refilled(before, after, l, s, NextKey(Flag(keys, s, l, true), s, l), src)
    ensures Grid(Flag(keys, s, l, true), after, n)
    ensures Exposed(Flag(keys, s, l, true), after, f, m)
            == if m == l && s <= f < NextKey(keys, s, l) then src else Exposed(keys, before, f, m)
  {
    KeyEditCols(keys, before, after, n, s, l, src, m);
    if m == l {
      KeyEditShown(Col(keys, l), Col(before, l), s, src, f);
    }
  }

  /** Propagating a keyframe's own list changes what no frame shows. */
  lemma PropagationKeepsExposure(keys: seq<seq<bool>>, before: seq<seq<Cell>>, after: seq<seq<Cell>>, n: nat,
                                 s: nat, l: nat, f: nat, m: nat)
    requires Grid(keys, before, n) && l < n && m < n && s < |keys| && f < |keys|
    requires keys[s][l]
    requires Refilled(before, after, l, s, NextKey(keys, s, l), before[s][l])
    ensures Grid(keys, after, n)
    ensures Exposed(keys, after, f, m) == Exposed(keys, before, f, m)
  {
    ColRefilled(before, after, n, l, s, NextKey(keys, s, l), before[s][l], m);
    if m == l {
      var col := Col(keys, l);
      RunShown(col, Col(before, l), s, before[s][l], f);
      if s <= f < NextKey(keys, s, l) {
        LastKeyIs(col, f + 1, s);
      }
    }
  }

  /** One layer of a duplicate into a frame that is not a keyframe: the
      copied list is the one the run already showed. */
  lemma DuplicateShown(keys: seq<bool>, cells: seq<Cell>, s: nat, f: nat)
    requires f < |keys| == |cells| && s < |keys| && !keys[s] && LastKeyBelow(keys, s) >= 0
    ensures Shown(keys[s := true], Replace(cells, s, FirstKeyFrom(keys[s := true], s + 1), cells[LastKeyBelow(keys, s)]), f)
            == Shown(keys, cells, f)
  {
    var p := LastKeyBelow(keys, s);
    KeyEditShown(keys, cells, s, cells[p], f);
    if s <= f < FirstKeyFrom(keys, s + 1) {
      LastKeyIs(keys, f + 1, p);
    }
  }

  /** Duplicating the previous keyframe into a cell that is not a keyframe
      changes what no frame shows. */
  lemma DuplicateOfExposedIsInvisible(keys: seq<seq<bool>>, before: seq<seq<Cell>>, after: seq<seq<Cell>>,
                                      n: nat, s: nat, l: nat, f: nat, m: nat)
    requires Grid(keys, before, n) && l < n && m < n && s < |keys| && f < |keys|
    requires !keys[s][l] && LastKeyBelow(Col(keys, l), s) >= 0
    requires Refilled(before, after, l, s, NextKey(Flag(keys, s, l, true), s, l),
                      before[LastKeyBelow(Col(keys, l), s)][l])
    ensures Grid(Flag(keys, s, l, true), after, n)
    ensures Exposed(Flag(keys, s, l, true), after, f, m) == Exposed(keys, before, f, m)
  {
    KeyEditCols(keys, before, after, n, s, l, before[LastKeyBelow(Col(keys, l), s)][l], m);
    if m == l {
      DuplicateShown(Col(keys, l), Col(before, l), s, f);
    }
  }

  /** Deleting keyframe (s, l): the frames it covered show the previous
      keyframe's list, or nothing when there is no previous keyframe; every
      other frame and layer shows what it showed. */
  lemma DeleteExposure(keys: seq<seq<bool>>, before: seq<seq<Cell>>, after: seq<seq<Cell>>, n: nat,
                       s: nat, l: nat, f: nat, m: nat)
    requires Grid(keys, before, n) && l < n && m < n && s < |keys| && f < |keys|
    requires LastKeyBelow(Col(keys, l), s) >= 0 ==>
      Refilled(before, after, l, s, NextKey(keys, s, l), before[LastKeyBelow(Col(keys, l), s)][l])
    requires LastKeyBelow(Col(keys, l), s) < 0 ==> Refilled(before, after, l, s, s + 1, [])
    ensures Grid(Flag(keys, s, l, false), after, n)
    ensures Exposed(Flag(keys, s, l, false), after, f, m)
            == if m == l && s <= f < NextKey(keys, s, l) then
                 (if LastKeyBelow(Col(keys, l), s) >= 0 then before[LastKeyBelow(Col(keys, l), s)][l] else [])
               else Exposed(keys, before, f, m)
  {
    var col := Col(keys, l);
    var p := LastKeyBelow(col, s);
    ColFlag(keys, s, l, false, m);
    if p >= 0 {
      ColRefilled(before, after, n, l, s, NextKey(keys, s, l), before[p][l], m);
    } else {
      ColRefilled(before, after, n, l, s, s + 1, [], m);
    }
    if m == l {
      UnflagShown(col, Col(before, l), Col(after, l), s, f);
    }
  }


  /** Flagging cell (s, l) alone, as every canvas press does: the frames
      from s up to the next keyframe show the cell's own list, whatever they
      showed before; every other frame and layer is unchanged. */
  lemma FlagExposure(keys: seq<seq<bool>>, cells: seq<seq<Cell>>, n: nat, s: nat, l: nat, f: nat, m: nat)
    requires Grid(keys, cells, n) && l < n && m < n && s < |keys| && f < |keys|
    ensures Grid(Flag(keys, s, l, true), cells, n)
    ensures Exposed(Flag(keys, s, l, true), cells, f, m)
            == if m == l && s <= f < NextKey(keys, s, l) then cells[s][l] else Exposed(keys, cells, f, m)
  {
    ColFlag(keys, s, l, true, m);
    if m == l {
      FlagShown(Col(keys, l), Col(cells, l), s, f);
    }
  }

  /** One layer after a length change: kept frames show what they showed,
      and added frames, which hold no keyframe, show what the old last
      frame showed. */
  lemma ShownResized(keys: seq<bool>, cells: seq<Cell>, keys': seq<bool>, cells': seq<Cell>, f: nat)
    requires |keys| == |cells| >= 1 && |keys'| == |cells'| && f < |keys'|
    requires forall i :: 0 <= i < |keys| && i < |keys'| ==> keys'[i] == keys[i] && cells'[i] == cells[i]
    requires forall i :: |keys| <= i < |keys'| ==> !keys'[i]
    ensures Shown(keys', cells', f) == Shown(keys, cells, if f < |keys| then f else |keys| - 1)
  {
    var g := if f < |keys| then f else |keys| - 1;
    var k := LastKeyBelow(keys, g + 1);
    LastKeyIs(keys', f + 1, k);
  }

  /** A timeline-length change: kept frames show what they showed, and added
      frames show what the old last frame showed. */
  lemma LengthChangeExposure(keys: seq<seq<bool>>, cells: seq<seq<Cell>>, keys': seq<seq<bool>>, cells': seq<seq<Cell>>,
                             n: nat, f: nat, m: nat)
    requires Grid(keys, cells, n) && Grid(keys', cells', n) && |keys| >= 1 && m < n && f < |keys'|
    requires forall i :: 0 <= i < |keys| && i < |keys'| ==> keys'[i] == keys[i] && cells'[i] == cells[i]
    requires forall i :: |keys| <= i < |keys'| ==> keys'[i] == FalseRow(n)
    ensures Exposed(keys', cells', f, m) == Exposed(keys, cells, if f < |keys| then f else |keys| - 1, m)
  {
    ShownResized(Col(keys, m), Col(cells, m), Col(keys', m), Col(cells', m), f);
  }

  /** Adding a layer: the existing layers show what they showed, and the new
      layer shows nothing at any frame. */
  lemma AddLayerExposure(keys: seq<seq<bool>>, cells: seq<seq<Cell>>, keys': seq<seq<bool>>, cells': seq<seq<Cell>>,
                         n: nat, f: nat, m: nat)
    requires Grid(keys, cells, n) && f < |keys| && m <= n
    requires |keys'| == |keys| && |cells'| == |cells|
    requires forall i :: 0 <= i < |keys| ==> keys'[i] == keys[i] + [false] && cells'[i] == cells[i] + [[]]
    ensures Grid(keys', cells', n + 1)
    ensures Exposed(keys', cells', f, m) == if m < n then Exposed(keys, cells, f, m) else []
  {
    if m < n {
      assert Col(keys', m) == Col(keys, m);
      assert Col(cells', m) == Col(cells, m);
    } else {
      var col := Col(keys', m);
      LastKeyIs(col, f + 1, -1);
    }
  }

  /** Changing one cell's list: frames whose exposure comes from that cell
      show the new list, every other frame and layer is unchanged. An object
      changed in place inside a keyframe's list is seen wherever that
      keyframe is exposed, and nowhere else. */
  lemma EditCellExposure(keys: seq<seq<bool>>, cells: seq<seq<Cell>>, n: nat, k: nat, l: nat, v: Cell, f: nat, m: nat)
    requires Grid(keys, cells, n) && l < n && m < n && k < |keys| && f < |keys|
    ensures Grid(keys, cells[k := cells[k][l := v]], n)
    ensures Exposed(keys, cells[k := cells[k][l := v]], f, m)
            == if m == l && LastKeyBelow(Col(keys, l), f + 1) == k then v else Exposed(keys, cells, f, m)
  {
    RefillOne(cells, k, l, v);
    ColRefilled(cells, cells[k := cells[k][l := v]], n, l, k, k + 1, v, m);
  }

  /** Unflagging cell (s, l) leaves the scans that start below or after s
      where they were. */
  lemma UnflagScans(keys: seq<seq<bool>>, s: nat, l: nat)
    requires s < |keys| && Covers(keys, l)
    ensures Covers(Flag(keys, s, l, false), l)
    ensures FirstKeyFrom(Col(Flag(keys, s, l, false), l), s) == NextKey(keys, s, l)
    ensures LastKeyBelow(Col(Flag(keys, s, l, false), l), s) == LastKeyBelow(Col(keys, l), s)
  {
    var col := Col(keys, l);
    ColFlag(keys, s, l, false, l);
    FirstKeyAfterSet(col, s, false);
    FirstKeyIs(col[s := false], s, NextKey(keys, s, l));
    LastKeyIs(col[s := false], s, LastKeyBelow(col, s));
  }

  // ---------------------------------------------------------------
  // What every frame shows, before and after an operation
  // ---------------------------------------------------------------

  /** After an edit, the frames [from, to) of layer l show src and every
      other frame of every layer shows what it showed before. */
  ghost predicate ShowsRun(keys: seq<seq<bool>>, cells: seq<seq<Cell>>, keys': seq<seq<bool>>, cells': seq<seq<Cell>>,
                           n: nat, l: nat, from: int, to: int, src: Cell)
  {
    Grid(keys, cells, n) && Grid(keys', cells', n) && |keys'| == |keys| &&
    forall f, m :: 0 <= f < |keys| && 0 <= m < n ==>
      Exposed(keys', cells', f, m) == if m == l && from <= f < to then src else Exposed(keys, cells, f, m)
  }

  /** Every frame of every layer shows what it showed before. */
  ghost predicate SameView(keys: seq<seq<bool>>, cells: seq<seq<Cell>>, keys': seq<seq<bool>>, cells': seq<seq<Cell>>,
                           n: nat)
  {
    Grid(keys, cells, n) && Grid(keys', cells', n) && |keys'| == |keys| &&
    forall f, m :: 0 <= f < |keys| && 0 <= m < n ==> Exposed(keys', cells', f, m) == Exposed(keys, cells, f, m)
  }

  /** A timeline-length change: every frame of the new length shows what
      the same frame showed, or, past the old end, what the old last frame
      showed. */
  ghost predicate ShowsResized(keys: seq<seq<bool>>, cells: seq<seq<Cell>>, keys': seq<seq<bool>>, cells': seq<seq<Cell>>,
                               n: nat)
  {
    Grid(keys, cells, n) && Grid(keys', cells', n) && |keys| >= 1 &&
    forall f, m :: 0 <= f < |keys'| && 0 <= m < n ==>
      Exposed(keys', cells', f, m) == Exposed(keys, cells, if f < |keys| then f else |keys| - 1, m)
  }

  /** A layer added after the n existing ones: they show what they showed,
      and the new one shows nothing. */
  ghost predicate ShowsAdded(keys: seq<seq<bool>>, cells: seq<seq<Cell>>, keys': seq<seq<bool>>, cells': seq<seq<Cell>>,
                             n: nat)
  {
    Grid(keys, cells, n) && Grid(keys', cells', n + 1) && |keys'| == |keys| &&
    forall f, m :: 0 <= f < |keys| && 0 <= m <= n ==>
      Exposed(keys', cells', f, m) == if m < n then Exposed(keys, cells, f, m) else []
  }

  /** Cell (k, l) now holds v: the frames whose exposure on layer l comes
      from frame k show v, and every other frame and layer is unchanged. */
  ghost predicate ShowsEdited(keys: seq<seq<bool>>, cells: seq<seq<Cell>>, cells': seq<seq<Cell>>,
                              n: nat, k: nat, l: nat, v: Cell)
  {
    Grid(keys, cells, n) && Grid(keys, cells', n) && l < n &&
    forall f, m :: 0 <= f < |keys| && 0 <= m < n ==>
      Exposed(keys, cells', f, m) == if m == l && LastKeyBelow(Col(keys, l), f + 1) == k then v else Exposed(keys, cells, f, m)
  }

  lemma KeyEditView(keys: seq<seq<bool>>, before: seq<seq<Cell>>, after: seq<seq<Cell>>, n: nat,
                    s: nat, l: nat, src: Cell)
    requires Grid(keys, before, n) && l < n && s < |keys|
    requires Refilled(before, after, l, s, NextKey(Flag(keys, s, l, true), s, l), src)
    ensures ShowsRun(keys, before, Flag(keys, s, l, true), after, n, l, s, NextKey(keys, s, l), src)
  {
    KeyEditCols(keys, before, after, n, s, l, src, l);
    forall f, m | 0 <= f < |keys| && 0 <= m < n
      ensures Exposed(Flag(keys, s, l, true), after, f, m)
              == if m == l && s <= f < NextKey(keys, s, l) then src else Exposed(keys, before, f, m)
    {
      KeyEditExposure(keys, before, after, n, s, l, src, f, m);
    }
  }

  lemma FlagView(keys: seq<seq<bool>>, cells: seq<seq<Cell>>, n: nat, s: nat, l: nat)
    requires Grid(keys, cells, n) && l < n && s < |keys|
    ensures ShowsRun(keys, cells, Flag(keys, s, l, true), cells, n, l, s, NextKey(keys, s, l), cells[s][l])
  {
    forall f, m | 0 <= f < |keys| && 0 <= m < n
      ensures Exposed(Flag(keys, s, l, true), cells, f, m)
              == if m == l && s <= f < NextKey(keys, s, l) then cells[s][l] else Exposed(keys, cells, f, m)
    {
      FlagExposure(keys, cells, n, s, l, f, m);
    }
  }

  lemma SameViewRefl(keys: seq<seq<bool>>, cells: seq<seq<Cell>>, n: nat)
    requires Grid(keys, cells, n)
    ensures SameView(keys, cells, keys, cells, n)
  {
  }

  lemma DuplicateView(keys: seq<seq<bool>>, before: seq<seq<Cell>>, after: seq<seq<Cell>>, n: nat, s: nat, l: nat)
    requires Grid(keys, before, n) && l < n && s < |keys|
    requires !keys[s][l] && LastKeyBelow(Col(keys, l), s) >= 0
    requires Refilled(before, after, l, s, NextKey(Flag(keys, s, l, true), s, l),
                      before[LastKeyBelow(Col(keys, l), s)][l])
    ensures SameView(keys, before, Flag(keys, s, l, true), after, n)
  {
    KeyEditCols(keys, before, after, n, s, l, before[LastKeyBelow(Col(keys, l), s)][l], l);
    forall f, m | 0 <= f < |keys| && 0 <= m < n
      ensures Exposed(Flag(keys, s, l, true), after, f, m) == Exposed(keys, before, f, m)
    {
      DuplicateOfExposedIsInvisible(keys, before, after, n, s, l, f, m);
    }
  }

  lemma DeleteView(keys: seq<seq<bool>>, before: seq<seq<Cell>>, after: seq<seq<Cell>>, n: nat, s: nat, l: nat)
    requires Grid(keys, before, n) && l < n && s < |keys|
    requires LastKeyBelow(Col(keys, l), s) >= 0 ==>
      Refilled(before, after, l, s, NextKey(keys, s, l), before[LastKeyBelow(Col(keys, l), s)][l])
    requires LastKeyBelow(Col(keys, l), s) < 0 ==> Refilled(before, after, l, s, s + 1, [])
    ensures ShowsRun(keys, before, Flag(keys, s, l, false), after, n, l, s, NextKey(keys, s, l),
                     if LastKeyBelow(Col(keys, l), s) >= 0 then before[LastKeyBelow(Col(keys, l), s)][l] else [])
  {
    DeleteExposure(keys, before, after, n, s, l, s, l);
    forall f, m | 0 <= f < |keys| && 0 <= m < n
      ensures Exposed(Flag(keys, s, l, false), after, f, m)
              == if m == l && s <= f < NextKey(keys, s, l) then
                   (if LastKeyBelow(Col(keys, l), s) >= 0 then before[LastKeyBelow(Col(keys, l), s)][l] else [])
                 else Exposed(keys, before, f, m)
    {
      DeleteExposure(keys, before, after, n, s, l, f, m);
    }
  }

  lemma ResizeView(keys: seq<seq<bool>>, cells: seq<seq<Cell>>, keys': seq<seq<bool>>, cells': seq<seq<Cell>>, n: nat)
    requires Grid(keys, cells, n) && Grid(keys', cells', n) && |keys| >= 1
    requires forall i :: 0 <= i < |keys| && i < |keys'| ==> keys'[i] == keys[i] && cells'[i] == cells[i]
    requires forall i :: |keys| <= i < |keys'| ==> keys'[i] == FalseRow(n)
    ensures ShowsResized(keys, cells, keys', cells', n)
  {
    forall f, m | 0 <= f < |keys'| && 0 <= m < n
      ensures Exposed(keys', cells', f, m) == Exposed(keys, cells, if f < |keys| then f else |keys| - 1, m)
    {
      LengthChangeExposure(keys, cells, keys', cells', n, f, m);
    }
  }

  lemma AddLayerView(keys: seq<seq<bool>>, cells: seq<seq<Cell>>, keys': seq<seq<bool>>, cells': seq<seq<Cell>>, n: nat)
    requires Grid(keys, cells, n) && |keys| >= 1
    requires |keys'| == |keys| && |cells'| == |cells|
    requires forall i :: 0 <= i < |keys| ==> keys'[i] == keys[i] + [false] && cells'[i] == cells[i] + [[]]
    ensures ShowsAdded(keys, cells, keys', cells', n)
  {
    AddLayerExposure(keys, cells, keys', cells', n, 0, 0);
    forall f, m | 0 <= f < |keys| && 0 <= m <= n
      ensures Exposed(keys', cells', f, m) == if m < n then Exposed(keys, cells, f, m) else []
    {
      AddLayerExposure(keys, cells, keys', cells', n, f, m);
    }
  }

  lemma EditView(keys: seq<seq<bool>>, cells: seq<seq<Cell>>, n: nat, k: nat, l: nat, v: Cell)
    requires Grid(keys, cells, n) && l < n && k < |keys|
    ensures ShowsEdited(keys, cells, cells[k := cells[k][l := v]], n, k, l, v)
  {
    EditCellExposure(keys, cells, n, k, l, v, k, l);
    forall f, m | 0 <= f < |keys| && 0 <= m < n
      ensures Exposed(keys, cells[k := cells[k][l := v]], f, m)
              == if m == l && LastKeyBelow(Col(keys, l), f + 1) == k then v else Exposed(keys, cells, f, m)
    {
      EditCellExposure(keys, cells, n, k, l, v, f, m);
    }
  }

  /** The object a new project seeds into cell (0, 0). */
  const SeededRect := Shape(Rect, None, Style(None, Some("red"), None, None, 1.0),
                            Some(Transform(200.0, 150.0, 0.0, 1.0, 1.0)))

  /** The name given to the n-th layer: "Layer " followed by n in decimal. */
  function LayerName(n: nat): (r: string)
    ensures |r| > 6 && r[..6] == "Layer " && Decimal(r[6..], n)
  {
    var r := "Layer " + NatToString(n);
    assert r[6..] == NatToString(n);
    r
  }

  /** `s` writes n in decimal: digits only, most significant first, with no
      leading zero unless n is 0. */
  predicate Decimal(s: string, n: nat)
  {
    |s| >= 1 && (forall i :: 0 <= i < |s| ==> '0' <= s[i] <= '9') &&
    DigitsValue(s) == n && (s[0] == '0' ==> s == "0")
  }

  /** The number a string of decimal digits denotes. */
  function DigitsValue(s: string): int
  {
    if |s| == 0 then 0 else 10 * DigitsValue(s[..|s| - 1]) + (s[|s| - 1] as int - '0' as int)
  }

  function NatToString(n: nat): (s: string)
    ensures Decimal(s, n)
  {
    if n < 10 then [Digit(n)]
    else
      var s := NatToString(n / 10) + [Digit(n % 10)];
      assert s[..|s| - 1] == NatToString(n / 10);
      s
  }

  function Digit(d: nat): (c: char)
    requires d < 10
    ensures '0' <= c <= '9' && c as int - '0' as int == d
  {
    ('0' as int + d) as char
  }

  /** The row count a timeline-length entry asks for: its whole part, or
      one when that is below one. */
  function RequestedLength(value: real): (n: int)
    ensures n >= 1
    ensures value >= 1.0 ==> n as real <= value < n as real + 1.0
    ensures value < 1.0 ==> n == 1
  {
    if value.Floor < 1 then 1 else value.Floor
  }

  function FalseRow(n: nat): (r: seq<bool>)
    ensures |r| == n && forall i :: 0 <= i < n ==> !r[i]
  {
    seq(n, _ => false)
  }

  function EmptyRow(n: nat): (r: seq<Cell>)
    ensures |r| == n && forall i :: 0 <= i < n ==> r[i] == []
  {
    seq(n, _ => [])
  }

  class Timeline {
    var layers: seq<string>
    var realFrames: seq<seq<bool>>
    var objectFrames: seq<seq<Cell>>
    var currentFrame: nat
    var activeLayer: nat

    ghost predicate Valid()
      reads this
    {
      |layers| >= 1 && |realFrames| >= 1 &&
      Grid(realFrames, objectFrames, |layers|) &&
      currentFrame < |realFrames| && activeLayer < |layers|
    }

    /** A new project: one layer, ten frames, no keyframes, and the seeded
        rectangle in cell (0, 0). */
    constructor ()
      ensures Valid()
      ensures layers == ["Layer 1"] && currentFrame == 0 && activeLayer == 0
      ensures |realFrames| == 10
      ensures forall i :: 0 <= i < 10 ==> realFrames[i] == [false]
      ensures objectFrames[0] == [[SeededRect]]
      ensures forall i :: 1 <= i < 10 ==> objectFrames[i] == [[]]
    {
      var names := ["Layer 1"];
      var keys: seq<seq<bool>> := [];
      var cells: seq<seq<Cell>> := [];
      var i := 0;
      while i < 10
        invariant 0 <= i <= 10 && |keys| == i && |cells| == i
        invariant forall j :: 0 <= j < i ==> keys[j] == [false] && cells[j] == [[]]
      {
        keys := keys + [FalseRow(|names|)];
        cells := cells + [EmptyRow(|names|)];
        i := i + 1;
      }
      layers := names;
      realFrames := keys;
      objectFrames := cells[0 := [[SeededRect]]];
      currentFrame := 0;
      activeLayer := 0;
    }

    /** findPreviousReal: scan back from the frame below `frame`. */
    method FindPreviousReal(frame: nat, layer: nat) returns (r: int)
      requires Valid() && frame <= |realFrames| && layer < |layers|
      ensures r == LastKeyBelow(Col(realFrames, layer), frame)
    {
      var i := frame as int - 1;
      while i >= 0
        invariant -1 <= i < frame
        invariant forall j :: i < j < frame ==> !realFrames[j][layer]
      {
        if realFrames[i][layer] {
          LastKeyIs(Col(realFrames, layer), frame, i);
          return i;
        }
        i := i - 1;
      }
      LastKeyIs(Col(realFrames, layer), frame, -1);
      return -1;
    }

    /** getExposedObjectFrame: scan back from `frame` itself. */
    method GetExposedObjectFrame(frame: nat, layer: nat) returns (objs: Cell)
      requires Valid() && frame < |realFrames| && layer < |layers|
      ensures objs == Exposed(realFrames, objectFrames, frame, layer)
    {
      var i := frame as int;
      while i >= 0
        invariant -1 <= i <= frame
        invariant forall j :: i < j <= frame ==> !realFrames[j][layer]
      {
        if realFrames[i][layer] {
          LastKeyIs(Col(realFrames, layer), frame + 1, i);
          return objectFrames[i][layer];
        }
        i := i - 1;
      }
      LastKeyIs(Col(realFrames, layer), frame + 1, -1);
      return [];
    }

    /** The loop propagateObjectsFrom and deleteFrame share: from frame
        `from` on, copy src into layer l's cells until a keyframe. */
    method CopyForward(from: nat, l: nat, src: Cell)
      requires Valid() && from <= |realFrames| && l < |layers|
      modifies this
      ensures Valid()
      ensures layers == old(layers) && realFrames == old(realFrames)
      ensures currentFrame == old(currentFrame) && activeLayer == old(activeLayer)
      ensures Refilled(old(objectFrames), objectFrames, l, from, FirstKeyFrom(Col(realFrames, l), from), src)
    {
      var cells := objectFrames;
      var i := from;
      while i < |cells|
        invariant from <= i <= FirstKeyFrom(Col(realFrames, l), from)
        invariant Refilled(objectFrames, cells, l, from, i, src)
      {
        if realFrames[i][l] {
          break;
        }
        cells := cells[i := cells[i][l := src]];
        i := i + 1;
      }
      objectFrames := cells;
    }

    /** propagateObjectsFrom: copy cell (s, l) forward until the next keyframe. */
    method PropagateObjectsFrom(s: nat, l: nat)
      requires Valid() && s < |realFrames| && l < |layers|
      modifies this
      ensures Valid()
      ensures layers == old(layers) && realFrames == old(realFrames)
      ensures currentFrame == old(currentFrame) && activeLayer == old(activeLayer)
      ensures Refilled(old(objectFrames), objectFrames, l, s, NextKey(realFrames, s, l), old(objectFrames[s][l]))
    {
      var src := objectFrames[s][l];
      CopyForward(s + 1, l, src);
    }

    /** saveFrame: make the current cell a keyframe and propagate it. */
    method SaveFrame()
      requires Valid()
      modifies this
      ensures Valid()
      ensures layers == old(layers) && currentFrame == old(currentFrame) && activeLayer == old(activeLayer)
      ensures realFrames == Flag(old(realFrames), currentFrame, activeLayer, true)
      ensures Refilled(old(objectFrames), objectFrames, activeLayer, currentFrame,
                       NextKey(realFrames, currentFrame, activeLayer),
                       old(objectFrames[currentFrame][activeLayer]))
      ensures ShowsRun(old(realFrames), old(objectFrames), realFrames, objectFrames, |layers|, activeLayer,
                       currentFrame, NextKey(old(realFrames), currentFrame, activeLayer),
                       old(objectFrames[currentFrame][activeLayer]))
    {
      ghost var keys0, cells0 := realFrames, objectFrames;
      realFrames := Flag(realFrames, currentFrame, activeLayer, true);
      PropagateObjectsFrom(currentFrame, activeLayer);
      KeyEditView(keys0, cells0, objectFrames, |layers|, currentFrame, activeLayer, cells0[currentFrame][activeLayer]);
    }

    /** The start of every canvas press: the current cell becomes a keyframe. */
    method MarkCurrentKeyframe()
      requires Valid()
      modifies this
      ensures Valid()
      ensures layers == old(layers) && objectFrames == old(objectFrames)
      ensures currentFrame == old(currentFrame) && activeLayer == old(activeLayer)
      ensures realFrames == Flag(old(realFrames), currentFrame, activeLayer, true)
      ensures ShowsRun(old(realFrames), objectFrames, realFrames, objectFrames, |layers|, activeLayer,
                       currentFrame, NextKey(old(realFrames), currentFrame, activeLayer),
                       objectFrames[currentFrame][activeLayer])
    {
      FlagView(realFrames, objectFrames, |layers|, currentFrame, activeLayer);
      if !realFrames[currentFrame][activeLayer] {
        realFrames := Flag(realFrames, currentFrame, activeLayer, true);
      } else {
        assert realFrames[currentFrame][activeLayer := true] == realFrames[currentFrame];
      }
    }

    /** overwriteFrameBlank: the current cell becomes an empty keyframe,
        propagated. */
    method OverwriteFrameBlank()
      requires Valid()
      modifies this
      ensures Valid()
      ensures layers == old(layers) && currentFrame == old(currentFrame) && activeLayer == old(activeLayer)
      ensures realFrames == Flag(old(realFrames), currentFrame, activeLayer, true)
      ensures Refilled(old(objectFrames), objectFrames, activeLayer, currentFrame,
                       NextKey(realFrames, currentFrame, activeLayer), [])
      ensures ShowsRun(old(realFrames), old(objectFrames), realFrames, objectFrames, |layers|, activeLayer,
                       currentFrame, NextKey(old(realFrames), currentFrame, activeLayer), [])
    {
      ghost var keys0, cells0 := realFrames, objectFrames;
      RefillOne(objectFrames, currentFrame, activeLayer, []);
      EditGrid(realFrames, objectFrames, |layers|, currentFrame, activeLayer, true, []);
      objectFrames := objectFrames[currentFrame := objectFrames[currentFrame][activeLayer := []]];
      ghost var cells1 := objectFrames;
      realFrames := Flag(realFrames, currentFrame, activeLayer, true);
      PropagateObjectsFrom(currentFrame, activeLayer);
      RefillCompose(cells0, cells1, objectFrames, activeLayer, currentFrame, currentFrame + 1,
                    NextKey(realFrames, currentFrame, activeLayer), [], []);
      KeyEditView(keys0, cells0, objectFrames, |layers|, currentFrame, activeLayer, []);
    }

    /** overwriteFrameDuplicate: copy the previous keyframe into the current
        cell, flag it and propagate it; nothing happens without a previous
        keyframe. */
    method OverwriteFrameDuplicate()
      requires Valid()
      modifies this
      ensures Valid()
      ensures layers == old(layers) && currentFrame == old(currentFrame) && activeLayer == old(activeLayer)
      ensures LastKeyBelow(Col(old(realFrames), activeLayer), currentFrame) < 0 ==>
                realFrames == old(realFrames) && objectFrames == old(objectFrames)
      ensures LastKeyBelow(Col(old(realFrames), activeLayer), currentFrame) >= 0 ==>
                realFrames == Flag(old(realFrames), currentFrame, activeLayer, true) &&
                Refilled(old(objectFrames), objectFrames, activeLayer, currentFrame,
                         NextKey(realFrames, currentFrame, activeLayer),
                         old(objectFrames)[LastKeyBelow(Col(old(realFrames), activeLayer), currentFrame)][activeLayer])
      ensures LastKeyBelow(Col(old(realFrames), activeLayer), currentFrame) >= 0 ==>
                ShowsRun(old(realFrames), old(objectFrames), realFrames, objectFrames, |layers|, activeLayer,
                         currentFrame, NextKey(old(realFrames), currentFrame, activeLayer),
                         old(objectFrames)[LastKeyBelow(Col(old(realFrames), activeLayer), currentFrame)][activeLayer])
      ensures !old(realFrames[currentFrame][activeLayer]) ==>
                SameView(old(realFrames), old(objectFrames), realFrames, objectFrames, |layers|)
    {
      ghost var keys0 := realFrames;
      var src := FindPreviousReal(currentFrame, activeLayer);
      if src < 0 {
        SameViewRefl(realFrames, objectFrames, |layers|);
        return;
      }
      ghost var cells0 := objectFrames;
      var copy := objectFrames[src][activeLayer];
      RefillOne(objectFrames, currentFrame, activeLayer, copy);
      EditGrid(realFrames, objectFrames, |layers|, currentFrame, activeLayer, true, copy);
      objectFrames := objectFrames[currentFrame := objectFrames[currentFrame][activeLayer := copy]];
      ghost var cells1 := objectFrames;
      realFrames := Flag(realFrames, currentFrame, activeLayer, true);
      PropagateObjectsFrom(currentFrame, activeLayer);
      RefillCompose(cells0, cells1, objectFrames, activeLayer, currentFrame, currentFrame + 1,
                    NextKey(realFrames, currentFrame, activeLayer), copy, copy);
      KeyEditView(keys0, cells0, objectFrames, |layers|, currentFrame, activeLayer, copy);
      if !keys0[currentFrame][activeLayer] {
        DuplicateView(keys0, cells0, objectFrames, |layers|, currentFrame, activeLayer);
      }
    }

    /** deleteFrame: a keyframe cell is emptied and unflagged; when an
        earlier keyframe exists, its list is copied from the current frame
        up to the next keyframe. A cell that is not a keyframe is left alone. */
    method DeleteFrame()
      requires Valid()
      modifies this
      ensures Valid()
      ensures layers == old(layers) && currentFrame == old(currentFrame) && activeLayer == old(activeLayer)
      ensures !old(realFrames[currentFrame][activeLayer]) ==>
                realFrames == old(realFrames) && objectFrames == old(objectFrames)
      ensures old(realFrames[currentFrame][activeLayer]) ==>
                realFrames == Flag(old(realFrames), currentFrame, activeLayer, false)
      ensures old(realFrames[currentFrame][activeLayer]) &&
              LastKeyBelow(Col(old(realFrames), activeLayer), currentFrame) < 0 ==>
                Refilled(old(objectFrames), objectFrames, activeLayer, currentFrame, currentFrame + 1, [])
      ensures old(realFrames[currentFrame][activeLayer]) &&
              LastKeyBelow(Col(old(realFrames), activeLayer), currentFrame) >= 0 ==>
                Refilled(old(objectFrames), objectFrames, activeLayer, currentFrame,
                         NextKey(old(realFrames), currentFrame, activeLayer),
                         old(objectFrames)[LastKeyBelow(Col(old(realFrames), activeLayer), currentFrame)][activeLayer])
      ensures old(realFrames[currentFrame][activeLayer]) ==>
                ShowsRun(old(realFrames), old(objectFrames), realFrames, objectFrames, |layers|, activeLayer,
                         currentFrame, NextKey(old(realFrames), currentFrame, activeLayer),
                         if LastKeyBelow(Col(old(realFrames), activeLayer), currentFrame) >= 0
                         then old(objectFrames)[LastKeyBelow(Col(old(realFrames), activeLayer), currentFrame)][activeLayer]
                         else [])
    {
      if !realFrames[currentFrame][activeLayer] {
        return;
      }
      ghost var keys0, cells0 := realFrames, objectFrames;
      RefillOne(objectFrames, currentFrame, activeLayer, []);
      EditGrid(realFrames, objectFrames, |layers|, currentFrame, activeLayer, false, []);
      objectFrames := objectFrames[currentFrame := objectFrames[currentFrame][activeLayer := []]];
      ghost var cells1 := objectFrames;
      UnflagScans(realFrames, currentFrame, activeLayer);
      realFrames := Flag(realFrames, currentFrame, activeLayer, false);
      var prev := FindPreviousReal(currentFrame, activeLayer);
      if prev >= 0 {
        var src := objectFrames[prev][activeLayer];
        CopyForward(currentFrame, activeLayer, src);
        RefillCompose(cells0, cells1, objectFrames, activeLayer, currentFrame, currentFrame + 1,
                      NextKey(old(realFrames), currentFrame, activeLayer), [], src);
      }
      DeleteView(keys0, cells0, objectFrames, |layers|, currentFrame, activeLayer);
    }

    /** The timeline-length entry: the matrices get exactly
        RequestedLength(value) rows; new rows hold an empty, unflagged cell
        per layer, and the current frame is pulled back inside. */
    method SetTimelineLength(value: real)
      requires Valid()
      modifies this
      ensures Valid()
      ensures layers == old(layers) && activeLayer == old(activeLayer)
      ensures |realFrames| == RequestedLength(value)
      ensures forall i :: 0 <= i < |realFrames| && i < |old(realFrames)| ==>
                realFrames[i] == old(realFrames[i]) && objectFrames[i] == old(objectFrames[i])
      ensures forall i :: |old(realFrames)| <= i < |realFrames| ==>
                realFrames[i] == FalseRow(|layers|) && objectFrames[i] == EmptyRow(|layers|)
      ensures currentFrame == if old(currentFrame) < |realFrames| then old(currentFrame) else |realFrames| - 1
      ensures ShowsResized(old(realFrames), old(objectFrames), realFrames, objectFrames, |layers|)
    {
      ghost var keys0, cells0 := realFrames, objectFrames;
      var newLength := RequestedLength(value);
      var currentLength := |realFrames|;
      if newLength > currentLength {
        var keys, cells := realFrames, objectFrames;
        var i := currentLength;
        while i < newLength
          invariant currentLength <= i <= newLength && |keys| == |cells| == i
          invariant keys[..currentLength] == realFrames && cells[..currentLength] == objectFrames
          invariant forall j :: currentLength <= j < i ==> keys[j] == FalseRow(|layers|) && cells[j] == EmptyRow(|layers|)
        {
          keys := keys + [FalseRow(|layers|)];
          cells := cells + [EmptyRow(|layers|)];
          i := i + 1;
        }
        realFrames, objectFrames := keys, cells;
      } else if newLength < currentLength {
        realFrames := realFrames[..newLength];
        objectFrames := objectFrames[..newLength];
        if currentFrame >= newLength {
          currentFrame := newLength - 1;
        }
      }
      ResizeView(keys0, cells0, realFrames, objectFrames, |layers|);
    }

    /** The add-layer button: a new layer named after its position, an
        empty unflagged cell appended to every row, and it becomes active. */
    method AddLayer()
      requires Valid()
      modifies this
      ensures Valid()
      ensures layers == old(layers) + [LayerName(|old(layers)| + 1)]
      ensures |realFrames| == |old(realFrames)| && currentFrame == old(currentFrame)
      ensures forall i :: 0 <= i < |realFrames| ==>
                realFrames[i] == old(realFrames[i]) + [false] && objectFrames[i] == old(objectFrames[i]) + [[]]
      ensures activeLayer == |layers| - 1
      ensures ShowsAdded(old(realFrames), old(objectFrames), realFrames, objectFrames, |old(layers)|)
    {
      ghost var keys0, cells0, n0 := realFrames, objectFrames, |layers|;
      layers := layers + [LayerName(|layers| + 1)];
      var keys, cells := realFrames, objectFrames;
      var i := 0;
      while i < |keys|
        invariant 0 <= i <= |keys| == |realFrames| && |cells| == |objectFrames|
        invariant forall j :: 0 <= j < i ==> keys[j] == realFrames[j] + [false] && cells[j] == objectFrames[j] + [[]]
        invariant forall j :: i <= j < |keys| ==> keys[j] == realFrames[j] && cells[j] == objectFrames[j]
      {
        keys := keys[i := keys[i] + [false]];
        cells := cells[i := cells[i] + [[]]];
        i := i + 1;
      }
      realFrames, objectFrames := keys, cells;
      activeLayer := |layers| - 1;
      AddLayerView(keys0, cells0, realFrames, objectFrames, n0);
    }

    /** A timeline-cell click: it selects the frame and the layer. */
    method SelectCell(frame: nat, layer: nat)
      requires Valid() && frame < |realFrames| && layer < |layers|
      modifies this
      ensures Valid()
      ensures currentFrame == frame && activeLayer == layer
      ensures layers == old(layers) && realFrames == old(realFrames) && objectFrames == old(objectFrames)
    {
      currentFrame, activeLayer := frame, layer;
    }

    /** Writes o over the object at index i of cell (f, l): the effect of
        changing an object that is held by reference, such as the transform
        tool's selection. */
    method ReplaceObject(f: nat, l: nat, i: nat, o: SceneObject)
      requires Valid() && f < |objectFrames| && l < |layers| && i < |objectFrames[f][l]|
      modifies this
      ensures Valid()
      ensures layers == old(layers) && realFrames == old(realFrames)
      ensures currentFrame == old(currentFrame) && activeLayer == old(activeLayer)
      ensures objectFrames == old(objectFrames[f := objectFrames[f][l := objectFrames[f][l][i := o]]])
      ensures ShowsEdited(realFrames, old(objectFrames), objectFrames, |layers|, f, l, old(objectFrames[f][l][i := o]))
    {
      EditView(realFrames, objectFrames, |layers|, f, l, objectFrames[f][l][i := o]);
      EditGrid(realFrames, objectFrames, |layers|, f, l, realFrames[f][l], objectFrames[f][l][i := o]);
      assert Flag(realFrames, f, l, realFrames[f][l]) == realFrames by {
        assert realFrames[f][l := realFrames[f][l]] == realFrames[f];
      }
      objectFrames := objectFrames[f := objectFrames[f][l := objectFrames[f][l][i := o]]];
    }

    /** A committed brush stroke or shape: appended to the current cell,
        which is then saved. */
    method CommitObject(o: SceneObject)
      requires Valid()
      modifies this
      ensures Valid()
      ensures layers == old(layers) && currentFrame == old(currentFrame) && activeLayer == old(activeLayer)
      ensures realFrames == Flag(old(realFrames), currentFrame, activeLayer, true)
      ensures Refilled(old(objectFrames), objectFrames, activeLayer, currentFrame,
                       NextKey(realFrames, currentFrame, activeLayer),
                       old(objectFrames[currentFrame][activeLayer]) + [o])
      ensures ShowsRun(old(realFrames), old(objectFrames), realFrames, objectFrames, |layers|, activeLayer,
                       currentFrame, NextKey(old(realFrames), currentFrame, activeLayer),
                       old(objectFrames[currentFrame][activeLayer]) + [o])
    {
      ghost var keys0, cells0 := realFrames, objectFrames;
      var cell := objectFrames[currentFrame][activeLayer] + [o];
      RefillOne(objectFrames, currentFrame, activeLayer, cell);
      objectFrames := objectFrames[currentFrame := objectFrames[currentFrame][activeLayer := cell]];
      ghost var cells1 := objectFrames;
      SaveFrame();
      RefillCompose(cells0, cells1, objectFrames, activeLayer, currentFrame, currentFrame + 1,
                    NextKey(realFrames, currentFrame, activeLayer), cell, cell);
      KeyEditView(keys0, cells0, objectFrames, |layers|, currentFrame, activeLayer, cell);
    }

    /** eraseWithCircle: every layer's cell at the current frame is replaced
        by its erased list; no flag changes and no other cell changes. */
    method EraseWithCircle(x: real, y: real, radius: real)
      requires Valid()
      modifies this
      ensures Valid()
      ensures layers == old(layers) && realFrames == old(realFrames)
      ensures currentFrame == old(currentFrame) && activeLayer == old(activeLayer)
      ensures |objectFrames| == |old(objectFrames)|
      ensures forall i :: 0 <= i < |objectFrames| && i != currentFrame ==> objectFrames[i] == old(objectFrames[i])
      ensures forall m :: 0 <= m < |layers| ==>
                objectFrames[currentFrame][m] == Eraser.ErasedList(old(objectFrames[currentFrame][m]), x, y, radius)
    {
      var row0 := objectFrames[currentFrame];
      var row := row0;
      var l := 0;
      while l < |row|
        invariant 0 <= l <= |row| == |row0|
        invariant forall m :: 0 <= m < l ==> row[m] == Eraser.ErasedList(row0[m], x, y, radius)
        invariant forall m :: l <= m < |row| ==> row[m] == row0[m]
        modifies {}
      {
        var erased := Eraser.EraseCell(row[l], x, y, radius);
        row := row[l := erased];
        l := l + 1;
      }
      objectFrames := objectFrames[currentFrame := row];
    }
  }
}
