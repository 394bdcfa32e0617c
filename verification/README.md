# TryItAnimation core, modelled in Dafny

TryItAnimation is a browser editor for frame-by-frame vector animation.
A project is a grid of cells, one per frame and layer. Each cell carries:

- a keyframe flag (`realFrames[frame][layer]`);
- a list of scene objects (`objectFrames[frame][layer]`).

The scene objects are brush strokes, rectangles, lines, circles and fill
regions. A cell that is not a keyframe shows the list of the nearest
keyframe at or before it. Editing a keyframe copies its list forward until
the next keyframe.

This project models the algorithmic parts of `script.js` and proves what
they promise. Each Dafny module follows one part of the program:

- `geometry.dfy` (`Geometry`): squared distances, the clamped projection
  of `pointToSegmentDistance` (proved to give the nearest point of the
  segment), minimum and maximum of a coordinate list, and
  the Catmull-Rom sample polynomial with its clamped index window.
- `scene.dfy` (`Scene`): the scene objects, `getObjectBoundingBox`, and
  the centring done when a brush stroke or a shape is committed.
- `eraser.dfy` (`Eraser`): `eraseWithCircle`. A stroke is split into the
  maximal runs of segments that stay clear of the eraser circle. The
  split is the source's accumulator loop (`SplitStroke`), proved equal to
  a reference definition by runs (`Runs`, `Slices`).
- `exposure.dfy` (`Exposure`): the keyframe store as a class `Timeline`.
  Its fields are the two matrices and the two cursors `currentFrame` and
  `activeLayer`. Its methods are propagation, blank, duplicate, delete,
  `saveFrame`, the timeline-length and add-layer handlers, and the
  backward scans.
  - Each method states its new flags and lists outright.
  - Every method that changes flags or lists, except `EraseWithCircle`,
    also states what every frame of every layer shows afterwards
    (`Exposed`, the list a cell shows), through `ShowsRun`, `SameView`,
    `ShowsResized`, `ShowsAdded` and `ShowsEdited`.
  - Lemmas say exactly which cells' exposure each edit changes.
- `selection.dfy` (`Selection`): the transform tool, as a class
  `TransformTool`.
  - The hit test searches layers from top to bottom and objects from last
    to first.
  - Handle detection tests the rotate circle first, then corners 0 to 3.
  - It also covers lazy transform creation and the move, rotate and
    resize arithmetic.
- `floodfill.dfy` (`FloodFill`): `floodFillObject`. It grows a region
  over a pixel snapshot with an explicit stack and a `visited` array, and
  tracks a running bounding box.
  - The method is proved to absorb exactly the pixels 4-connected to the
    start pixel through pixels of the start colour.
  - The fill object it returns is proved to be the tight box of that
    region.

The model follows `script.js` as written, including these behaviours:

- The rectangle seeded at project creation is not flagged as a keyframe
  (`script.js:74-80` pushes it without touching `realFrames`).
- The eraser rebuilds even an untouched stroke as a new object with one
  fresh mask. It reads each layer's own cell at the current frame, not
  the list that cell shows.
- Deleting a keyframe that has no earlier keyframe leaves the later cells'
  lists as they were.
- Rows added by a longer timeline are empty non-keyframes.

`Math.hypot(d) <= r` is modelled as `r >= 0 && d² <= r²`, which is exact
over the reals. `Math.sin`, `Math.cos` and `Math.atan2` are parameters of
the operations that use them (`Trig`, `Atan2`).

## Model

| member | source | states |
|---|---|---|
| Geometry.Dist2 | script.js:1157-1158 | the squared distance is non-negative and zero between equal points |
| Geometry.Clamp01 | script.js:1116 | the clamp lies in [0, 1], is the identity inside it and saturates to 0 below and 1 above |
| Geometry.Len2 | script.js:1108-1111 | the squared direction length is non-negative and zero exactly when dx = dy = 0 |
| Geometry.ProjParamScaled | script.js:1115 | for a non-degenerate segment, the projection parameter times the squared length is the dot product |
| Geometry.SegDist2 | script.js:1106-1122 | the squared point-to-segment distance is at most the squared distance to every point of the segment and equal to it at some point; hence never above either endpoint distance, equal to it for a degenerate segment, and 0 at an endpoint |
| Geometry.SegPointsAlong | script.js:1118-1121 | the point at parameter s of the segment is p1 + s (p2 - p1), so its distance to p is that of w - s d |
| Geometry.OffsetDist2 | script.js:1108-1121 | with the offsets w = p - p1 and d = p2 - p1: the result is the least squared length of w - s d over s in [0, 1] and is attained there; for d = 0 it is the squared length of w |
| Geometry.NearestParam | script.js:1112-1116 | the parameter of the chosen point lies in [0, 1] |
| Geometry.NearestIsLeast | script.js:1108-1121 | no parameter in [0, 1] gives a point nearer to p than the chosen one |
| Geometry.PointAlong | script.js:1112-1114 | along a zero-length segment every parameter names p1 itself |
| Geometry.ClampedIsLeast | script.js:1115-1121 | the clamp into [0, 1] of the unconstrained projection parameter minimises the distance over the segment |
| Geometry.QuadLeast | script.js:1115-1116 | over [0, 1], a - 2sb + s²·len2 is least at the clamp of b / len2 |
| Geometry.SeqMin | script.js:406-409 | the minimum is an element of the list and below every element |
| Geometry.SeqMax | script.js:406-409 | the maximum is an element of the list and above every element |
| Geometry.Translated | script.js:779 | each point is shifted by the same (dx, dy), in order |
| Geometry.ShiftMinMax | script.js:773-779 | shifting every coordinate by d shifts the minimum and maximum by d |
| Geometry.CatmullRom | script.js:792-793 | the sample polynomial gives p1 at t = 0 and p2 at t = 1 |
| Geometry.WindowIndices | script.js:784-787 | the four window indices are in range, centred on (i, i+1), and clamped at both ends |
| Geometry.SmoothedCurveInterpolates | script.js:783-795 | segment i starts at point i and ends at point i+1, where segment i+1 starts |
| Scene.Outline | script.js:402-445 | a brush contributes its points, a shape with ends its two ends, a fill or an end-less shape nothing |
| Scene.BoxOf | script.js:406-416 | the box has non-negative size and its edges are the extreme coordinates of the points |
| Scene.BoxOfTight | script.js:406-416 | every point lies inside the box and each of the four edges is touched by some point |
| Scene.BoundingBox | script.js:402-445 | the box of the outline, or the zero box when there is no outline |
| Scene.BoundingBoxHoldsOutline | script.js:402-445 | every outline point lies inside the object's bounding box |
| Scene.StrokeCentre | script.js:773-776 | the stroke pivot is the centre of the raw points' box |
| Scene.CentredStroke | script.js:773-779 | the relative points' box is centred at (0, 0) with the raw box's size, and adding the pivot back gives the raw points |
| Scene.SegmentSamples | script.js:789-795 | the samples of one segment are the Catmull-Rom polynomial at each parameter, in order |
| Scene.Smoothed | script.js:782-796 | the smoothed stroke has one run of samples per segment and is empty for fewer than two points |
| Scene.SmoothedHitsSamples | script.js:782-796 | when the parameters start at 0, the smoothed stroke passes through every relative input point except the last |
| Scene.FirstSampleIsStart | script.js:789-794 | a segment's first sample is its start point |
| Scene.CommitBrush | script.js:771-803 | the committed brush sits at the stroke centre with no rotation and unit scale, has no masks and the brush style; when sampling starts at t = 0, its points moved back by the pivot pass through every raw point but the last, one segment of samples apart |
| Scene.CommittedThroughRaw | script.js:773-796 | relative points smoothed from t = 0 and moved back by the pivot pass through every raw point but the last |
| Scene.CommittedSample | script.js:773-796 | sample k·n of the smoothed relative stroke, moved back by the pivot, is raw point k, for n sample parameters per segment |
| Scene.CommitShape | script.js:807-820 | the committed shape has unit transform at the drag midpoint; its ends plus the pivot are the drag ends and are point-symmetric about it |
| Scene.ShapeBoxCentred | script.js:807-820 | a committed shape's bounding box is centred at (0, 0) |
| Eraser.SafeIffSegmentClear | script.js:1157-1166 | a segment is safe exactly when the eraser centre is farther than the effective radius from it (the endpoint tests are implied), that is, exactly when no point of the segment is within the effective radius |
| Eraser.SafeFlags | script.js:1147-1166 | one safety flag per segment |
| Eraser.SafeFlagsAt | script.js:1147-1166 | flag i is the safety test of segment i |
| Eraser.RunEnd | script.js:1165-1180 | the end of the safe run starting at i: every segment before it is safe and the one at it is not or does not exist |
| Eraser.Runs | script.js:1144-1185 | the runs are non-empty ranges of segment indices |
| Eraser.RunsAllSafe | script.js:1165-1171 | every segment inside a run is safe |
| Eraser.RunsStartMaximal | script.js:1168-1178 | a run starts at the first segment or right after an unsafe segment |
| Eraser.RunsEndMaximal | script.js:1173-1185 | a run ends at the last segment or right before an unsafe segment |
| Eraser.RunsSeparated | script.js:1173-1180 | consecutive runs are in order with at least one segment between them |
| Eraser.RunsCover | script.js:1165-1171 | every safe segment lies in some run |
| Eraser.Slices | script.js:1168-1185 | piece k is the contiguous slice of points covered by run k, both endpoints included |
| Eraser.SplitStroke | script.js:1144-1185 | the accumulator loop emits exactly the slices of the maximal safe runs |
| Eraser.SplitClose | script.js:1173-1178 | closing a run emits only a piece of two or more points |
| Eraser.SplitFinish | script.js:1183-1185 | after the loop, the pieces emitted plus the open one are the slices of all runs |
| Eraser.StrokeFlags | script.js:1138-1163 | one safety flag per segment of the stroke |
| Eraser.StrokeFlagsAt | script.js:1138-1163 | flag i is the safety test of segment i, measured with the pivot translation and the radius plus half the stroke width |
| Eraser.Rebuilt | script.js:1188-1211 | each piece becomes a brush with the stroke's style, the given transform and exactly one mask |
| Eraser.ErasedListAppend | script.js:1126-1242 | erasing a concatenation is the concatenation of the erased parts, so survivors keep their order |
| Eraser.EraseStroke | script.js:1136-1213 | the stroke branch yields the erased-stroke specification |
| Eraser.EraseOne | script.js:1130-1238 | one object yields the per-object erase specification |
| Eraser.EraseCell | script.js:1127-1242 | the loop over a cell's objects yields the erased list |
| Eraser.StrokeErased | script.js:1136-1213 | a brush with points is erased by splitting its stroke |
| Eraser.StrokePieces | script.js:1136-1213 | every surviving piece is a slice over a maximal safe run, with the original style, a copy of the transform (identity when absent) and the one mask (x - tx, y - ty, radius) |
| Eraser.UntouchedStroke | script.js:1136-1211 | a stroke with every segment safe comes back as one stroke with identical points and a fresh mask |
| Eraser.AllSafeOneRun | script.js:1165-1185 | all-safe flags form one run over every segment |
| Eraser.StrokeWithNoSafeSegmentVanishes | script.js:1147-1185 | a stroke with no safe segment, including a one-point stroke, is removed |
| Eraser.NoSafeNoRuns | script.js:1173-1185 | no safe segment means no run |
| Eraser.ShapeSurvival | script.js:1218-1231 | a rect, line or circle survives unchanged exactly when its box centre plus pivot is farther than the radius from the eraser, and is removed otherwise |
| Eraser.OthersSurvive | script.js:1236-1238 | fills and point-less brushes survive unchanged |
| Exposure.LastKeyBelow | script.js:378-381 | the greatest keyframe index below f, or -1: no keyframe lies between it and f |
| Exposure.FirstKeyFrom | script.js:353-356 | the first keyframe at or after `from`, or the row count, with no keyframe in between |
| Exposure.Replace | script.js:353-356 | cells in [from, to) become the source list and the others are unchanged |
| Exposure.RunShown | script.js:351-357 | refilling the run after a keyframe changes what exactly those frames show |
| Exposure.FlagShown | script.js:548-550 | flagging a cell makes exactly the frames up to the next keyframe show that cell |
| Exposure.UnflagShown | script.js:359-373 | unflagging and refilling makes the run show the previous keyframe's list, or an empty list when there is none |
| Exposure.Col | script.js:351-357 | the column of one layer, frame by frame |
| Exposure.KeyEditExposure | script.js:335-357 | writing a keyframe and propagating it changes the exposure of exactly the frames from it up to the next keyframe on that layer |
| Exposure.PropagationKeepsExposure | script.js:351-357 | propagating a keyframe's own list changes no frame's exposure on any layer |
| Exposure.DuplicateOfExposedIsInvisible | script.js:341-349 | duplicating the previous keyframe into a non-key cell changes no frame's exposure |
| Exposure.DeleteExposure | script.js:359-373 | deleting a keyframe makes exactly its run show the previous keyframe's list, or an empty list when there is none |
| Exposure.FlagExposure | script.js:548-550 | flagging a cell on mouse down makes exactly its run show that cell's own list |
| Exposure.LengthChangeExposure | script.js:262-286 | after a length change every frame shows what it showed before, and new frames show what the old last frame showed |
| Exposure.AddLayerExposure | script.js:226-236 | adding a layer keeps every old layer's exposure, and the new layer shows nothing |
| Exposure.EditCellExposure | script.js:638-686 | an in-place edit of cell (k, l) changes exactly the frames whose latest keyframe on l is k |
| Exposure.UnflagScans | script.js:359-373 | after unflagging, the forward scan from the cell reaches the old next keyframe and the backward scan is unchanged |
| Exposure.RequestedLength | script.js:263 | the requested length is the floor of any value of at least 1, and 1 for any value below 1 |
| Exposure.FalseRow | script.js:270 | a new row of unflagged cells, one per layer |
| Exposure.EmptyRow | script.js:271 | a new row of empty lists, one per layer |
| Exposure.NatToString | script.js:227 | the number written in decimal: one or more digits, most significant first, denoting n, with no leading zero |
| Exposure.Digit | script.js:227 | a digit character denotes its value |
| Exposure.LayerName | script.js:227 | the layer name is "Layer " followed by the number in decimal |
| Exposure.KeyEditView | script.js:335-357 | after a keyframe edit at (s, l) the run from s up to the next keyframe shows the new list, and every other frame of every layer what it showed |
| Exposure.FlagView | script.js:548-550 | after flagging (s, l) the run from s up to the next keyframe shows the cell's own list, and every other frame of every layer what it showed |
| Exposure.DuplicateView | script.js:341-349 | duplicating the previous keyframe into a non-key cell leaves what every frame of every layer shows |
| Exposure.DeleteView | script.js:359-373 | after deleting keyframe (s, l) its run shows the previous keyframe's list, or nothing, and every other frame of every layer what it showed |
| Exposure.ResizeView | script.js:262-286 | after a length change each kept frame shows what it showed and each new frame what the old last frame showed |
| Exposure.AddLayerView | script.js:226-236 | after adding a layer the old layers show what they showed and the new layer shows nothing |
| Exposure.EditView | script.js:638-686 | after an in-place edit of cell (k, l) exactly the frames whose latest keyframe on l is k show the new list |
| Exposure.Timeline.constructor | script.js:54-80 | 10 unflagged rows with one layer, the seeded rectangle in cell (0, 0), and both cursors at 0 |
| Exposure.Timeline.FindPreviousReal | script.js:378-381 | the backward loop returns the greatest keyframe index below the frame, or -1 |
| Exposure.Timeline.GetExposedObjectFrame | script.js:393-400 | the backward loop returns the list the cell shows, or an empty list when no keyframe is at or before it |
| Exposure.Timeline.CopyForward | script.js:353-356 | the copy loop fills [from, next keyframe) on one layer with the source list and changes nothing else |
| Exposure.Timeline.PropagateObjectsFrom | script.js:351-357 | cells strictly after s up to the next keyframe become cell s's list; flags, other layers and other cells are unchanged |
| Exposure.Timeline.SaveFrame | script.js:532-535 | the current cell becomes a keyframe and is propagated; its old list is then shown from the current frame up to the next keyframe, and every other frame and layer shows what it showed |
| Exposure.Timeline.MarkCurrentKeyframe | script.js:548-550 | mouse down flags the current cell and changes nothing else; the frames up to the next keyframe then show that cell's own list |
| Exposure.Timeline.OverwriteFrameBlank | script.js:335-339 | the current cell becomes an empty keyframe, propagated to the next keyframe, so exactly those frames show nothing on that layer |
| Exposure.Timeline.OverwriteFrameDuplicate | script.js:341-349 | with no earlier keyframe nothing changes; otherwise the current cell becomes a keyframe holding the earlier keyframe's list, propagated, which its run then shows; on a non-key cell no frame shows anything different |
| Exposure.Timeline.DeleteFrame | script.js:359-373 | a no-op on a non-key cell; otherwise the cell is unflagged and emptied, and with an earlier keyframe p every cell up to the next keyframe takes p's list; the deleted run then shows p's list, or nothing without p |
| Exposure.Timeline.SetTimelineLength | script.js:262-286 | exactly max(1, floor(n)) rows; surviving rows untouched; new rows unflagged and empty; the current frame clamped into range; kept frames show what they showed and new ones what the old last frame showed |
| Exposure.Timeline.AddLayer | script.js:226-236 | one unflagged empty cell appended to every row, the layer named after its number, and the new layer active; old layers show what they showed and the new one nothing |
| Exposure.Timeline.SelectCell | script.js:291-297 | clicking a cell moves both cursors to it and changes nothing else |
| Exposure.Timeline.ReplaceObject | script.js:590-599 | one object in one cell is replaced in place and nothing else changes; exactly the frames whose latest keyframe is that cell show the change |
| Exposure.Timeline.CommitObject | script.js:798-827 | the new object is appended to the current cell, which becomes a keyframe and is propagated; the frames up to the next keyframe show the old list plus the object, every other frame what it showed |
| Exposure.Timeline.EraseWithCircle | script.js:1124-1246 | every layer's cell at the current frame is replaced by its erased list; other frames, flags and cursors are unchanged |
| Selection.ToLocal | script.js:160-176 | the local point exists exactly when both scales are non-zero, and times the scale it is the un-rotated offset from the pivot |
| Selection.OutlineHits | script.js:154-197 | an object placed at its pivot with no rotation and unit scale, as every commit places it, is hit at each outline point moved to the pivot |
| Selection.FrameView | script.js:145-147 | the frame's view holds, per layer, the list that layer shows at the current frame |
| Selection.Under | script.js:154-197 | the function-value form of `Hits` for one pointer position: it holds of exactly the objects `Hits` accepts there |
| Selection.LastHit | script.js:149-197 | the last object of a list that is hit, or -1, with no hit after it |
| Selection.FindHit | script.js:145-202 | the topmost layer holding a hit and the last hit object in it, or none when nothing is hit |
| Selection.PickObject | script.js:142-202 | the first hit in search order, which also becomes the active layer; nothing is changed on a miss |
| Selection.Opposite | script.js:675 | the opposite corner index stays within 0..3 |
| Selection.OppositeCorner | script.js:669-675 | (h + 2) % 4 is the diagonally opposite corner, and taking it twice returns to h |
| Selection.HandleUnderMouse | script.js:1317-1363 | the rotate handle when the pointer is within 8 of it, otherwise the first corner within 8 on both axes, otherwise none (exactly when no handle test passes) |
| Selection.HandlesApart | script.js:1338-1361 | on a box wide enough, no two corner squares overlap and the rotate circle overlaps none |
| Selection.RotateBand | script.js:1339-1342 | a pointer on the rotate handle is within 8 of it on each axis |
| Selection.PointerOnCorner | script.js:1346-1361 | on a box wide enough, a pointer exactly on corner i reports corner i and only it |
| Selection.LazyTransform | script.js:590-599 | the created transform sits at the box centre with no rotation and unit scale |
| Selection.Selectable | script.js:590-599 | an object without a transform gains the lazy one; an object with one is unchanged |
| Selection.Moved | script.js:643-645 | moving keeps rotation and scale, and puts the pivot at the pointer minus the grab offset |
| Selection.MoveFollowsPointer | script.js:604-605 | the pivot moves by exactly the pointer's displacement since the press, and stays put at the press point |
| Selection.SnapNearest | script.js:651-654 | snapping moves the angle by at most half a step and is idempotent |
| Selection.SnapMultiple | script.js:651-654 | a multiple of the step is left unchanged |
| Selection.Turned | script.js:646-655 | rotating keeps pivot and scale; the rotation grows by the pointer's angle change, snapped to within half a step when shift is held |
| Selection.Resized | script.js:656-681 | resizing keeps pivot and rotation and sets each scale from the distance to the opposite corner |
| Selection.AxisSize | script.js:677-681 | the new visual size on an axis is max(4, distance to the opposite corner) |
| Selection.ResizeAtCornerKeepsSize | script.js:669-681 | dragging a corner handle exactly onto its corner keeps each scale's magnitude |
| Selection.TransformTool.constructor | script.js:1312-1313 | nothing selected, no drag, no pending press, no action |
| Selection.TransformTool.GrabHandle | script.js:561-581 | a handle under the pointer starts a drag with that handle's action and records the start angle for rotation; otherwise nothing changes |
| Selection.TransformTool.SelectAt | script.js:584-613 | the picked object is selected, gains a lazy transform in its cell and starts a move with its grab offset; a miss clears the selection |
| Selection.TransformTool.Hold | script.js:561-613 | the part of a press after the cell is flagged: the same handle-or-pick outcome as `Press`, with the flags and the layer list unchanged |
| Selection.TransformTool.Press | script.js:542-613 | mouse down flags the current cell and marks a press as pending; a handle is returned exactly when the selection is stored and a handle is under the pointer, and then the drag starts with that handle's action (with the start angle and rotation for the rotate handle) and nothing stored changes; otherwise the object under the pointer is picked: on a hit it is selected, gains a lazy transform in its cell, its layer becomes the active layer, and it starts a move with its grab offset, and on a miss the selection is cleared and nothing stored changes |
| Selection.TransformTool.Drag | script.js:638-686 | while dragging, the selected object's transform in its cell is moved, turned or resized; otherwise nothing changes |
| Selection.TransformTool.Release | script.js:757-827 | ending a drag resets the action and saves the current frame; a pending press without a drag is closed and also saves the current frame; the saved list is then shown up to the next keyframe; with neither nothing changes |
| FloodFill.PixelAt | script.js:853 | a pixel exists exactly at indices inside the data |
| FloodFill.Byte | script.js:854 | a channel stored in the pixel data is clamped to 0..255 |
| FloodFill.SetPixel | script.js:854 | writing a pixel keeps the data length |
| FloodFill.SetThenGet | script.js:853-854 | reading a written in-bounds pixel gives the written colour with alpha 255, and every other pixel is unchanged |
| FloodFill.Absorbable | script.js:873-878 | the function-value form of `Absorbs` (in bounds and equal to the target colour): it holds of exactly the pixels `Absorbs` accepts |
| FloodFill.IndexInRange | script.js:874 | an in-bounds pixel's index lies inside the data |
| FloodFill.IndexInjective | script.js:874 | distinct in-bounds pixels have distinct indices |
| FloodFill.Grow | script.js:881-882 | the running box only grows, and contains the absorbed pixel |
| FloodFill.FloodFillObject | script.js:861-889 | null exactly when the start pixel already has the fill colour; otherwise the absorbed set is exactly the pixels reachable from the start through target-coloured pixels, and the fill's position, width and height form its tight box |
| FloodFill.Visit | script.js:872-885 | one pop keeps the search invariant and either absorbs a new pixel or shrinks the stack |
| FloodFill.ScanDone | script.js:871-888 | an empty stack means the absorbed set is exactly the reachable region, with its tight box |
| FloodFill.ClosedHoldsReach | script.js:871-886 | a set closed under absorbable neighbours and containing the start holds every reachable pixel |
| FloodFill.ReachNeedsStart | script.js:873-878 | nothing is reachable unless the start pixel itself is absorbable |

## Left out

- DOM, rendering and UI wiring: tool buttons, menus, `renderLayers`, `renderTimeline`, `refreshCanvas`, drawing and mask compositing, `drawSelectionBox`, touch forwarding and window resizing. `commitObjectCanvas` calls `drawObjectOnContext`, which is not defined in `script.js`.
- The raster `frames` matrix, `makeKeyframeAt`, `getExposedFrame` and `isImageDataEmpty`. These are bitmap bookkeeping beside the object store.
- Floating point: reals are exact. NaN, Infinity and rounding are not modelled, so a timeline-length input that parses to NaN is out of scope.
- `Math.sin`, `Math.cos`, `Math.atan2`: these are function parameters with no properties assumed. `Math.PI / 12` is the parameter `step`.
- The Catmull-Rom sampling loop `t += 1/segments`: its sample count depends on float rounding. `Scene.Smoothed` takes the list of parameters as an input.
- Eraser path interpolation between pointer positions and the eraser mouse handlers. `EraseWithCircle` models one call at one point.
- Playback (`playTimeline`, `loop`, `stopTimeline`): this is timing on animation frames.
- `hexToRgba`: the fill colour is passed both as the stored string and as an already decoded `Rgba`.
- Null entries in object lists (`if (!obj)`): the model's lists hold objects only.
- Selection.TransformTool: the selection is a reference (frame, layer, index) into the store, not a JavaScript object alias. An object selected on one frame is edited through that reference after the cursors move. What the reference loses is detachment: once the selected object's cell is replaced (the eraser rebuilds every stroke, a blank overwrite empties the cell), the source's `selectedObject` is an object no longer in the store, and a later drag changes nothing stored; the model instead edits whatever object now sits at that index, or does nothing when the index is out of range.
- Exposure.Timeline.EraseWithCircle: states the new cells of the current frame but not what every frame shows afterwards.
- Selection.ToLocal: a zero scale yields no local point and so no hit. The source divides and gets non-finite values, for which every comparison is false.
- Selection.Resized: with a zero box dimension the model keeps that axis's scale. The source stores a division by zero (Infinity or NaN).
- Eraser: rotation and scale of a stroke's transform are ignored, as in the source. Only the pivot translation is applied.
- FloodFill.FloodFillObject: `floodFillObject` is not called by any input handler in `script.js`, so no `Timeline` operation commits its result.
- FloodFill.FloodFillObject: the `visited` bitmap holds booleans rather than bytes, and a pixel is one `Rgba` value rather than four consecutive bytes.
- FloodFill.FloodFillObject: that each pixel is visited at most once is carried by the `visited` marks, not stated as a separate postcondition.
- FloodFill.Byte: a non-integer channel value, which a `Uint8ClampedArray` would round, does not arise because channels are integers.
