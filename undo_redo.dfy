/**
 * The undo/redo log (`UndoRedoManager` in core/undo_redo_manager.py): two
 * stacks of action records and, per action type, an undo and a redo handler
 * that act on the segment store and on the main window's point lists.
 *
 * Only the single-view form of each action is modelled; the handlers' scene
 * and table refreshes and their notifications are not.
 */
module UndoRedo {
  import opened Wrappers
  import opened Geometry
  import opened Seqs
  import opened Segments
  import opened SegmentStore

  /** `{segment_index: vertices}` of a polygon move, in dict order. */
  type VertexEdits = seq<(int, seq<Point>)>

  /** An action record; `None` stands for a key that is absent (or holds None). */
  datatype Action =
    | AddSegmentAction(segmentIndex: Option<int>, segmentData: Option<Segment>)
    | AddPointAction(positive: bool, pointCoords: Option<Point>, multiView: bool)
    | AddPolygonPointAction(pointCoords: Option<Point>)
    | MovePolygonAction(initialVertices: Option<VertexEdits>, finalVertices: Option<VertexEdits>)
    | MoveVertexAction(segmentIndex: Option<int>, vertexIndex: Option<int>, oldPos: Option<Point>,
                       newPos: Option<Point>, viewer: Option<int>)
    | MultiViewPolygonPointAction(pointCoords: Option<Point>)
    | EraseSegmentsAction(removedSegments: seq<RemovedEntry>)
    | DeleteSegmentsAction(deletedSegments: seq<Segment>)
    | OtherAction(name: string)

  /** The part of the application state the handlers touch. */
  datatype World = World(segments: seq<Segment>, active: Option<int>, lastToggled: Option<int>,
                         positive: seq<Point>, negative: seq<Point>, polygon: seq<Point>)

  /**
   * The outcome of one handler: the new state, whether the action stays on the
   * stack it was just pushed to, the action as it is then stored, whether the
   * handler raised part-way, and the action it passed to `record_action`, if any
   * (the redo of a click re-runs the click handler, which records the click anew).
   */
  datatype Step = Step(world: World, keep: bool, action: Action, raised: bool, recorded: Option<Action> := None)

  /**
   * What the main window offers at the time of a redo: whether it has the
   * multi-view entry points, whether `add_point`'s readiness guards pass (no model
   * initialising, no SAM update running, ai_segment_manager.py:376-400), the
   * display-to-SAM coordinate transform, whether Shift is held, the polygon join
   * threshold, and the image size and image operations a Shift-closed polygon
   * erases with.
   */
  datatype Ui = Ui(canAddMultiPoint: bool, canClickMultiPolygon: bool, aiReady: bool, toSam: Point -> Point,
                   shiftHeld: bool, joinThreshold: real, imageH: int, imageW: int, raster: Rasterizer,
                   resize: (Mask, int, int) -> Mask, labeller: Labeller)

  function PopLast<T>(s: seq<T>): seq<T>
  {
    if s == [] then [] else s[..|s| - 1]
  }

  /** `segment_manager.add_segment(data)` on the state. */
  function AddOne(w: World, data: Segment): World
  {
    var seg := WithClass(data, w.active, NextIdFor(w.segments));
    w.(segments := w.segments + [seg], lastToggled := seg.classId)
  }

  /** `add_segment` for each record in turn. */
  function AddAll(w: World, datas: seq<Segment>): World
  {
    if datas == [] then w else AddOne(AddAll(w, datas[..|datas| - 1]), datas[|datas| - 1])
  }

  /** Segments that already carry classes are appended unchanged, in order. */
  lemma {:induction false} AddAllAppends(w: World, datas: seq<Segment>)
    requires forall k | 0 <= k < |datas| :: datas[k].classId.Some?
    ensures AddAll(w, datas).segments == w.segments + datas
    ensures AddAll(w, datas).active == w.active && AddAll(w, datas).positive == w.positive
    ensures AddAll(w, datas).negative == w.negative && AddAll(w, datas).polygon == w.polygon
  {
    if datas != [] {
      var init := datas[..|datas| - 1];
      AddAllAppends(w, init);
      assert w.segments + init + [datas[|datas| - 1]] == w.segments + datas;
    }
  }

  function Originals(removed: seq<RemovedEntry>): (r: seq<Segment>)
    ensures |r| == |removed| && forall k | 0 <= k < |r| :: r[k] == removed[k].segment
  {
    seq(|removed|, k requires 0 <= k < |removed| => removed[k].segment)
  }

  datatype Written = Written(segments: seq<Segment>, raised: bool)

  /**
   * `segments[i]["vertices"] = vertices` for each edit in order.  Python
   * indexing applies; an index below `-len` raises IndexError and stops the
   * loop after the earlier writes.  With `skipHigh` an index `>= len` is passed
   * over (the `if i < len(...)` guard of the redo).
   */
  function WriteAll(segs: seq<Segment>, edits: VertexEdits, skipHigh: bool): (r: Written)
    decreases |edits|
    ensures |r.segments| == |segs|
    ensures forall k | 0 <= k < |segs| :: r.segments[k].classId == segs[k].classId
  {
    if edits == [] then Written(segs, false)
    else
      var i := edits[0].0;
      if skipHigh && i >= |segs| then WriteAll(segs, edits[1..], skipHigh)
      else match PyIndex(i, |segs|)
        case None => Written(segs, true)
        case Some(p) => WriteAll(segs[p := segs[p].(vertices := Some(edits[0].1))], edits[1..], skipHigh)
  }

  /**
   * One vertex write: into the viewer's view when the segment has one for it,
   * else into the segment's own vertex list.  None when that list is missing or
   * the vertex index is out of range (TypeError/KeyError/IndexError).
   */
  function SetVertex(seg: Segment, vi: int, pos: Point, viewer: Option<int>): (r: Option<Segment>)
    ensures r.Some? ==> r.value.classId == seg.classId
  {
    if viewer.Some? && seg.views.Some? && viewer.value in seg.views.value then
      var view := seg.views.value[viewer.value];
      if view.vertices.None? then None
      else match PyIndex(vi, |view.vertices.value|)
        case None => None
        case Some(p) =>
          var vs := view.vertices.value[p := pos];
          Some(seg.(views := Some(seg.views.value[viewer.value := view.(vertices := Some(vs))])))
    else if seg.vertices.None? then None
    else match PyIndex(vi, |seg.vertices.value|)
      case None => None
      case Some(p) => Some(seg.(vertices := Some(seg.vertices.value[p := pos])))
  }

  /** The shared body of `_undo_move_vertex`/`_redo_move_vertex`, writing `pos`. */
  function MoveVertexStep(a: Action, w: World, pos: Option<Point>): Step
    requires a.MoveVertexAction?
  {
    var n := |w.segments|;
    if a.segmentIndex.None? || a.vertexIndex.None? || pos.None? then Step(w, false, a, false)
    else if a.segmentIndex.value >= n then Step(w, false, a, false)
    else match PyIndex(a.segmentIndex.value, n)
      case None => Step(w, true, a, true)
      case Some(p) =>
        match SetVertex(w.segments[p], a.vertexIndex.value, pos.value, a.viewer)
        case None => Step(w, true, a, true)
        case Some(s) => Step(w.(segments := w.segments[p := s]), true, a, false)
  }

  /** What `undo` does with the action it has just moved to the redo stack. */
  function UndoStep(a: Action, w: World): Step
  {
    match a
    case AddSegmentAction(idx, _) =>
      if idx.Some? && 0 <= idx.value < |w.segments| then
        Step(w.(segments := DelAt(w.segments, idx.value)), true, a.(segmentData := Some(w.segments[idx.value])), false)
      else Step(w, true, a, false)
    case AddPointAction(positive, _, multiView) =>
      if multiView then Step(w, true, a, false)
      else if positive then Step(w.(positive := PopLast(w.positive)), true, a, false)
      else Step(w.(negative := PopLast(w.negative)), true, a, false)
    case AddPolygonPointAction(_) => Step(w.(polygon := PopLast(w.polygon)), true, a, false)
    case MovePolygonAction(initial, _) =>
      if initial.None? then Step(w, true, a, true)
      else
        var r := WriteAll(w.segments, initial.value, false);
        Step(w.(segments := r.segments), true, a, r.raised)
    case MoveVertexAction(_, _, oldPos, _, _) => MoveVertexStep(a, w, oldPos)
    case MultiViewPolygonPointAction(_) => Step(w, true, a, false)
    case EraseSegmentsAction(removed) =>
      if removed == [] then Step(w, false, a, false) else Step(AddAll(w, Originals(removed)), true, a, false)
    case DeleteSegmentsAction(deleted) =>
      if deleted == [] then Step(w, false, a, false) else Step(AddAll(w, deleted), true, a, false)
    case OtherAction(_) => Step(w, false, a, false)
  }

  /** `delete_segments(list(range(len - count, len)))` on the state. */
  function DropLastSegments(w: World, count: nat): World
  {
    w.(segments := DeleteEach(w.segments, SortDesc(Range(|w.segments| - count, |w.segments|))))
  }

  /** Python's `int(x)` on a float: truncation toward zero. */
  function Trunc(r: real): (t: real)
    ensures t.Floor as real == t
    ensures 0.0 <= r ==> t <= r < t + 1.0
    ensures r < 0.0 ==> t - 1.0 < r <= t
  {
    if r >= 0.0 then r.Floor as real
    else
      var f := (-r).Floor;
      assert f as real <= -r < f as real + 1.0;
      assert (-f) as real == -(f as real);
      (-f) as real
  }

  /** The record `add_point` makes of a click: `"point_coords": [int(pos.x()), int(pos.y())]`. */
  function PointRecord(positive: bool, c: Point): Action
  {
    AddPointAction(positive, Some(Point(Trunc(c.x), Trunc(c.y))), false)
  }

  /**
   * `mw._add_point(pos, positive)` as the single-view redo calls it: refused by
   * the readiness guards (the action still stays on the undo stack), otherwise
   * the transformed point is appended and the click is recorded.
   */
  function AddPointStep(a: Action, w: World, positive: bool, c: Point, ui: Ui): Step
  {
    if !ui.aiReady then Step(w, true, a, false)
    else
      var p := ui.toSam(c);
      var w1 := if positive then w.(positive := w.positive + [p]) else w.(negative := w.negative + [p]);
      Step(w1, true, a, false, Some(PointRecord(positive, c)))
  }

  /** `clear_all_points` in single view: both prompt lists and the polygon are emptied. */
  function ClearedPoints(w: World): World
  {
    w.(positive := [], negative := [], polygon := [])
  }

  /** The segment `finalize_polygon` creates from the polygon's points. */
  function PolygonSegment(points: seq<Point>): Segment
  {
    Segment(Polygon, None, Some(points), None, None, map[])
  }

  /**
   * `finalize_polygon(erase_mode)` for a polygon of at least 3 points: with
   * Shift the polygon erases (recorded only when it hit a segment), otherwise a
   * Polygon segment is added and recorded by its index; then all points are cleared.
   */
  function FinalizePolygon(a: Action, w: World, ui: Ui): Step
    requires |w.polygon| >= 3
  {
    if ui.shiftHeld then
      var e := RasterizePolygon(ui.raster, w.polygon, ui.imageH, ui.imageW).value;
      var hits := HitPositions(w.segments, e, ui.imageH, ui.imageW, ui.raster, ui.resize);
      var segs := Erased(w.segments, e, ui.imageH, ui.imageW, ui.raster, ui.resize, ui.labeller);
      Step(ClearedPoints(w.(segments := segs)), true, a, false,
           if hits == [] then None else Some(EraseSegmentsAction(RemovedEntries(w.segments, hits))))
    else
      var w1 := AddOne(w, PolygonSegment(w.polygon));
      Step(ClearedPoints(w1), true, a, false, Some(AddSegmentAction(Some(|w1.segments| - 1), None)))
  }

  /**
   * `mw._handle_polygon_click(pos)` as the redo calls it: a click that closes the
   * polygon finalizes it, any other click appends a vertex and is recorded.
   */
  function PolygonClickStep(a: Action, w: World, c: Point, ui: Ui): Step
  {
    if PolygonCloses(w.polygon, c, ui.joinThreshold) then FinalizePolygon(a, w, ui)
    else Step(w.(polygon := w.polygon + [c]), true, a, false, Some(AddPolygonPointAction(Some(c))))
  }

  /**
   * What `redo` does with the action it has just moved back to the undo stack.
   * A polygon point is missing when it is None or the null point (0, 0), which
   * a `QPointF` tests false as.
   */
  function RedoStep(a: Action, w: World, ui: Ui): Step
  {
    match a
    case AddSegmentAction(_, data) =>
      if data.None? then Step(w, false, a, false) else Step(AddOne(w, data.value), true, a, false)
    case AddPointAction(positive, coords, multiView) =>
      if coords.None? then Step(w, false, a, false)
      else if multiView then Step(w, ui.canAddMultiPoint, a, false)
      else AddPointStep(a, w, positive, coords.value, ui)
    case AddPolygonPointAction(coords) =>
      if coords.None? || coords.value == Point(0.0, 0.0) then Step(w, false, a, false)
      else PolygonClickStep(a, w, coords.value, ui)
    case MovePolygonAction(_, final) =>
      if final.None? || final.value == [] then Step(w, false, a, false)
      else
        var r := WriteAll(w.segments, final.value, true);
        Step(w.(segments := r.segments), true, a, r.raised)
    case MoveVertexAction(_, _, _, newPos, _) => MoveVertexStep(a, w, newPos)
    case MultiViewPolygonPointAction(coords) =>
      if coords.None? || !ui.canClickMultiPolygon then Step(w, false, a, false) else Step(w, true, a, false)
    case EraseSegmentsAction(removed) =>
      if removed == [] then Step(w, false, a, false) else Step(DropLastSegments(w, |removed|), true, a, false)
    case DeleteSegmentsAction(deleted) =>
      if deleted == [] then Step(w, false, a, false) else Step(DropLastSegments(w, |deleted|), true, a, false)
    case OtherAction(_) => Step(w, false, a, false)
  }

  // ----- the two stacks -----

  /** The two history stacks and the state their handlers act on. */
  datatype History = History(undo: seq<Action>, redo: seq<Action>, world: World)

  /** `undo()`: the top moves to the redo stack, and its handler runs (and may take it off again). */
  function Undone(h: History): History
  {
    if h.undo == [] then h
    else
      var st := UndoStep(h.undo[|h.undo| - 1], h.world);
      History(PopLast(h.undo), h.redo + (if st.keep then [st.action] else []), st.world)
  }

  /**
   * `redo()`: the top moves back to the undo stack and its handler runs.  A
   * handler's `record_action` pushes the fresh record and empties the redo
   * stack; `rerecord` false leaves that record out, as the evidently intended
   * redo would.
   */
  function RedoneWith(h: History, ui: Ui, rerecord: bool): History
  {
    if h.redo == [] then h
    else
      var st := RedoStep(h.redo[|h.redo| - 1], h.world, ui);
      var undo := h.undo + (if st.keep then [st.action] else []);
      if rerecord && st.recorded.Some? then History(undo + [st.recorded.value], [], st.world)
      else History(undo, PopLast(h.redo), st.world)
  }

  /** `redo()` as written. */
  function Redone(h: History, ui: Ui): History
  {
    RedoneWith(h, ui, true)
  }

  /** `add_segment` never reorders or rewrites the segments already present. */
  lemma {:induction false} AddAllExtends(w: World, datas: seq<Segment>)
    ensures |AddAll(w, datas).segments| == |w.segments| + |datas|
    ensures AddAll(w, datas).segments[..|w.segments|] == w.segments
    ensures AddAll(w, datas).active == w.active && AddAll(w, datas).positive == w.positive
    ensures AddAll(w, datas).negative == w.negative && AddAll(w, datas).polygon == w.polygon
  {
    if datas != [] {
      AddAllExtends(w, datas[..|datas| - 1]);
    }
  }

  // ----- round trips -----

  /**
   * A segment just added (the action records index `len - 1`): undo takes it
   * out again and remembers it, and redo puts the same segment back.
   */
  lemma AddSegmentUndoRedo(w: World, data: Segment, ui: Ui)
    ensures var w1 := AddOne(w, data);
            var u := UndoStep(AddSegmentAction(Some(|w1.segments| - 1), None), w1);
            && u.keep && !u.raised
            && u.world == w1.(segments := w.segments)
            && RedoStep(u.action, u.world, ui) == Step(w1, true, u.action, false)
  {
    var w1 := AddOne(w, data);
    assert DelAt(w1.segments, |w1.segments| - 1) == w.segments;
  }

  /** A replayed single-view point click that the guards let through appends the transformed point and records itself. */
  lemma PointClickAppends(w: World, positive: bool, c: Point, ui: Ui)
    requires ui.aiReady
    ensures var a := AddPointAction(positive, Some(c), false);
            var p := ui.toSam(c);
            RedoStep(a, w, ui)
            == Step(if positive then w.(positive := w.positive + [p]) else w.(negative := w.negative + [p]),
                    true, a, false, Some(PointRecord(positive, c)))
  {
  }

  /** Undo then redo of a single-view point click, as the handlers are written, and redo then undo. */
  lemma AddPointRoundTrip(h: History, positive: bool, c: Point, ui: Ui)
    requires ui.aiReady
    ensures var a := AddPointAction(positive, Some(c), false);
            var l := if positive then h.world.positive else h.world.negative;
            h.undo != [] && h.undo[|h.undo| - 1] == a && l != [] && l[|l| - 1] == ui.toSam(c) ==>
              Redone(Undone(h), ui) == History(h.undo + [PointRecord(positive, c)], [], h.world)
    ensures var a := AddPointAction(positive, Some(c), false);
            h.redo != [] && h.redo[|h.redo| - 1] == a ==>
              Undone(Redone(h, ui)) == History(h.undo + [a], [PointRecord(positive, c)], h.world)
  {
    var a := AddPointAction(positive, Some(c), false);
    var p := ui.toSam(c);
    var l := if positive then h.world.positive else h.world.negative;
    if h.undo != [] && h.undo[|h.undo| - 1] == a && l != [] && l[|l| - 1] == p {
      AddPointUndoRedo(h, positive, c, ui);
    }
    if h.redo != [] && h.redo[|h.redo| - 1] == a {
      AddPointRedoUndo(h, positive, c, ui);
    }
  }

  lemma AddPointUndoRedo(h: History, positive: bool, c: Point, ui: Ui)
    requires ui.aiReady
    requires h.undo != [] && h.undo[|h.undo| - 1] == AddPointAction(positive, Some(c), false)
    requires var l := if positive then h.world.positive else h.world.negative;
             l != [] && l[|l| - 1] == ui.toSam(c)
    ensures Redone(Undone(h), ui) == History(h.undo + [PointRecord(positive, c)], [], h.world)
  {
    var a := AddPointAction(positive, Some(c), false);
    var p := ui.toSam(c);
    assert PopLast(h.undo) + [a] == h.undo;
    var w0 := if positive then h.world.(positive := PopLast(h.world.positive)) else h.world.(negative := PopLast(h.world.negative));
    var u := Undone(h);
    assert u == History(PopLast(h.undo), h.redo + [a], w0);
    PointClickAppends(w0, positive, c, ui);
    if positive {
      assert PopLast(h.world.positive) + [p] == h.world.positive;
      assert w0.(positive := w0.positive + [p]) == h.world;
    } else {
      assert PopLast(h.world.negative) + [p] == h.world.negative;
      assert w0.(negative := w0.negative + [p]) == h.world;
    }
  }

  lemma AddPointRedoUndo(h: History, positive: bool, c: Point, ui: Ui)
    requires ui.aiReady
    requires h.redo != [] && h.redo[|h.redo| - 1] == AddPointAction(positive, Some(c), false)
    ensures Undone(Redone(h, ui)) == History(h.undo + [AddPointAction(positive, Some(c), false)], [PointRecord(positive, c)], h.world)
  {
    var a := AddPointAction(positive, Some(c), false);
    var p := ui.toSam(c);
    PointClickAppends(h.world, positive, c, ui);
    var w1 := if positive then h.world.(positive := h.world.positive + [p]) else h.world.(negative := h.world.negative + [p]);
    var r := Redone(h, ui);
    assert r == History(h.undo + [a] + [PointRecord(positive, c)], [], w1);
    assert PopLast(r.undo) == h.undo + [a];
    assert PopLast(h.world.positive + [p]) == h.world.positive;
    assert PopLast(h.world.negative + [p]) == h.world.negative;
  }

  /** A redo of a point click that `add_point` refuses adds no point, yet leaves the click on the undo stack. */
  lemma RefusedPointRedoKeepsAction(h: History, positive: bool, c: Point, ui: Ui)
    requires !ui.aiReady
    requires h.redo != [] && h.redo[|h.redo| - 1] == AddPointAction(positive, Some(c), false)
    ensures Redone(h, ui) == History(h.undo + [AddPointAction(positive, Some(c), false)], PopLast(h.redo), h.world)
  {
  }

  /** A replayed vertex click that does not close the polygon appends it and records itself. */
  lemma PolygonClickAppends(w: World, c: Point, ui: Ui)
    requires c != Point(0.0, 0.0) && !PolygonCloses(w.polygon, c, ui.joinThreshold)
    ensures var a := AddPolygonPointAction(Some(c));
            RedoStep(a, w, ui) == Step(w.(polygon := w.polygon + [c]), true, a, false, Some(a))
  {
  }

  /**
   * The same two round trips for a polygon vertex click that does not close the
   * polygon: the re-recorded click equals the original, so it ends up on the undo
   * stack twice.
   */
  lemma PolygonPointRoundTrip(h: History, c: Point, ui: Ui)
    requires c != Point(0.0, 0.0)
    ensures var a := AddPolygonPointAction(Some(c));
            var l := h.world.polygon;
            h.undo != [] && h.undo[|h.undo| - 1] == a && l != [] && l[|l| - 1] == c
            && !PolygonCloses(PopLast(l), c, ui.joinThreshold) ==>
              Redone(Undone(h), ui) == History(h.undo + [a], [], h.world)
    ensures var a := AddPolygonPointAction(Some(c));
            h.redo != [] && h.redo[|h.redo| - 1] == a && !PolygonCloses(h.world.polygon, c, ui.joinThreshold) ==>
              Undone(Redone(h, ui)) == History(h.undo + [a], [a], h.world)
  {
    var a := AddPolygonPointAction(Some(c));
    var l := h.world.polygon;
    if h.undo != [] && h.undo[|h.undo| - 1] == a && l != [] && l[|l| - 1] == c
       && !PolygonCloses(PopLast(l), c, ui.joinThreshold) {
      PolygonPointUndoRedo(h, c, ui);
    }
    if h.redo != [] && h.redo[|h.redo| - 1] == a && !PolygonCloses(h.world.polygon, c, ui.joinThreshold) {
      PolygonPointRedoUndo(h, c, ui);
    }
  }

  lemma PolygonPointUndoRedo(h: History, c: Point, ui: Ui)
    requires c != Point(0.0, 0.0)
    requires h.undo != [] && h.undo[|h.undo| - 1] == AddPolygonPointAction(Some(c))
    requires h.world.polygon != [] && h.world.polygon[|h.world.polygon| - 1] == c
    requires !PolygonCloses(PopLast(h.world.polygon), c, ui.joinThreshold)
    ensures Redone(Undone(h), ui) == History(h.undo + [AddPolygonPointAction(Some(c))], [], h.world)
  {
    var a := AddPolygonPointAction(Some(c));
    var l := h.world.polygon;
    assert PopLast(h.undo) + [a] == h.undo;
    assert PopLast(l) + [c] == l;
    var u := Undone(h);
    assert u == History(PopLast(h.undo), h.redo + [a], h.world.(polygon := PopLast(l)));
    PolygonClickAppends(u.world, c, ui);
    assert u.world.(polygon := PopLast(l) + [c]) == h.world;
  }

  lemma PolygonPointRedoUndo(h: History, c: Point, ui: Ui)
    requires c != Point(0.0, 0.0)
    requires h.redo != [] && h.redo[|h.redo| - 1] == AddPolygonPointAction(Some(c))
    requires !PolygonCloses(h.world.polygon, c, ui.joinThreshold)
    ensures var a := AddPolygonPointAction(Some(c));
            Undone(Redone(h, ui)) == History(h.undo + [a], [a], h.world)
  {
    var a := AddPolygonPointAction(Some(c));
    PolygonClickAppends(h.world, c, ui);
    var r := Redone(h, ui);
    assert r == History(h.undo + [a] + [a], [], h.world.(polygon := h.world.polygon + [c]));
    assert PopLast(r.undo) == h.undo + [a];
    assert PopLast(h.world.polygon + [c]) == h.world.polygon;
  }

  /**
   * The undo stack ends in a click that undo can take back and redo can replay
   * without closing a polygon or being refused: a single-view point whose
   * transformed position ends its list, or a polygon vertex that ends the polygon.
   */
  predicate ClickOnTop(h: History, ui: Ui)
  {
    h.undo != [] &&
    match h.undo[|h.undo| - 1]
    case AddPointAction(positive, coords, multiView) =>
      var l := if positive then h.world.positive else h.world.negative;
      coords.Some? && !multiView && ui.aiReady && l != [] && l[|l| - 1] == ui.toSam(coords.value)
    case AddPolygonPointAction(coords) =>
      var l := h.world.polygon;
      coords.Some? && coords.value != Point(0.0, 0.0) && l != [] && l[|l| - 1] == coords.value
      && !PolygonCloses(PopLast(l), coords.value, ui.joinThreshold)
    case _ => false
  }

  /**
   * As written, undo then redo of a click gives the world back but empties the
   * redo stack: every action undone before it can no longer be redone.
   */
  lemma ClickRedoDropsRedoHistory(h: History, ui: Ui)
    requires ClickOnTop(h, ui) && h.redo != []
    ensures Undone(h).redo == h.redo + [h.undo[|h.undo| - 1]]
    ensures Redone(Undone(h), ui).world == h.world && Redone(Undone(h), ui).redo == []
    ensures Redone(Undone(h), ui) != h
  {
    var a := h.undo[|h.undo| - 1];
    if a.AddPointAction? {
      AddPointRoundTrip(h, a.positive, a.pointCoords.value, ui);
    } else {
      PolygonPointRoundTrip(h, a.pointCoords.value, ui);
    }
  }

  /** A redo that does not re-record the click: undo then redo gives back both stacks and the world. */
  lemma IntendedRedoRestoresClick(h: History, ui: Ui)
    requires ClickOnTop(h, ui)
    ensures RedoneWith(Undone(h), ui, false) == h
  {
    var a := h.undo[|h.undo| - 1];
    assert PopLast(h.undo) + [a] == h.undo;
    var u := Undone(h);
    assert PopLast(u.redo) == h.redo;
    if a.AddPointAction? {
      var p := ui.toSam(a.pointCoords.value);
      var l := if a.positive then h.world.positive else h.world.negative;
      assert PopLast(l) + [p] == l;
    } else {
      var l := h.world.polygon;
      assert PopLast(l) + [a.pointCoords.value] == l;
    }
  }

  /** A handler records only while its action stays on the undo stack. */
  lemma RecordedIsKept(a: Action, w: World, ui: Ui)
    ensures RedoStep(a, w, ui).recorded.Some? ==> RedoStep(a, w, ui).keep && RedoStep(a, w, ui).action == a
  {
  }

  /** Two writes to the same vertex: the second one decides. */
  lemma SetVertexTwice(seg: Segment, vi: int, x: Point, y: Point, viewer: Option<int>)
    requires SetVertex(seg, vi, x, viewer).Some?
    ensures SetVertex(SetVertex(seg, vi, x, viewer).value, vi, y, viewer) == SetVertex(seg, vi, y, viewer)
  {
    var s1 := SetVertex(seg, vi, x, viewer).value;
    if viewer.Some? && seg.views.Some? && viewer.value in seg.views.value {
      var v := viewer.value;
      var view := seg.views.value[v];
      var vs := view.vertices.value;
      var p := PyIndex(vi, |vs|).value;
      var m0 := seg.views.value;
      assert s1 == seg.(views := Some(m0[v := view.(vertices := Some(vs[p := x]))]));
      assert vs[p := x][p := y] == vs[p := y];
      assert m0[v := view.(vertices := Some(vs[p := x]))][v := view.(vertices := Some(vs[p := y]))]
          == m0[v := view.(vertices := Some(vs[p := y]))];
    } else {
      var vs := seg.vertices.value;
      var p := PyIndex(vi, |vs|).value;
      assert vs[p := x][p := y] == vs[p := y];
    }
  }

  /**
   * After a vertex move has been applied (by redo or undo), applying the same
   * action with another position gives what that position alone gives, so
   * undo after redo puts back the old position and redo after undo the new one.
   */
  lemma MoveVertexLastWriteWins(a: Action, w: World, x: Option<Point>, y: Option<Point>)
    requires a.MoveVertexAction?
    requires MoveVertexStep(a, w, x).keep && !MoveVertexStep(a, w, x).raised
    requires y.Some?
    ensures MoveVertexStep(a, MoveVertexStep(a, w, x).world, y) == MoveVertexStep(a, w, y)
  {
    var p := PyIndex(a.segmentIndex.value, |w.segments|).value;
    SetVertexTwice(w.segments[p], a.vertexIndex.value, x.value, y.value, a.viewer);
    var s := SetVertex(w.segments[p], a.vertexIndex.value, x.value, a.viewer).value;
    assert w.segments[p := s][p := SetVertex(s, a.vertexIndex.value, y.value, a.viewer).value]
        == w.segments[p := SetVertex(w.segments[p], a.vertexIndex.value, y.value, a.viewer).value];
  }

  /**
   * Undo of an erase re-adds the removed segments (they carry classes, so they
   * come back unchanged) after the fragments the erase left.
   */
  lemma EraseUndoRestores(w: World, removed: seq<RemovedEntry>)
    requires removed != []
    requires forall k | 0 <= k < |removed| :: removed[k].segment.classId.Some?
    ensures UndoStep(EraseSegmentsAction(removed), w).world.segments == w.segments + Originals(removed)
  {
    AddAllAppends(w, Originals(removed));
  }

  /** Undo then redo of an erase leaves the segment list as it was. */
  lemma EraseUndoThenRedo(w: World, removed: seq<RemovedEntry>, ui: Ui)
    requires removed != []
    ensures var a := EraseSegmentsAction(removed);
            var u := UndoStep(a, w);
            var r := RedoStep(u.action, u.world, ui);
            u.keep && r.keep && r.world.segments == w.segments && r.world.polygon == w.polygon
  {
    var a := EraseSegmentsAction(removed);
    var w1 := AddAll(w, Originals(removed));
    UndoErase(removed, w);
    RedoErase(removed, w1, ui);
    AddAllExtends(w, Originals(removed));
    DropLast(w1, |removed|);
  }

  /** Redo then undo of an erase puts back the segments that were re-added at the end. */
  lemma EraseRedoThenUndo(base: seq<Segment>, w: World, removed: seq<RemovedEntry>, ui: Ui)
    requires removed != []
    requires forall k | 0 <= k < |removed| :: removed[k].segment.classId.Some?
    requires w.segments == base + Originals(removed)
    ensures var a := EraseSegmentsAction(removed);
            var r := RedoStep(a, w, ui);
            r.world.segments == base && UndoStep(r.action, r.world).world.segments == w.segments
  {
    var w1 := DropLastSegments(w, |removed|);
    RedoErase(removed, w, ui);
    DropLast(w, |removed|);
    assert w.segments[..|w.segments| - |removed|] == base;
    UndoErase(removed, w1);
    AddAllAppends(w1, Originals(removed));
  }

  /** Undo of an erase, one case of `UndoStep`. */
  lemma UndoErase(removed: seq<RemovedEntry>, w: World)
    requires removed != []
    ensures UndoStep(EraseSegmentsAction(removed), w) == Step(AddAll(w, Originals(removed)), true, EraseSegmentsAction(removed), false)
  {
  }

  /** Redo of an erase, one case of `RedoStep`. */
  lemma RedoErase(removed: seq<RemovedEntry>, w: World, ui: Ui)
    requires removed != []
    ensures RedoStep(EraseSegmentsAction(removed), w, ui)
            == Step(DropLastSegments(w, |removed|), true, EraseSegmentsAction(removed), false)
  {
  }

  /** Deleting the last `count` segments keeps the segments before them and everything else. */
  lemma DropLast(w: World, count: nat)
    requires count <= |w.segments|
    ensures DropLastSegments(w, count) == w.(segments := w.segments[..|w.segments| - count])
  {
    DeleteLast(w.segments, count);
  }

  /** Paired undo of a delete and redo of it restore the segment list. */
  lemma DeleteUndoThenRedo(w: World, deleted: seq<Segment>, ui: Ui)
    requires deleted != []
    ensures var a := DeleteSegmentsAction(deleted);
            var u := UndoStep(a, w);
            var r := RedoStep(u.action, u.world, ui);
            u.keep && r.keep && r.world.segments == w.segments
  {
    var w1 := AddAll(w, deleted);
    assert UndoStep(DeleteSegmentsAction(deleted), w) == Step(w1, true, DeleteSegmentsAction(deleted), false);
    assert RedoStep(DeleteSegmentsAction(deleted), w1, ui)
           == Step(DropLastSegments(w1, |deleted|), true, DeleteSegmentsAction(deleted), false);
    AddAllExtends(w, deleted);
    DropLast(w1, |deleted|);
  }

  // ----- the erase undo as written -----

  /**
   * What `_undo_erase_segments` hands to `add_segment`: the bookkeeping record
   * `{"index": i, "segment": ...}` itself, a dict with no "type" and no
   * "class_id" (the record is not unwrapped).
   */
  function WrapperAsSegment(e: RemovedEntry): (r: Segment)
    ensures r.kind == Untyped && r.classId.None? && r.vertices.None? && r.mask.None?
    ensures "index" in r.extra && r.extra["index"] == XInt(e.index)
  {
    Segment(Untyped, None, None, None, None, map["index" := XInt(e.index), "segment" := XOther])
  }

  /** The single-view undo of an erase as the handler is written. */
  function UndoEraseAsWritten(w: World, removed: seq<RemovedEntry>): World
  {
    AddAll(w, seq(|removed|, k requires 0 <= k < |removed| => WrapperAsSegment(removed[k])))
  }

  /** As written, the segment coming back has neither the type nor the mask or vertices it was erased with. */
  lemma UndoEraseAsWrittenLosesSegment(w: World, e: RemovedEntry)
    requires e.segment.kind != Untyped
    ensures var u := UndoEraseAsWritten(w, [e]);
            && |u.segments| == |w.segments| + 1
            && u.segments[|w.segments|] != e.segment
            && u.segments[|w.segments|].kind == Untyped
            && u.segments[|w.segments|].mask.None? && u.segments[|w.segments|].vertices.None?
  {
    var ds := seq(1, k requires 0 <= k < 1 => WrapperAsSegment([e][k]));
    assert ds[..0] == [];
    assert UndoEraseAsWritten(w, [e]) == AddOne(AddAll(w, []), ds[0]);
  }

  /** The main window's point lists. */
  class Canvas {
    var positivePoints: seq<Point>
    var negativePoints: seq<Point>
    var polygonPoints: seq<Point>

    constructor()
      ensures positivePoints == [] && negativePoints == [] && polygonPoints == []
    {
      positivePoints, negativePoints, polygonPoints := [], [], [];
    }
  }

  /** The vertex-write loop of the polygon-move handlers. */
  method WriteVertexLists(segs: seq<Segment>, edits: VertexEdits, skipHigh: bool) returns (r: seq<Segment>, raised: bool)
    ensures Written(r, raised) == WriteAll(segs, edits, skipHigh)
  {
    r, raised := segs, false;
    var k := 0;
    while k < |edits|
      invariant 0 <= k <= |edits|
      invariant WriteAll(r, edits[k..], skipHigh) == WriteAll(segs, edits, skipHigh)
    {
      assert edits[k..][1..] == edits[k + 1..];
      var i := edits[k].0;
      if !(skipHigh && i >= |r|) {
        var p := PyIndex(i, |r|);
        if p.None? {
          raised := true;
          return;
        }
        r := r[p.value := r[p.value].(vertices := Some(edits[k].1))];
      }
      k := k + 1;
    }
  }

  class UndoRedoManager {
    var undoStack: seq<Action>
    var redoStack: seq<Action>
    const store: SegmentManager
    const canvas: Canvas

    ghost predicate Valid()
      reads this, store
    {
      store.Valid()
    }

    ghost function State(): World
      reads store, canvas
    {
      World(store.segments, store.activeClassId, store.lastToggledClassId,
            canvas.positivePoints, canvas.negativePoints, canvas.polygonPoints)
    }

    /** Both stacks with the state they act on. */
    ghost function Log(): History
      reads this, store, canvas
    {
      History(undoStack, redoStack, State())
    }

    constructor(store: SegmentManager, canvas: Canvas)
      requires store.Valid()
      ensures Valid()
      ensures undoStack == [] && redoStack == []
      ensures this.store == store && this.canvas == canvas
    {
      undoStack, redoStack := [], [];
      this.store := store;
      this.canvas := canvas;
    }

    /** `record_action`: push onto the undo stack and forget every redo; no size bound. */
    method RecordAction(a: Action)
      modifies this`undoStack, this`redoStack
      ensures undoStack == old(undoStack) + [a] && redoStack == []
    {
      undoStack := undoStack + [a];
      redoStack := [];
    }

    /** `clear_history` */
    method ClearHistory()
      modifies this
      ensures undoStack == [] && redoStack == []
    {
      undoStack, redoStack := [], [];
    }

    /** `undo`: the undo top moves to the redo stack and its handler runs. */
    method Undo() returns (raised: bool)
      requires Valid()
      modifies this, store, canvas
      ensures Valid()
      ensures Log() == Undone(old(Log()))
      ensures raised == (old(undoStack) != [] && UndoStep(old(undoStack)[|old(undoStack)| - 1], old(State())).raised)
      ensures store.classAliases == old(store.classAliases)
    {
      raised := false;
      if undoStack == [] {
        return;
      }
      var a := undoStack[|undoStack| - 1];
      undoStack := PopLast(undoStack);
      redoStack := redoStack + [a];
      raised := UndoHandler(a);
    }

    /** The handler `undo` runs for the action it has just pushed onto the redo stack. */
    method UndoHandler(a: Action) returns (raised: bool)
      requires Valid() && redoStack != [] && redoStack[|redoStack| - 1] == a
      modifies this`undoStack, this`redoStack, store, canvas
      ensures Valid() && undoStack == old(undoStack)
      ensures var st := UndoStep(a, old(State()));
              && redoStack == PopLast(old(redoStack)) + (if st.keep then [st.action] else [])
              && State() == st.world && raised == st.raised
      ensures store.classAliases == old(store.classAliases)
    {
      raised := false;
      match a {
        case AddSegmentAction(idx, _) =>
          UndoAddSegment(a);
        case AddPointAction(_, _, _) =>
          UndoClick(a);
        case AddPolygonPointAction(_) =>
          UndoClick(a);
        case MovePolygonAction(initial, _) =>
          if initial.None? {
            raised := true;
          } else {
            raised := WriteEdits(initial.value, false);
          }
        case MoveVertexAction(_, _, oldPos, _, _) =>
          raised := MoveVertexHandler(a, oldPos, false);
        case MultiViewPolygonPointAction(_) =>
        case EraseSegmentsAction(removed) =>
          if removed == [] {
            redoStack := PopLast(redoStack);
          } else {
            AddSegments(Originals(removed));
          }
        case DeleteSegmentsAction(deleted) =>
          if deleted == [] {
            redoStack := PopLast(redoStack);
          } else {
            AddSegments(deleted);
          }
        case OtherAction(_) =>
          redoStack := PopLast(redoStack);
      }
    }

    /** The two click actions of `undo`: the last point of the click's list is taken off (none for a multi-view point). */
    method UndoClick(a: Action)
      requires a.AddPointAction? || a.AddPolygonPointAction?
      modifies canvas
      ensures var st := UndoStep(a, old(State()));
              && st.keep && st.action == a && !st.raised && State() == st.world
    {
      match a {
        case AddPointAction(positive, _, multiView) =>
          if !multiView {
            if positive {
              canvas.positivePoints := PopLast(canvas.positivePoints);
            } else {
              canvas.negativePoints := PopLast(canvas.negativePoints);
            }
          }
        case AddPolygonPointAction(_) =>
          canvas.polygonPoints := PopLast(canvas.polygonPoints);
      }
    }

    /** `redo`: the redo top moves back to the undo stack and its handler runs. */
    method Redo(ui: Ui) returns (raised: bool)
      requires Valid()
      modifies this, store, canvas
      ensures Valid()
      ensures Log() == Redone(old(Log()), ui)
      ensures raised == (old(redoStack) != [] && RedoStep(old(redoStack)[|old(redoStack)| - 1], old(State()), ui).raised)
      ensures store.classAliases == old(store.classAliases)
    {
      raised := false;
      if redoStack == [] {
        return;
      }
      var a := redoStack[|redoStack| - 1];
      ghost var u := undoStack;
      redoStack := PopLast(redoStack);
      undoStack := undoStack + [a];
      assert PopLast(u + [a]) == u;
      RecordedIsKept(a, old(State()), ui);
      raised := RedoHandler(a, ui);
    }

    /**
     * The handler `redo` runs for the action it has just pushed onto the undo
     * stack; a replayed click goes through the click handler, which records it.
     */
    method RedoHandler(a: Action, ui: Ui) returns (raised: bool)
      requires Valid() && undoStack != [] && undoStack[|undoStack| - 1] == a
      modifies this`undoStack, this`redoStack, store, canvas
      ensures Valid()
      ensures var st := RedoStep(a, old(State()), ui);
              && st.action == a
              && undoStack == (if st.keep then old(undoStack) else PopLast(old(undoStack)))
                              + (if st.recorded.Some? then [st.recorded.value] else [])
              && redoStack == (if st.recorded.Some? then [] else old(redoStack))
              && State() == st.world && raised == st.raised
      ensures store.classAliases == old(store.classAliases)
    {
      raised := false;
      match a {
        case AddSegmentAction(_, data) =>
          if data.None? {
            undoStack := PopLast(undoStack);
          } else {
            store.AddSegment(data.value);
          }
        case AddPointAction(_, _, _) =>
          RedoClickHandler(a, ui);
        case AddPolygonPointAction(_) =>
          RedoClickHandler(a, ui);
        case MovePolygonAction(_, final) =>
          if final.None? || final.value == [] {
            undoStack := PopLast(undoStack);
          } else {
            raised := WriteEdits(final.value, true);
          }
        case MoveVertexAction(_, _, _, newPos, _) =>
          raised := MoveVertexHandler(a, newPos, true);
        case MultiViewPolygonPointAction(coords) =>
          if coords.None? || !ui.canClickMultiPolygon {
            undoStack := PopLast(undoStack);
          }
        case EraseSegmentsAction(_) =>
          RedoRemoval(a, ui);
        case DeleteSegmentsAction(_) =>
          RedoRemoval(a, ui);
        case OtherAction(_) =>
          undoStack := PopLast(undoStack);
      }
    }

    /** The erase and delete actions of `redo`: an empty record leaves the undo stack, otherwise as many segments go from the end. */
    method RedoRemoval(a: Action, ui: Ui)
      requires Valid() && undoStack != [] && undoStack[|undoStack| - 1] == a
      requires a.EraseSegmentsAction? || a.DeleteSegmentsAction?
      modifies this`undoStack, store
      ensures Valid()
      ensures var st := RedoStep(a, old(State()), ui);
              && undoStack == (if st.keep then old(undoStack) else PopLast(old(undoStack)))
              && st.recorded.None? && State() == st.world && !st.raised
      ensures store.classAliases == old(store.classAliases)
    {
      var n := if a.EraseSegmentsAction? then |a.removedSegments| else |a.deletedSegments|;
      if n == 0 {
        undoStack := PopLast(undoStack);
      } else {
        DropLast(n);
      }
    }

    /** The two click actions of `redo`: a missing or refused click leaves the undo stack, any other is replayed. */
    method RedoClickHandler(a: Action, ui: Ui)
      requires Valid() && undoStack != [] && undoStack[|undoStack| - 1] == a
      requires a.AddPointAction? || a.AddPolygonPointAction?
      modifies this`undoStack, this`redoStack, store, canvas
      ensures Valid()
      ensures var st := RedoStep(a, old(State()), ui);
              && undoStack == (if st.keep then old(undoStack) else PopLast(old(undoStack)))
                              + (if st.recorded.Some? then [st.recorded.value] else [])
              && redoStack == (if st.recorded.Some? then [] else old(redoStack))
              && State() == st.world && !st.raised
      ensures store.classAliases == old(store.classAliases)
    {
      match a {
        case AddPointAction(positive, coords, multiView) =>
          if coords.None? {
            undoStack := PopLast(undoStack);
          } else if multiView {
            if !ui.canAddMultiPoint {
              undoStack := PopLast(undoStack);
            }
          } else {
            RedoAddPoint(a, positive, coords.value, ui);
          }
        case AddPolygonPointAction(coords) =>
          if coords.None? || coords.value == Point(0.0, 0.0) {
            undoStack := PopLast(undoStack);
          } else {
            RedoPolygonClick(a, coords.value, ui);
          }
      }
    }

    /** `mw._add_point(pos, positive)` from the single-view point redo. */
    method RedoAddPoint(a: Action, positive: bool, c: Point, ui: Ui)
      modifies this`undoStack, this`redoStack, canvas
      ensures var st := AddPointStep(a, old(State()), positive, c, ui);
              && State() == st.world
              && undoStack == old(undoStack) + (if st.recorded.Some? then [st.recorded.value] else [])
              && redoStack == (if st.recorded.Some? then [] else old(redoStack))
    {
      if ui.aiReady {
        var p := ui.toSam(c);
        if positive {
          canvas.positivePoints := canvas.positivePoints + [p];
        } else {
          canvas.negativePoints := canvas.negativePoints + [p];
        }
        RecordAction(PointRecord(positive, c));
      }
    }

    /** `mw._handle_polygon_click(pos)` from the polygon point redo. */
    method RedoPolygonClick(a: Action, c: Point, ui: Ui)
      requires Valid()
      modifies this`undoStack, this`redoStack, store, canvas
      ensures Valid()
      ensures var st := PolygonClickStep(a, old(State()), c, ui);
              && State() == st.world
              && undoStack == old(undoStack) + (if st.recorded.Some? then [st.recorded.value] else [])
              && redoStack == (if st.recorded.Some? then [] else old(redoStack))
      ensures store.classAliases == old(store.classAliases)
    {
      if PolygonCloses(canvas.polygonPoints, c, ui.joinThreshold) {
        FinalizePolygonHandler(a, ui);
      } else {
        canvas.polygonPoints := canvas.polygonPoints + [c];
        RecordAction(AddPolygonPointAction(Some(c)));
      }
    }

    /** `finalize_polygon(erase_mode=shift)` followed by `clear_all_points`. */
    method FinalizePolygonHandler(a: Action, ui: Ui)
      requires Valid() && |canvas.polygonPoints| >= 3
      modifies this`undoStack, this`redoStack, store, canvas
      ensures Valid()
      ensures var st := FinalizePolygon(a, old(State()), ui);
              && State() == st.world
              && undoStack == old(undoStack) + (if st.recorded.Some? then [st.recorded.value] else [])
              && redoStack == (if st.recorded.Some? then [] else old(redoStack))
      ensures store.classAliases == old(store.classAliases)
    {
      if ui.shiftHeld {
        ErasePolygonHandler(a, ui);
      } else {
        AddPolygonHandler(a, ui);
      }
    }

    /** The erase branch of `finalize_polygon`: recorded only when some segment was hit. */
    method ErasePolygonHandler(a: Action, ui: Ui)
      requires Valid() && |canvas.polygonPoints| >= 3 && ui.shiftHeld
      modifies this`undoStack, this`redoStack, store, canvas
      ensures Valid()
      ensures var st := FinalizePolygon(a, old(State()), ui);
              && State() == st.world
              && undoStack == old(undoStack) + (if st.recorded.Some? then [st.recorded.value] else [])
              && redoStack == (if st.recorded.Some? then [] else old(redoStack))
      ensures store.classAliases == old(store.classAliases)
    {
      var e := RasterizePolygon(ui.raster, canvas.polygonPoints, ui.imageH, ui.imageW).value;
      var modified, removed := store.EraseSingleView(e, ui.imageH, ui.imageW, ui.raster, ui.resize, ui.labeller);
      if modified != [] {
        RecordAction(EraseSegmentsAction(removed));
      }
      canvas.positivePoints, canvas.negativePoints, canvas.polygonPoints := [], [], [];
    }

    /** The add branch of `finalize_polygon`: a Polygon segment, recorded by its index. */
    method AddPolygonHandler(a: Action, ui: Ui)
      requires Valid() && |canvas.polygonPoints| >= 3 && !ui.shiftHeld
      modifies this`undoStack, this`redoStack, store, canvas
      ensures Valid()
      ensures var st := FinalizePolygon(a, old(State()), ui);
              && State() == st.world
              && undoStack == old(undoStack) + (if st.recorded.Some? then [st.recorded.value] else [])
              && redoStack == (if st.recorded.Some? then [] else old(redoStack))
      ensures store.classAliases == old(store.classAliases)
    {
      store.AddSegment(PolygonSegment(canvas.polygonPoints));
      RecordAction(AddSegmentAction(Some(|store.segments| - 1), None));
      canvas.positivePoints, canvas.negativePoints, canvas.polygonPoints := [], [], [];
    }

    /**
     * `_undo_move_vertex`/`_redo_move_vertex`: with a field missing or the segment
     * index past the end, the action leaves the stack it was pushed to
     * (`onUndoStack` says which); otherwise `pos` is written.
     */
    method MoveVertexHandler(a: Action, pos: Option<Point>, onUndoStack: bool) returns (raised: bool)
      requires Valid() && a.MoveVertexAction?
      requires onUndoStack ==> undoStack != []
      requires !onUndoStack ==> redoStack != []
      modifies this`undoStack, this`redoStack, store
      ensures Valid()
      ensures var st := MoveVertexStep(a, old(State()), pos);
              && State() == st.world && raised == st.raised
              && (onUndoStack ==> undoStack == (if st.keep then old(undoStack) else PopLast(old(undoStack))) && redoStack == old(redoStack))
              && (!onUndoStack ==> redoStack == (if st.keep then old(redoStack) else PopLast(old(redoStack))) && undoStack == old(undoStack))
      ensures store.classAliases == old(store.classAliases)
    {
      raised := false;
      var n := |store.segments|;
      if a.segmentIndex.None? || a.vertexIndex.None? || pos.None? || a.segmentIndex.value >= n {
        if onUndoStack {
          undoStack := PopLast(undoStack);
        } else {
          redoStack := PopLast(redoStack);
        }
        return;
      }
      var p := PyIndex(a.segmentIndex.value, n);
      if p.None? {
        raised := true;
        return;
      }
      var s := SetVertex(store.segments[p.value], a.vertexIndex.value, pos.value, a.viewer);
      if s.None? {
        raised := true;
        return;
      }
      var segs := store.segments[p.value := s.value];
      SameClassesSameIds(store.segments, segs);
      store.segments := segs;
    }

    /**
     * `_undo_add_segment`: a recorded index inside the list is deleted, and the
     * stored action keeps a copy of the segment for the redo.
     */
    method UndoAddSegment(a: Action)
      requires Valid() && a.AddSegmentAction? && redoStack != []
      modifies this`redoStack, store
      ensures Valid()
      ensures var st := UndoStep(a, old(State()));
              && State() == st.world && st.keep && !st.raised
              && redoStack == PopLast(old(redoStack)) + [st.action]
      ensures store.classAliases == old(store.classAliases)
    {
      var idx := a.segmentIndex;
      if idx.Some? && 0 <= idx.value < |store.segments| {
        var seg := store.segments[idx.value];
        var w := store.segments;
        redoStack := redoStack[|redoStack| - 1 := a.(segmentData := Some(seg))];
        store.DeleteSegments([idx.value]);
        DeleteOne(w, idx.value);
      } else {
        redoStack := PopLast(redoStack) + [a];
      }
    }

    /** The vertex-list writes of `_undo_move_polygon`/`_redo_move_polygon`. */
    method WriteEdits(edits: VertexEdits, skipHigh: bool) returns (raised: bool)
      requires Valid()
      modifies store
      ensures Valid()
      ensures var r := WriteAll(old(store.segments), edits, skipHigh);
              State() == old(State()).(segments := r.segments) && raised == r.raised
      ensures store.classAliases == old(store.classAliases)
    {
      var r;
      r, raised := WriteVertexLists(store.segments, edits, skipHigh);
      SameClassesSameIds(store.segments, r);
      store.segments := r;
    }

    /** The re-adding loop of the erase/delete undo handlers (`add_segment` per record). */
    method AddSegments(datas: seq<Segment>)
      requires Valid()
      modifies store
      ensures Valid()
      ensures State() == AddAll(old(State()), datas)
      ensures store.classAliases == old(store.classAliases)
    {
      var k := 0;
      while k < |datas|
        invariant 0 <= k <= |datas|
        invariant store.Valid()
        invariant State() == AddAll(old(State()), datas[..k])
        invariant store.classAliases == old(store.classAliases)
      {
        assert datas[..k + 1][..k] == datas[..k];
        store.AddSegment(datas[k]);
        k := k + 1;
      }
      assert datas[..k] == datas;
    }

    /** The redo of erase/delete: drop the last `count` segments. */
    method DropLast(count: nat)
      requires Valid()
      modifies store
      ensures Valid()
      ensures State() == DropLastSegments(old(State()), count)
      ensures store.classAliases == old(store.classAliases)
    {
      var n := |store.segments|;
      store.DeleteSegments(Range(n - count, n));
    }
  }
}
