/**
 * The segment-building rules of the multi-view annotation mode
 * (`MultiViewMode` in ui/modes/multi_view_mode.py): which viewers a new
 * polygon or box is mirrored to, the bounding-box size gate, the polygon
 * closing rule and how SAM predictions of several viewers become segments.
 *
 * The main window's per-viewer lists (`multi_view_polygon_points`,
 * `multi_view_bbox_starts`, `multi_view_bbox_rects`, `multi_view_linked`,
 * `multi_view_images`) and the prediction dict `multi_view_ai_predictions`
 * are fields of the class; the rubber-band rectangle item and the loaded
 * image are reduced to whether they exist.
 */
module MultiViewMode {
  import opened Wrappers
  import opened Geometry
  import opened Seqs
  import opened Segments
  import opened SegmentStore

  /** `_get_other_viewer_indices`: `[i for i in range(num) if i != current]` */
  function OtherViewerIndices(num: nat, current: int): (r: seq<int>)
    ensures Increasing(r)
    ensures forall i :: i in r <==> 0 <= i < num && i != current
  {
    if num == 0 then []
    else
      var init := OtherViewerIndices(num - 1, current);
      assert forall k | 0 <= k < |init| :: init[k] < num - 1 by {
        forall k | 0 <= k < |init| ensures init[k] < num - 1 {
          assert init[k] in init;
        }
      }
      if num - 1 == current then init else init + [num - 1]
  }

  /** One index is left out exactly when it names a viewer. */
  lemma {:induction false} OtherViewerCount(num: nat, current: int)
    ensures |OtherViewerIndices(num, current)| == if 0 <= current < num then num - 1 else num
  {
    if num > 0 {
      OtherViewerCount(num - 1, current);
    }
  }

  // ----- view mirroring -----

  /**
   * The `views` dict of a new polygon or box: the source viewer, plus every
   * other viewer in range that is linked and shows an image, each holding
   * the same view data.
   */
  ghost predicate MirrorsExactly(views: map<int, View>, view: View, source: int, num: nat,
                                 linked: seq<bool>, hasImage: seq<bool>)
    requires num <= |linked| && num <= |hasImage|
  {
    && (forall v :: v in views <==> v == source || (0 <= v < num && v != source && linked[v] && hasImage[v]))
    && (forall v | v in views :: views[v] == view)
  }

  /** The loop of `_create_polygon_segment` / `_create_bbox_segment` that fills `views`. */
  method MirroredViews(view: View, source: int, num: nat, linked: seq<bool>, hasImage: seq<bool>)
    returns (views: map<int, View>)
    requires num <= |linked| && num <= |hasImage|
    ensures MirrorsExactly(views, view, source, num, linked, hasImage)
  {
    views := map[source := view];
    for i := 0 to num
      invariant forall v :: v in views <==> v == source || (0 <= v < i && v != source && linked[v] && hasImage[v])
      invariant forall v | v in views :: views[v] == view
    {
      if i != source && linked[i] && hasImage[i] {
        views := views[i := view];
      }
    }
  }

  /** The mirrored viewers other than the source are the linked, showing ones among the other indices. */
  lemma MirrorTargets(views: map<int, View>, view: View, source: int, num: nat,
                      linked: seq<bool>, hasImage: seq<bool>, v: int)
    requires num <= |linked| && num <= |hasImage|
    requires MirrorsExactly(views, view, source, num, linked, hasImage)
    ensures v in views && v != source <==> v in OtherViewerIndices(num, source) && linked[v] && hasImage[v]
  {
  }

  /** A polygon segment before `add_segment`: type and views only. */
  function ViewsSegment(kind: SegKind, classId: Option<int>, views: map<int, View>): Segment
  {
    Segment(kind, classId, None, None, Some(views), map[])
  }

  // ----- bounding boxes -----

  /** A `QRectF(x, y, width, height)` */
  datatype Rect = Rect(x: real, y: real, width: real, height: real)

  function Abs(a: real): real { if a < 0.0 then -a else a }

  function Min(a: real, b: real): real { if a <= b then a else b }

  /** The final rectangle of `handle_bbox_complete`: `x = min`, `width = abs` on each axis. */
  function BboxRect(start: Point, pos: Point): (r: Rect)
    ensures r.width >= 0.0 && r.height >= 0.0
    ensures {r.x, r.x + r.width} == {start.x, pos.x}
    ensures {r.y, r.y + r.height} == {start.y, pos.y}
  {
    Rect(Min(start.x, pos.x), Min(start.y, pos.y), Abs(pos.x - start.x), Abs(pos.y - start.y))
  }

  /** The size gate: a box under 2 by 2 creates no segment. */
  predicate TooSmall(r: Rect)
  {
    r.width < 2.0 || r.height < 2.0
  }

  /**
   * The vertex list of a box segment: the corners from the top-left clockwise
   * (in scene coordinates, y grows downwards): TL, TR, BR, BL.
   */
  function BboxVertices(r: Rect): (v: seq<Point>)
    ensures |v| == 4
    ensures v[0] == Point(r.x, r.y) && v[2] == Point(r.x + r.width, r.y + r.height)
    ensures v[0].y == v[1].y && v[1].x == v[2].x && v[2].y == v[3].y && v[3].x == v[0].x
    ensures r.width >= 0.0 && r.height >= 0.0 ==>
              forall k | 0 <= k < 4 :: v[0].x <= v[k].x <= v[2].x && v[0].y <= v[k].y <= v[2].y
  {
    var left, top, right, bottom := r.x, r.y, r.x + r.width, r.y + r.height;
    [Point(left, top), Point(right, top), Point(right, bottom), Point(left, bottom)]
  }

  // ----- polygon closing -----

  lemma SqMonotone(a: real, b: real)
    requires 0.0 <= a <= b
    ensures Sq(a) <= Sq(b)
  {
    assert a * a <= a * b;
    assert a * b <= b * b;
  }

  /** A closing click lies strictly inside the threshold square around the first point. */
  lemma ClosingClickIsNear(points: seq<Point>, pos: Point, threshold: real)
    requires PolygonCloses(points, pos, threshold)
    ensures |points| >= 3
    ensures Abs(pos.x - points[0].x) < Abs(threshold) && Abs(pos.y - points[0].y) < Abs(threshold)
  {
    var dx, dy, t := pos.x - points[0].x, pos.y - points[0].y, threshold;
    assert Sq(dx) == Sq(Abs(dx)) && Sq(dy) == Sq(Abs(dy)) && Sq(t) == Sq(Abs(t));
    if Abs(t) <= Abs(dx) {
      SqMonotone(Abs(t), Abs(dx));
      assert false;
    }
    if Abs(t) <= Abs(dy) {
      SqMonotone(Abs(t), Abs(dy));
      assert false;
    }
  }

  // ----- saving SAM predictions -----

  /** One viewer's entry of `multi_view_ai_predictions`; the prompt payloads are opaque. */
  datatype Prediction = Prediction(mask: Mask, hasPoints: bool, hasBox: bool)

  /** The view data built from a prediction: its mask, plus its prompts when present. */
  function PredictionView(p: Prediction): (v: View)
    ensures v.vertices.None? && v.mask == Some(p.mask)
    ensures "points" in v.extra <==> p.hasPoints
    ensures "labels" in v.extra <==> p.hasPoints
    ensures "box" in v.extra <==> p.hasBox
  {
    var withPoints: map<string, Extra> := if p.hasPoints then map["points" := XOther, "labels" := XOther] else map[];
    View(None, Some(p.mask), if p.hasBox then withPoints["box" := XOther] else withPoints)
  }

  /**
   * The class of a segment paired across viewers: the active class, else one
   * more than the largest class present, else 1.
   */
  function PairedClassId(active: Option<int>, segs: seq<Segment>): (c: int)
    ensures active.Some? ==> c == active.value
    ensures active.None? && ClassIds(segs) == {} ==> c == 1
    ensures active.None? && ClassIds(segs) != {} ==> c - 1 in ClassIds(segs) && forall k | k in ClassIds(segs) :: k < c
  {
    if active.Some? then active.value
    else
      var ids := UniqueClassIds(segs);
      if ids == [] then
        assert forall k | k in ClassIds(segs) :: k in ids;
        1
      else
        assert forall k | k in ids :: k <= ids[|ids| - 1] by {
          forall k | k in ids
            ensures k <= ids[|ids| - 1]
          {
            var j :| 0 <= j < |ids| && ids[j] == k;
            assert j == |ids| - 1 || ids[j] < ids[|ids| - 1];
          }
        }
        assert ids[|ids| - 1] in ClassIds(segs);
        ids[|ids| - 1] + 1
  }

  /**
   * Without an active class, the paired class agrees with the store's own
   * `next_class_id` except on a store with no class at all, where the store
   * would use 0 and this rule uses 1.
   */
  lemma PairedClassVersusNext(active: Option<int>, segs: seq<Segment>)
    requires active.None?
    ensures ClassIds(segs) != {} ==> PairedClassId(active, segs) == NextIdFor(segs)
    ensures ClassIds(segs) == {} ==> PairedClassId(active, segs) == 1 && NextIdFor(segs) == 0
  {
    if ClassIds(segs) != {} {
      var c, n := PairedClassId(active, segs), NextIdFor(segs);
      assert c - 1 < n && n - 1 < c;
    }
  }

  /** The views of the paired segment: one for each viewer in `range(num)` that has a prediction. */
  method PredictionViews(preds: map<int, Prediction>, num: nat) returns (views: map<int, View>)
    ensures forall v :: v in views <==> 0 <= v < num && v in preds
    ensures forall v | v in views :: views[v] == PredictionView(preds[v])
  {
    views := map[];
    for i := 0 to num
      invariant forall v :: v in views <==> 0 <= v < i && v in preds
      invariant forall v | v in views :: views[v] == PredictionView(preds[v])
    {
      if i in preds {
        views := views[i := PredictionView(preds[i])];
      }
    }
  }

  class MultiViewMode {
    var polygonPoints: seq<seq<Point>>
    var bboxStarts: seq<Option<Point>>
    var bboxRects: seq<bool>
    var aiPredictions: map<int, Prediction>
    var linked: seq<bool>
    var hasImage: seq<bool>
    const numViewers: nat
    const store: SegmentManager

    ghost predicate Valid()
      reads this
    {
      && |polygonPoints| == numViewers && |bboxStarts| == numViewers && |bboxRects| == numViewers
      && |linked| == numViewers && |hasImage| == numViewers
    }

    /** A mode over `numViewers` linked viewers, nothing drawn and no predictions. */
    constructor(store: SegmentManager, numViewers: nat, hasImage: seq<bool>)
      requires |hasImage| == numViewers
      ensures Valid() && this.store == store && this.numViewers == numViewers && this.hasImage == hasImage
      ensures polygonPoints == seq(numViewers, _ => []) && bboxStarts == seq(numViewers, _ => None)
      ensures bboxRects == seq(numViewers, _ => false) && linked == seq(numViewers, _ => true)
      ensures aiPredictions == map[]
    {
      this.store := store;
      this.numViewers := numViewers;
      this.hasImage := hasImage;
      polygonPoints := seq(numViewers, _ => []);
      bboxStarts := seq(numViewers, _ => None);
      bboxRects := seq(numViewers, _ => false);
      linked := seq(numViewers, _ => true);
      aiPredictions := map[];
    }

    /**
     * `_create_polygon_segment` / `_create_bbox_segment`: builds a "Polygon"
     * segment whose views mirror `vertices` and hands it to the store, which
     * gives it a class.
     */
    method CreateMirroredSegment(vertices: seq<Point>, source: int) returns (seg: Segment)
      requires Valid()
      modifies store
      ensures seg.kind == Polygon && seg.classId.None? && seg.vertices.None? && seg.mask.None?
      ensures seg.views.Some? && MirrorsExactly(seg.views.value, View(Some(vertices), None, map[]), source, numViewers, linked, hasImage)
      ensures store.segments == old(store.segments) + [WithClass(seg, old(store.activeClassId), old(store.nextClassId))]
      ensures store.Valid() && store.activeClassId == old(store.activeClassId) && store.classAliases == old(store.classAliases)
    {
      var views := MirroredViews(View(Some(vertices), None, map[]), source, numViewers, linked, hasImage);
      seg := ViewsSegment(Polygon, None, views);
      store.AddSegment(seg);
    }

    /**
     * `handle_polygon_click` without Shift: a click near the first of more
     * than 2 points finishes the polygon (mirrored segment, points cleared);
     * any other click appends the point.
     */
    method HandlePolygonClick(pos: Point, source: int, threshold: real) returns (created: Option<Segment>)
      requires Valid() && 0 <= source < numViewers
      modifies this, store
      ensures Valid()
      ensures PolygonCloses(old(polygonPoints[source]), pos, threshold) ==>
                && created.Some? && created.value.views.Some?
                && MirrorsExactly(created.value.views.value, View(Some(old(polygonPoints[source])), None, map[]),
                                  source, numViewers, linked, hasImage)
                && store.segments == old(store.segments) + [WithClass(created.value, old(store.activeClassId), old(store.nextClassId))]
                && polygonPoints == old(polygonPoints)[source := []]
      ensures !PolygonCloses(old(polygonPoints[source]), pos, threshold) ==>
                && created.None? && unchanged(store)
                && polygonPoints == old(polygonPoints)[source := old(polygonPoints[source]) + [pos]]
      ensures bboxStarts == old(bboxStarts) && bboxRects == old(bboxRects) && aiPredictions == old(aiPredictions)
      ensures linked == old(linked) && hasImage == old(hasImage)
    {
      var points := polygonPoints[source];
      if PolygonCloses(points, pos, threshold) {
        var seg := CreateMirroredSegment(points, source);
        created := Some(seg);
        polygonPoints := polygonPoints[source := []];
        return;
      }
      polygonPoints := polygonPoints[source := points + [pos]];
      created := None;
    }

    /**
     * `handle_bbox_complete` without Shift.  Nothing happens unless the viewer
     * has a start point and a rubber band; otherwise both are reset, and a box
     * of at least 2 by 2 becomes a mirrored segment with the TL, TR, BR, BL
     * corners as vertices.
     */
    method HandleBboxComplete(pos: Point, source: int) returns (created: Option<Segment>)
      requires Valid() && 0 <= source < numViewers
      modifies this, store
      ensures Valid()
      ensures old(bboxStarts[source]).None? || !old(bboxRects[source]) ==>
                created.None? && unchanged(this) && unchanged(store)
      ensures old(bboxStarts[source]).Some? && old(bboxRects[source]) ==>
                && bboxStarts == old(bboxStarts)[source := None] && bboxRects == old(bboxRects)[source := false]
                && var r := BboxRect(old(bboxStarts[source]).value, pos);
                   if TooSmall(r) then created.None? && unchanged(store)
                   else
                     && created.Some? && created.value.views.Some?
                     && MirrorsExactly(created.value.views.value, View(Some(BboxVertices(r)), None, map[]),
                                       source, numViewers, linked, hasImage)
                     && store.segments == old(store.segments) + [WithClass(created.value, old(store.activeClassId), old(store.nextClassId))]
      ensures polygonPoints == old(polygonPoints) && aiPredictions == old(aiPredictions)
      ensures linked == old(linked) && hasImage == old(hasImage)
    {
      if bboxStarts[source].None? || !bboxRects[source] {
        return None;
      }
      var r := BboxRect(bboxStarts[source].value, pos);
      if TooSmall(r) {
        bboxStarts := bboxStarts[source := None];
        bboxRects := bboxRects[source := false];
        return None;
      }
      var seg := CreateMirroredSegment(BboxVertices(r), source);
      created := Some(seg);
      bboxStarts := bboxStarts[source := None];
      bboxRects := bboxRects[source := false];
    }

    /**
     * `save_ai_predictions`.  With no prediction nothing happens.  With two or
     * more, one "AI" segment carries a view per predicted viewer in range and
     * the paired class; with one, an "AI" segment holds only that view and the
     * store picks its class.  The predictions are cleared afterwards.
     */
    method SaveAiPredictions() returns (created: seq<Segment>)
      requires Valid()
      modifies this, store
      ensures Valid()
      ensures old(aiPredictions) == map[] ==> created == [] && unchanged(this) && unchanged(store)
      ensures old(aiPredictions) != map[] ==> aiPredictions == map[]
      ensures store.segments == old(store.segments) + created
      ensures |old(aiPredictions)| >= 2 ==>
                && |created| == 1 && created[0].kind == AI
                && created[0].classId == Some(PairedClassId(old(store.activeClassId), old(store.segments)))
                && created[0].views.Some?
                && (forall v :: v in created[0].views.value <==> 0 <= v < numViewers && v in old(aiPredictions))
                && (forall v | v in created[0].views.value :: created[0].views.value[v] == PredictionView(old(aiPredictions)[v]))
      ensures |old(aiPredictions)| == 1 ==>
                forall v | v in old(aiPredictions) ::
                  created == [WithClass(ViewsSegment(AI, None, map[v := PredictionView(old(aiPredictions)[v])]),
                                        old(store.activeClassId), old(store.nextClassId))]
      ensures polygonPoints == old(polygonPoints) && bboxStarts == old(bboxStarts) && bboxRects == old(bboxRects)
      ensures linked == old(linked) && hasImage == old(hasImage)
    {
      var preds := aiPredictions;
      if preds == map[] {
        return [];
      }
      if |preds| >= 2 {
        var classId := PairedClassId(store.activeClassId, store.segments);
        var views := PredictionViews(preds, numViewers);
        var seg := ViewsSegment(AI, Some(classId), views);
        store.AddSegment(seg);
        created := [seg];
      } else {
        assert |preds.Keys| == 1;
        assert exists u :: u in preds.Keys by {
          if forall u :: u !in preds.Keys {
            assert false;
          }
        }
        var v :| v in preds.Keys;
        assert preds.Keys == {v} by {
          assert |preds.Keys - {v}| == |preds.Keys| - 1 == 0;
        }
        var data := ViewsSegment(AI, None, map[v := PredictionView(preds[v])]);
        var seg := WithClass(data, store.activeClassId, store.nextClassId);
        store.AddSegment(data);
        created := [seg];
      }
      aiPredictions := map[];
    }
  }
}
