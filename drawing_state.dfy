/**
 * The drawing-state manager (ui/managers/drawing_state_manager.py): the
 * in-progress SAM points, polygon, bounding box, AI click and preview state
 * of the annotation canvas.
 *
 * Graphics items are opaque integer handles.  The scene is one object holding
 * the handles it shows; an item's `scene()` is taken to be that scene, so
 * "remove it if it is in a scene" removes it from `items`.  The dictionary of
 * a polygon drag's initial vertices is an object of its own, because the
 * manager keeps the caller's dictionary and later empties it in place.
 */
module DrawingState {
  import opened Wrappers
  import opened Geometry

  /** A `QGraphicsScene`, as the set of item handles it shows. */
  class GraphicsScene {
    var items: set<int>

    constructor(items: set<int>)
      ensures this.items == items
    {
      this.items := items;
    }
  }

  /** The `dict` of initial vertices handed to `start_polygon_drag`: segment index to vertices. */
  class VertexDict {
    var entries: map<int, seq<Point>>

    constructor(entries: map<int, seq<Point>>)
      ensures this.entries == entries
    {
      this.entries := entries;
    }
  }

  /** The handles of a list, as a set. */
  function Handles(s: seq<int>): set<int>
  {
    set k | 0 <= k < |s| :: s[k]
  }

  /** A handle that is present, or nothing. */
  function Handle(o: Option<int>): set<int>
  {
    if o.Some? then {o.value} else {}
  }

  /** A scene that shows none of `items` and otherwise what it showed before. */
  function Without(shown: set<int>, items: seq<int>): (r: set<int>)
    ensures r <= shown
    ensures forall k | 0 <= k < |items| :: items[k] !in r
    ensures forall h | h in shown && h !in items :: h in r
  {
    shown - Handles(items)
  }

  /** Removes from the scene, one by one, each of `items` the scene shows. */
  method RemoveItems(scene: GraphicsScene, items: seq<int>)
    modifies scene
    ensures scene.items == Without(old(scene.items), items)
  {
    var i := 0;
    while i < |items|
      invariant 0 <= i <= |items|
      invariant scene.items == old(scene.items) - Handles(items[..i])
    {
      assert Handles(items[..i + 1]) == Handles(items[..i]) + {items[i]} by {
        assert items[..i + 1] == items[..i] + [items[i]];
      }
      if items[i] in scene.items {
        scene.items := scene.items - {items[i]};
      }
      i := i + 1;
    }
    assert items[..i] == items;
  }

  /** Removes a single optional item when the scene shows it. */
  method RemoveItem(scene: GraphicsScene, item: Option<int>)
    modifies scene
    ensures scene.items == old(scene.items) - Handle(item)
  {
    if item.Some? && item.value in scene.items {
      scene.items := scene.items - {item.value};
    }
  }

  class DrawingStateManager {
    var pointItems: seq<int>
    var positivePoints: seq<Point>
    var negativePoints: seq<Point>
    var polygonPoints: seq<Point>
    var polygonPreviewItems: seq<int>
    var rubberBandLine: Option<int>
    var rubberBandRect: Option<int>
    var dragStartPos: Option<Point>
    var aiClickStartPos: Option<Point>
    var aiClickTime: int
    var aiRubberBandRect: Option<int>
    var previewMaskItem: Option<int>
    var aiBboxPreviewMask: Option<int>
    var aiBboxPreviewRect: Option<int>
    var isDraggingPolygon: bool
    var dragInitialVertices: VertexDict

    constructor()
      ensures pointItems == [] && positivePoints == [] && negativePoints == []
      ensures polygonPoints == [] && polygonPreviewItems == [] && rubberBandLine == None
      ensures rubberBandRect == None && dragStartPos == None
      ensures aiClickStartPos == None && aiClickTime == 0 && aiRubberBandRect == None
      ensures previewMaskItem == None && aiBboxPreviewMask == None && aiBboxPreviewRect == None
      ensures !isDraggingPolygon && fresh(dragInitialVertices) && dragInitialVertices.entries == map[]
      ensures !HasAnyDrawingState()
    {
      pointItems, positivePoints, negativePoints := [], [], [];
      polygonPoints, polygonPreviewItems, rubberBandLine := [], [], None;
      rubberBandRect, dragStartPos := None, None;
      aiClickStartPos, aiClickTime, aiRubberBandRect := None, 0, None;
      previewMaskItem, aiBboxPreviewMask, aiBboxPreviewRect := None, None, None;
      isDraggingPolygon := false;
      dragInitialVertices := new VertexDict(map[]);
    }

    /** `add_point_item` */
    method AddPointItem(item: int)
      modifies this`pointItems
      ensures pointItems == old(pointItems) + [item]
    {
      pointItems := pointItems + [item];
    }

    /** `add_positive_point`: afterwards there are points. */
    method AddPositivePoint(pos: Point)
      modifies this`positivePoints
      ensures positivePoints == old(positivePoints) + [pos]
      ensures HasPoints()
    {
      positivePoints := positivePoints + [pos];
    }

    /** `add_negative_point`: afterwards there are points. */
    method AddNegativePoint(pos: Point)
      modifies this`negativePoints
      ensures negativePoints == old(negativePoints) + [pos]
      ensures HasPoints()
    {
      negativePoints := negativePoints + [pos];
    }

    /** `clear_points`: the point items leave the scene and all three point lists are emptied. */
    method ClearPoints(scene: GraphicsScene?)
      modifies this`pointItems, this`positivePoints, this`negativePoints, scene
      ensures pointItems == [] && positivePoints == [] && negativePoints == []
      ensures scene != null ==> scene.items == Without(old(scene.items), old(pointItems))
      ensures !HasPoints()
    {
      if scene != null {
        RemoveItems(scene, pointItems);
      }
      pointItems, positivePoints, negativePoints := [], [], [];
    }

    /** `has_points`: some positive or negative point is recorded; point items alone do not count. */
    function HasPoints(): (r: bool)
      reads this`positivePoints, this`negativePoints
      ensures r <==> |positivePoints| + |negativePoints| > 0
    {
      positivePoints != [] || negativePoints != []
    }

    /** `add_polygon_point` */
    method AddPolygonPoint(pos: Point)
      modifies this`polygonPoints
      ensures polygonPoints == old(polygonPoints) + [pos]
      ensures HasPolygonPoints()
      ensures CanCompletePolygon() <==> |old(polygonPoints)| >= 2
    {
      polygonPoints := polygonPoints + [pos];
    }

    /** `add_polygon_preview_item` */
    method AddPolygonPreviewItem(item: int)
      modifies this`polygonPreviewItems
      ensures polygonPreviewItems == old(polygonPreviewItems) + [item]
    {
      polygonPreviewItems := polygonPreviewItems + [item];
    }

    /** `clear_polygon`: preview items and rubber-band line leave the scene; points, previews and line are dropped. */
    method ClearPolygon(scene: GraphicsScene?)
      modifies this`polygonPoints, this`polygonPreviewItems, this`rubberBandLine, scene
      ensures polygonPoints == [] && polygonPreviewItems == [] && rubberBandLine == None
      ensures scene != null ==> scene.items == Without(old(scene.items), old(polygonPreviewItems)) - Handle(old(rubberBandLine))
      ensures !HasPolygonPoints() && !CanCompletePolygon()
    {
      if scene != null {
        RemoveItems(scene, polygonPreviewItems);
        RemoveItem(scene, rubberBandLine);
      }
      polygonPoints, polygonPreviewItems, rubberBandLine := [], [], None;
    }

    /** `has_polygon_points` */
    function HasPolygonPoints(): (r: bool)
      reads this`polygonPoints
      ensures r <==> polygonPoints != []
    {
      |polygonPoints| > 0
    }

    /** `can_complete_polygon`: a polygon needs at least three vertices. */
    function CanCompletePolygon(): (r: bool)
      reads this`polygonPoints
      ensures r <==> |polygonPoints| >= 3
      ensures r ==> HasPolygonPoints()
    {
      |polygonPoints| >= 3
    }

    /** Setter of `rubber_band_rect`. */
    method SetRubberBandRect(item: Option<int>)
      modifies this`rubberBandRect
      ensures rubberBandRect == item
    {
      rubberBandRect := item;
    }

    /** Setter of `drag_start_pos`. */
    method SetDragStartPos(pos: Option<Point>)
      modifies this`dragStartPos
      ensures dragStartPos == pos
    {
      dragStartPos := pos;
    }

    /** `clear_bbox`: the rubber-band rectangle leaves the scene; rectangle and start position are dropped. */
    method ClearBbox(scene: GraphicsScene?)
      modifies this`rubberBandRect, this`dragStartPos, scene
      ensures rubberBandRect == None && dragStartPos == None
      ensures scene != null ==> scene.items == old(scene.items) - Handle(old(rubberBandRect))
    {
      if scene != null {
        RemoveItem(scene, rubberBandRect);
      }
      rubberBandRect, dragStartPos := None, None;
    }

    /** Setters of `ai_click_start_pos` and `ai_click_time`, as a press in AI mode uses them. */
    method StartAiClick(pos: Point, time: int)
      modifies this`aiClickStartPos, this`aiClickTime
      ensures aiClickStartPos == Some(pos) && aiClickTime == time
      ensures IsAiDragging()
    {
      aiClickStartPos, aiClickTime := Some(pos), time;
    }

    /** Setter of `ai_rubber_band_rect`. */
    method SetAiRubberBandRect(item: Option<int>)
      modifies this`aiRubberBandRect
      ensures aiRubberBandRect == item
    {
      aiRubberBandRect := item;
    }

    /** `clear_ai_state`: the AI rectangle leaves the scene; start position, time and rectangle are reset. */
    method ClearAiState(scene: GraphicsScene?)
      modifies this`aiClickStartPos, this`aiClickTime, this`aiRubberBandRect, scene
      ensures aiClickStartPos == None && aiClickTime == 0 && aiRubberBandRect == None
      ensures scene != null ==> scene.items == old(scene.items) - Handle(old(aiRubberBandRect))
      ensures !IsAiDragging()
    {
      if scene != null {
        RemoveItem(scene, aiRubberBandRect);
      }
      aiClickStartPos, aiClickTime, aiRubberBandRect := None, 0, None;
    }

    /** `is_ai_dragging`: an AI click has started. */
    function IsAiDragging(): (r: bool)
      reads this`aiClickStartPos
      ensures r <==> aiClickStartPos != None
    {
      aiClickStartPos.Some?
    }

    /** Setters of `preview_mask_item`, `ai_bbox_preview_mask` and `ai_bbox_preview_rect`. */
    method SetPreview(mask: Option<int>, bboxMask: Option<int>, bboxRect: Option<int>)
      modifies this`previewMaskItem, this`aiBboxPreviewMask, this`aiBboxPreviewRect
      ensures previewMaskItem == mask && aiBboxPreviewMask == bboxMask && aiBboxPreviewRect == bboxRect
    {
      previewMaskItem, aiBboxPreviewMask, aiBboxPreviewRect := mask, bboxMask, bboxRect;
    }

    /** `clear_preview`: the preview mask item leaves the scene; all three preview values are dropped. */
    method ClearPreview(scene: GraphicsScene?)
      modifies this`previewMaskItem, this`aiBboxPreviewMask, this`aiBboxPreviewRect, scene
      ensures previewMaskItem == None && aiBboxPreviewMask == None && aiBboxPreviewRect == None
      ensures scene != null ==> scene.items == old(scene.items) - Handle(old(previewMaskItem))
    {
      if scene != null {
        RemoveItem(scene, previewMaskItem);
      }
      previewMaskItem, aiBboxPreviewMask, aiBboxPreviewRect := None, None, None;
    }

    /** `start_polygon_drag`: the manager keeps the caller's dictionary itself, not a copy. */
    method StartPolygonDrag(startPos: Point, initialVertices: VertexDict)
      modifies this`isDraggingPolygon, this`dragStartPos, this`dragInitialVertices
      ensures isDraggingPolygon && dragStartPos == Some(startPos)
      ensures dragInitialVertices == initialVertices
    {
      isDraggingPolygon := true;
      dragStartPos := Some(startPos);
      dragInitialVertices := initialVertices;
    }

    /** `end_polygon_drag`: clears the flag and empties the kept dictionary in place. */
    method EndPolygonDrag()
      modifies this`isDraggingPolygon, dragInitialVertices
      ensures !isDraggingPolygon
      ensures dragInitialVertices == old(dragInitialVertices) && dragInitialVertices.entries == map[]
    {
      isDraggingPolygon := false;
      dragInitialVertices.entries := map[];
    }

    /** `clear_all`: every clear above, then the end of any polygon drag. */
    method ClearAll(scene: GraphicsScene?)
      modifies this, scene, dragInitialVertices
      ensures pointItems == [] && positivePoints == [] && negativePoints == []
      ensures polygonPoints == [] && polygonPreviewItems == [] && rubberBandLine == None
      ensures rubberBandRect == None && dragStartPos == None
      ensures aiClickStartPos == None && aiClickTime == 0 && aiRubberBandRect == None
      ensures previewMaskItem == None && aiBboxPreviewMask == None && aiBboxPreviewRect == None
      ensures !isDraggingPolygon
      ensures dragInitialVertices == old(dragInitialVertices) && dragInitialVertices.entries == map[]
      ensures scene != null ==> scene.items == old(Cleared(scene.items))
      ensures !HasAnyDrawingState()
    {
      ClearPoints(scene);
      ClearPolygon(scene);
      ClearBbox(scene);
      ClearAiState(scene);
      ClearPreview(scene);
      EndPolygonDrag();
    }

    /** What a scene showing `shown` still shows once `clear_all` has taken this manager's items off it. */
    function Cleared(shown: set<int>): (r: set<int>)
      reads this`pointItems, this`polygonPreviewItems, this`rubberBandLine, this`rubberBandRect,
            this`aiRubberBandRect, this`previewMaskItem
      ensures r <= shown
      ensures forall h | h in shown ::
                h in r <==> (h !in pointItems && h !in polygonPreviewItems
                             && {h} !! Handle(rubberBandLine) + Handle(rubberBandRect) + Handle(aiRubberBandRect) + Handle(previewMaskItem))
    {
      Without(Without(shown, pointItems), polygonPreviewItems) - Handle(rubberBandLine)
        - Handle(rubberBandRect) - Handle(aiRubberBandRect) - Handle(previewMaskItem)
    }

    /**
     * `has_any_drawing_state`: points, polygon points, a rubber-band
     * rectangle, an AI drag or a preview mask.  Point items, previews and
     * drags alone do not count.
     */
    function HasAnyDrawingState(): (r: bool)
      reads this
      ensures r <==> |positivePoints| + |negativePoints| + |polygonPoints| > 0
                     || rubberBandRect.Some? || aiClickStartPos.Some? || previewMaskItem.Some?
    {
      HasPoints() || HasPolygonPoints() || rubberBandRect != None || IsAiDragging() || previewMaskItem != None
    }
  }

  /**
   * The dictionary a caller passes to `start_polygon_drag` is the one
   * `end_polygon_drag` empties: after the drag ends the caller's own
   * dictionary is empty too.
   */
  method DragEmptiesCallersDict(m: DrawingStateManager, pos: Point, vertices: VertexDict)
    modifies m, vertices
    ensures !m.isDraggingPolygon && m.dragInitialVertices == vertices
    ensures vertices.entries == map[]
  {
    m.StartPolygonDrag(pos, vertices);
    m.EndPolygonDrag();
  }
}
