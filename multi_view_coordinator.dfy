/**
 * Link and active-viewer state of the two-viewer mode, with the per-viewer
 * SAM prompt points and preview state (`MultiViewCoordinator` in
 * ui/managers/multi_view_coordinator.py).  Each per-viewer dict keyed by 0
 * and 1 is a two-element sequence indexed by the viewer.  The Qt signals `link_state_changed`
 * and `active_viewer_changed` are ghost logs of the values emitted.  Preview
 * masks and graphics items are opaque type parameters.
 */
module MultiViewCoordinator {
  import opened Wrappers
  import opened Geometry

  /** The two viewer slots, `(0, 1)` in the source. */
  predicate IsViewer(i: int) { i == 0 || i == 1 }

  class MultiViewCoordinator<M, I> {
    var isLinked: bool
    var activeViewer: int
    var positive: seq<seq<Point>>
    var negative: seq<seq<Point>>
    var previewMasks: seq<Option<M>>
    var previewItems: seq<Option<I>>
    var pointItems: seq<seq<I>>
    ghost var linkEvents: seq<bool>
    ghost var activeEvents: seq<int>

    ghost predicate Valid()
      reads this
    {
      && IsViewer(activeViewer)
      && |positive| == 2 && |negative| == 2
      && |previewMasks| == 2 && |previewItems| == 2 && |pointItems| == 2
    }

    /** Linked, viewer 0 active, no points, no previews, nothing emitted. */
    constructor()
      ensures Valid()
      ensures isLinked && activeViewer == 0
      ensures positive == [[], []] && negative == [[], []]
      ensures previewMasks == [None, None] && previewItems == [None, None]
      ensures pointItems == [[], []]
      ensures linkEvents == [] && activeEvents == []
    {
      isLinked := true;
      activeViewer := 0;
      positive := [[], []];
      negative := [[], []];
      previewMasks := [None, None];
      previewItems := [None, None];
      pointItems := [[], []];
      linkEvents := [];
      activeEvents := [];
    }

    /** `toggle_link`: flips the state, emits the new value and returns it. */
    method ToggleLink() returns (linked: bool)
      requires Valid()
      modifies this
      ensures Valid()
      ensures linked == !old(isLinked) && isLinked == linked
      ensures linkEvents == old(linkEvents) + [linked]
      ensures activeViewer == old(activeViewer) && activeEvents == old(activeEvents)
      ensures positive == old(positive) && negative == old(negative)
      ensures previewMasks == old(previewMasks) && previewItems == old(previewItems)
      ensures pointItems == old(pointItems)
    {
      isLinked := !isLinked;
      linkEvents := linkEvents + [isLinked];
      linked := isLinked;
    }

    /** `set_linked`: changes the state, and emits, only when the value differs. */
    method SetLinked(linked: bool)
      requires Valid()
      modifies this
      ensures Valid()
      ensures isLinked == linked
      ensures linkEvents == if old(isLinked) == linked then old(linkEvents) else old(linkEvents) + [linked]
      ensures activeViewer == old(activeViewer) && activeEvents == old(activeEvents)
      ensures positive == old(positive) && negative == old(negative)
      ensures previewMasks == old(previewMasks) && previewItems == old(previewItems)
      ensures pointItems == old(pointItems)
    {
      if isLinked != linked {
        isLinked := linked;
        linkEvents := linkEvents + [linked];
      }
    }

    /** `set_active_viewer`: ignores anything but 0 and 1; emits only on a change. */
    method SetActiveViewer(i: int)
      requires Valid()
      modifies this
      ensures Valid()
      ensures activeViewer == if IsViewer(i) then i else old(activeViewer)
      ensures activeEvents == if IsViewer(i) && i != old(activeViewer) then old(activeEvents) + [i] else old(activeEvents)
      ensures isLinked == old(isLinked) && linkEvents == old(linkEvents)
      ensures positive == old(positive) && negative == old(negative)
      ensures previewMasks == old(previewMasks) && previewItems == old(previewItems)
      ensures pointItems == old(pointItems)
    {
      if !IsViewer(i) {
        return;
      }
      if activeViewer != i {
        activeViewer := i;
        activeEvents := activeEvents + [i];
      }
    }

    /** `get_other_viewer_idx`: the viewer that is not active. */
    function OtherViewer(): (r: int)
      requires Valid()
      reads this
      ensures IsViewer(r) && r != activeViewer
      ensures r + activeViewer == 1
    {
      if activeViewer == 0 then 1 else 0
    }

    /** `get_positive_points`: a viewer's positive prompts, `[]` for any other index. */
    function PositivePoints(i: int): (r: seq<Point>)
      requires Valid()
      reads this
      ensures !IsViewer(i) ==> r == []
      ensures IsViewer(i) ==> r == positive[i]
    {
      if IsViewer(i) then positive[i] else []
    }

    /** `get_negative_points`: a viewer's negative prompts, `[]` for any other index. */
    function NegativePoints(i: int): (r: seq<Point>)
      requires Valid()
      reads this
      ensures !IsViewer(i) ==> r == []
      ensures IsViewer(i) ==> r == negative[i]
    {
      if IsViewer(i) then negative[i] else []
    }

    /** `add_point`: appends to one list of a valid viewer; nothing else changes. */
    method AddPoint(i: int, p: Point, isPositive: bool)
      requires Valid()
      modifies this
      ensures Valid()
      ensures positive == if IsViewer(i) && isPositive then old(positive)[i := old(positive)[i] + [p]] else old(positive)
      ensures negative == if IsViewer(i) && !isPositive then old(negative)[i := old(negative)[i] + [p]] else old(negative)
      ensures isLinked == old(isLinked) && activeViewer == old(activeViewer)
      ensures linkEvents == old(linkEvents) && activeEvents == old(activeEvents)
      ensures previewMasks == old(previewMasks) && previewItems == old(previewItems)
      ensures pointItems == old(pointItems)
    {
      if !IsViewer(i) {
        return;
      }
      if isPositive {
        positive := positive[i := positive[i] + [p]];
      } else {
        negative := negative[i := negative[i] + [p]];
      }
    }

    /** `clear_points`: empties both lists of a valid viewer; the other viewer keeps its points. */
    method ClearPoints(i: int)
      requires Valid()
      modifies this
      ensures Valid()
      ensures IsViewer(i) ==> positive[i] == [] && negative[i] == []
      ensures forall j | IsViewer(j) && j != i :: positive[j] == old(positive)[j] && negative[j] == old(negative)[j]
      ensures isLinked == old(isLinked) && activeViewer == old(activeViewer)
      ensures linkEvents == old(linkEvents) && activeEvents == old(activeEvents)
      ensures previewMasks == old(previewMasks) && previewItems == old(previewItems)
      ensures pointItems == old(pointItems)
    {
      if !IsViewer(i) {
        return;
      }
      positive := positive[i := []];
      negative := negative[i := []];
    }

    /** `clear_all_points` */
    method ClearAllPoints()
      requires Valid()
      modifies this
      ensures Valid()
      ensures positive == [[], []] && negative == [[], []]
      ensures isLinked == old(isLinked) && activeViewer == old(activeViewer)
      ensures linkEvents == old(linkEvents) && activeEvents == old(activeEvents)
      ensures previewMasks == old(previewMasks) && previewItems == old(previewItems)
      ensures pointItems == old(pointItems)
    {
      ClearPoints(0);
      ClearPoints(1);
    }

    /** `set_preview_mask`: only for a valid viewer. */
    method SetPreviewMask(i: int, mask: Option<M>)
      requires Valid()
      modifies this
      ensures Valid()
      ensures previewMasks == if IsViewer(i) then old(previewMasks)[i := mask] else old(previewMasks)
      ensures isLinked == old(isLinked) && activeViewer == old(activeViewer)
      ensures linkEvents == old(linkEvents) && activeEvents == old(activeEvents)
      ensures positive == old(positive) && negative == old(negative)
      ensures previewItems == old(previewItems) && pointItems == old(pointItems)
    {
      if IsViewer(i) {
        previewMasks := previewMasks[i := mask];
      }
    }

    /** `get_preview_mask`: `dict.get`, so None for any other index. */
    function PreviewMask(i: int): (r: Option<M>)
      requires Valid()
      reads this
      ensures !IsViewer(i) ==> r.None?
      ensures IsViewer(i) ==> r == previewMasks[i]
    {
      if IsViewer(i) then previewMasks[i] else None
    }

    /** `set_preview_item`: only for a valid viewer. */
    method SetPreviewItem(i: int, item: Option<I>)
      requires Valid()
      modifies this
      ensures Valid()
      ensures previewItems == if IsViewer(i) then old(previewItems)[i := item] else old(previewItems)
      ensures isLinked == old(isLinked) && activeViewer == old(activeViewer)
      ensures linkEvents == old(linkEvents) && activeEvents == old(activeEvents)
      ensures positive == old(positive) && negative == old(negative)
      ensures previewMasks == old(previewMasks) && pointItems == old(pointItems)
    {
      if IsViewer(i) {
        previewItems := previewItems[i := item];
      }
    }

    /** `get_preview_item`: `dict.get`, so None for any other index. */
    function PreviewItem(i: int): (r: Option<I>)
      requires Valid()
      reads this
      ensures !IsViewer(i) ==> r.None?
      ensures IsViewer(i) ==> r == previewItems[i]
    {
      if IsViewer(i) then previewItems[i] else None
    }

    /** `get_point_items`: `[]` for any other index. */
    function PointItems(i: int): (r: seq<I>)
      requires Valid()
      reads this
      ensures !IsViewer(i) ==> r == []
      ensures IsViewer(i) ==> r == pointItems[i]
    {
      if IsViewer(i) then pointItems[i] else []
    }

    /** `add_point_item`: only for a valid viewer. */
    method AddPointItem(i: int, item: I)
      requires Valid()
      modifies this
      ensures Valid()
      ensures pointItems == if IsViewer(i) then old(pointItems)[i := old(pointItems)[i] + [item]] else old(pointItems)
      ensures isLinked == old(isLinked) && activeViewer == old(activeViewer)
      ensures linkEvents == old(linkEvents) && activeEvents == old(activeEvents)
      ensures positive == old(positive) && negative == old(negative)
      ensures previewMasks == old(previewMasks) && previewItems == old(previewItems)
    {
      if IsViewer(i) {
        pointItems := pointItems[i := pointItems[i] + [item]];
      }
    }

    /** `clear_point_items`: only for a valid viewer. */
    method ClearPointItems(i: int)
      requires Valid()
      modifies this
      ensures Valid()
      ensures pointItems == if IsViewer(i) then old(pointItems)[i := []] else old(pointItems)
      ensures isLinked == old(isLinked) && activeViewer == old(activeViewer)
      ensures linkEvents == old(linkEvents) && activeEvents == old(activeEvents)
      ensures positive == old(positive) && negative == old(negative)
      ensures previewMasks == old(previewMasks) && previewItems == old(previewItems)
    {
      if IsViewer(i) {
        pointItems := pointItems[i := []];
      }
    }

    /** Whether viewer `i` holds no preview, no point items and no points. */
    ghost predicate Cleared(i: int)
      requires Valid() && IsViewer(i)
      reads this
    {
      && previewMasks[i].None? && previewItems[i].None? && pointItems[i] == []
      && positive[i] == [] && negative[i] == []
    }

    /** One pass of the `clear_all_preview_state` loop; the other viewer is untouched. */
    method ResetViewer(i: int)
      requires Valid() && IsViewer(i)
      modifies this
      ensures Valid() && Cleared(i)
      ensures var j := 1 - i;
                && previewMasks[j] == old(previewMasks)[j] && previewItems[j] == old(previewItems)[j]
                && pointItems[j] == old(pointItems)[j]
                && positive[j] == old(positive)[j] && negative[j] == old(negative)[j]
      ensures isLinked == old(isLinked) && activeViewer == old(activeViewer)
      ensures linkEvents == old(linkEvents) && activeEvents == old(activeEvents)
    {
      previewMasks := previewMasks[i := None];
      previewItems := previewItems[i := None];
      pointItems := pointItems[i := []];
      positive := positive[i := []];
      negative := negative[i := []];
    }

    /** `clear_all_preview_state`: both viewers lose masks, items, point items and points. */
    method ClearAllPreviewState()
      requires Valid()
      modifies this
      ensures Valid() && Cleared(0) && Cleared(1)
      ensures isLinked == old(isLinked) && activeViewer == old(activeViewer)
      ensures linkEvents == old(linkEvents) && activeEvents == old(activeEvents)
    {
      for i := 0 to 2
        invariant Valid()
        invariant i > 0 ==> Cleared(0)
        invariant i > 1 ==> Cleared(1)
        invariant isLinked == old(isLinked) && activeViewer == old(activeViewer)
        invariant linkEvents == old(linkEvents) && activeEvents == old(activeEvents)
      {
        ResetViewer(i);
      }
    }

    /** `get_target_viewers`: both viewers when linked, else only the active one. */
    function TargetViewers(): (r: seq<int>)
      requires Valid()
      reads this
      ensures activeViewer in r && forall k | 0 <= k < |r| :: IsViewer(r[k])
      ensures isLinked <==> r == [0, 1]
      ensures !isLinked <==> r == [activeViewer]
    {
      if isLinked then [0, 1] else [activeViewer]
    }

    /** `should_mirror_operation`: mirroring happens exactly when more than one viewer is targeted. */
    predicate ShouldMirror()
      requires Valid()
      reads this
      ensures ShouldMirror() <==> |TargetViewers()| > 1
    {
      isLinked
    }
  }
}
