/**
 * The export-side helpers of `SaveExportManager`
 * (ui/managers/save_export_manager.py): the per-viewer segment filter used
 * when each viewer of the multi-view mode is saved, the AI fragment filter
 * toggle and the trivial cases of the fragment threshold.
 */
module SaveExport {
  import opened Wrappers
  import opened Geometry
  import opened Segments

  /** Keys starting with `_` are internal metadata and never saved. */
  predicate IsPrivate(k: string)
  {
    |k| > 0 && k[0] == '_'
  }

  const SourceViewerKey: string := "_source_viewer"

  /** `{k: v for k, v in extra.items() if not k.startswith("_")}` */
  function PublicOnly(extra: map<string, Extra>): (r: map<string, Extra>)
    ensures forall k :: k in r <==> k in extra && !IsPrivate(k)
    ensures forall k | k in r :: r[k] == extra[k]
  {
    map k | k in extra && !IsPrivate(k) :: extra[k]
  }

  /**
   * What one segment contributes to viewer `v`'s output, if anything.  A
   * `views` segment contributes its type and class overlaid with that
   * viewer's data, without `_source_viewer`.  A legacy segment tagged with
   * a `_source_viewer` other than None contributes only to that viewer, and
   * an untagged one (no key, or None under it) to every viewer, both without
   * `_`-prefixed keys.
   */
  function ForViewer(seg: Segment, v: int): (r: Option<Segment>)
    ensures seg.views.Some? ==> (r.Some? <==> v in seg.views.value)
    ensures seg.views.Some? && r.Some? ==>
              var view := seg.views.value[v];
              && r.value.kind == seg.kind && r.value.classId == seg.classId
              && r.value.vertices == view.vertices && r.value.mask == view.mask && r.value.views.None?
              && SourceViewerKey !in r.value.extra
              && forall k | k in r.value.extra :: k in view.extra && r.value.extra[k] == view.extra[k]
    ensures seg.views.Some? && r.Some? ==>
              forall k | k in seg.views.value[v].extra && k != SourceViewerKey :: k in r.value.extra
    ensures seg.views.None? && SourceViewerKey in seg.extra && seg.extra[SourceViewerKey] != XNone ==>
              (r.Some? <==> seg.extra[SourceViewerKey] == XInt(v))
    ensures seg.views.None? && (SourceViewerKey !in seg.extra || seg.extra[SourceViewerKey] == XNone) ==> r.Some?
    ensures seg.views.None? && r.Some? ==> r.value == seg.(extra := PublicOnly(seg.extra))
  {
    match seg.views
    case Some(views) =>
      if v in views then
        var view := views[v];
        Some(Segment(seg.kind, seg.classId, view.vertices, view.mask, None, view.extra - {SourceViewerKey}))
      else None
    case None =>
      if SourceViewerKey in seg.extra && seg.extra[SourceViewerKey] != XNone then
        if seg.extra[SourceViewerKey] == XInt(v) then Some(seg.(extra := PublicOnly(seg.extra))) else None
      else Some(seg.(extra := PublicOnly(seg.extra)))
  }

  /** `get_segments_for_viewer`: the contributions of all segments, in store order. */
  function SegmentsForViewer(segs: seq<Segment>, v: int): (r: seq<Segment>)
    ensures |r| <= |segs|
  {
    if segs == [] then []
    else
      var init := SegmentsForViewer(segs[..|segs| - 1], v);
      match ForViewer(segs[|segs| - 1], v)
      case None => init
      case Some(s) => init + [s]
  }

  /** The filter works segment by segment: the output of a concatenation is the concatenation of outputs. */
  lemma {:induction false} SegmentsForViewerAppend(a: seq<Segment>, b: seq<Segment>, v: int)
    ensures SegmentsForViewer(a + b, v) == SegmentsForViewer(a, v) + SegmentsForViewer(b, v)
    decreases |b|
  {
    if b == [] {
      assert a + b == a;
    } else {
      var n := |b| - 1;
      assert (a + b)[..|a + b| - 1] == a + b[..n];
      assert (a + b)[|a + b| - 1] == b[n];
      SegmentsForViewerAppend(a, b[..n], v);
    }
  }

  /** Each output is the contribution of some input, and every contribution appears. */
  lemma {:induction false} SegmentsForViewerMembers(segs: seq<Segment>, v: int)
    ensures forall s | s in SegmentsForViewer(segs, v) :: exists i :: 0 <= i < |segs| && ForViewer(segs[i], v) == Some(s)
    ensures forall i | 0 <= i < |segs| && ForViewer(segs[i], v).Some? :: ForViewer(segs[i], v).value in SegmentsForViewer(segs, v)
  {
    if segs != [] {
      var n := |segs| - 1;
      SegmentsForViewerMembers(segs[..n], v);
      assert forall i | 0 <= i < n :: segs[..n][i] == segs[i];
    }
  }

  /** Nothing saved for a viewer carries a `_source_viewer` tag. */
  lemma {:induction false} NoSourceTagSaved(segs: seq<Segment>, v: int)
    ensures forall s | s in SegmentsForViewer(segs, v) :: SourceViewerKey !in s.extra
  {
    SegmentsForViewerMembers(segs, v);
    forall s | s in SegmentsForViewer(segs, v)
      ensures SourceViewerKey !in s.extra
    {
      var i :| 0 <= i < |segs| && ForViewer(segs[i], v) == Some(s);
      assert IsPrivate(SourceViewerKey);
    }
  }

  /** `toggle_ai_filter`: the remembered value when the filter is off, else 0. */
  function ToggledAiFilter(threshold: int, lastValue: int): (r: int)
    ensures threshold == 0 ==> r == lastValue
    ensures threshold != 0 ==> r == 0
  {
    if threshold == 0 then lastValue else 0
  }

  /** Toggling twice leaves the filter off when it started off, and at the remembered value when it started on. */
  lemma ToggleAiFilterTwice(threshold: int, lastValue: int)
    ensures ToggledAiFilter(ToggledAiFilter(threshold, lastValue), lastValue) == (if threshold == 0 then 0 else lastValue)
  {
  }

  /**
   * `apply_fragment_threshold`: no mask stays no mask, a zero threshold keeps
   * the mask; otherwise the contour filter (`filterContours`) decides.
   */
  function ApplyFragmentThreshold(mask: Option<Mask>, threshold: int, filterContours: (Mask, int) -> Option<Mask>)
    : (r: Option<Mask>)
    ensures mask.None? ==> r.None?
    ensures mask.Some? && threshold == 0 ==> r == mask
    ensures mask.Some? && threshold != 0 ==> r == filterContours(mask.value, threshold)
  {
    if mask.None? then None
    else if threshold == 0 then mask
    else filterContours(mask.value, threshold)
  }
}
