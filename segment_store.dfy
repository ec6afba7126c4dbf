/**
 * The segment store (`SegmentManager` in core/segment_manager.py): the list of
 * segment records, the class-alias table and the class-id bookkeeping
 * (`next_class_id`, `active_class_id`, `last_toggled_class_id`), with the
 * operations that edit them.  Mask export lives in module MaskExport.
 */
module SegmentStore {
  import opened Wrappers
  import opened Geometry
  import opened Seqs
  import opened Segments
  import Text

  /** One entry of the list that an erase returns: `{"index": i, "segment": copy}`. */
  datatype RemovedEntry = RemovedEntry(index: nat, segment: Segment)

  /** The class `add_segment` gives a segment that arrives without one. */
  function DefaultClass(active: Option<int>, next: int): int
  {
    if active.Some? then active.value else next
  }

  function WithClass(data: Segment, active: Option<int>, next: int): Segment
  {
    if data.classId.Some? then data else data.(classId := Some(DefaultClass(active, next)))
  }

  // ----- assign_segments_to_class -----

  /** The positions that the index list addresses (Python indexing, negatives from the end). */
  predicate Addresses(indices: seq<int>, n: nat, p: nat)
  {
    p in indices || p - n in indices
  }

  function Targets(indices: seq<int>, n: nat): set<nat>
  {
    set p: nat | p < n && Addresses(indices, n, p)
  }

  lemma TargetsSnoc(indices: seq<int>, k: nat, n: nat)
    requires k < |indices| && 0 <= indices[k] + n
    ensures forall p: nat :: p in Targets(indices[..k + 1], n) <==>
              p in Targets(indices[..k], n) || (indices[k] < n && p == PyIndex(indices[k], n).value)
  {
    assert indices[..k + 1] == indices[..k] + [indices[k]];
  }

  /** Some index lies below `-n`, so `segments[i]` raises IndexError. */
  predicate IndexErrorIn(indices: seq<int>, n: nat)
  {
    exists i | i in indices :: i + n < 0
  }

  /** The class ids that the targeted segments already carry, in index-list order. */
  function ExistingIds(segs: seq<Segment>, indices: seq<int>): (r: seq<int>)
    requires !IndexErrorIn(indices, |segs|)
    ensures forall c :: c in r <==> exists p :: p in Targets(indices, |segs|) && segs[p].classId == Some(c)
  {
    if indices == [] then []
    else
      assert forall x | x in indices[1..] :: x in indices;
      var rest := ExistingIds(segs, indices[1..]);
      var i := indices[0];
      assert i in indices;
      assert forall p :: p in Targets(indices, |segs|) <==> p in Targets(indices[1..], |segs|) || (PyIndex(i, |segs|).Some? && p == PyIndex(i, |segs|).value);
      if i < |segs| then
        var p := PyIndex(i, |segs|).value;
        match segs[p].classId
        case None => rest
        case Some(c) => [c] + rest
      else rest
  }

  function MinOf(s: seq<int>): (m: int)
    requires s != []
    ensures m in s && forall x | x in s :: m <= x
  {
    if |s| == 1 then s[0]
    else
      var r := MinOf(s[1..]);
      assert s == [s[0]] + s[1..];
      if s[0] <= r then s[0] else r
  }

  /** The class every target receives: the smallest existing one, else `next`. */
  function AssignTarget(segs: seq<Segment>, indices: seq<int>, next: int): int
    requires !IndexErrorIn(indices, |segs|)
  {
    var ids := ExistingIds(segs, indices);
    if ids != [] then MinOf(ids) else next
  }

  /** The assigned class is the minimum of the targets' classes, or `next` when none has one. */
  lemma AssignTargetIsMinimum(segs: seq<Segment>, indices: seq<int>, next: int)
    requires !IndexErrorIn(indices, |segs|)
    ensures var t := AssignTarget(segs, indices, next);
            var ts := Targets(indices, |segs|);
            && ((exists p :: p in ts && segs[p].classId.Some?) ==>
                  (exists p :: p in ts && segs[p].classId == Some(t))
                  && forall p | p in ts && segs[p].classId.Some? :: t <= segs[p].classId.value)
            && ((forall p | p in ts :: segs[p].classId.None?) ==> t == next)
  {
    var ids := ExistingIds(segs, indices);
    var ts := Targets(indices, |segs|);
    if exists p :: p in ts && segs[p].classId.Some? {
      var p :| p in ts && segs[p].classId.Some?;
      assert segs[p].classId.value in ids;
    }
    if ids != [] {
      var t := MinOf(ids);
      forall p | p in ts && segs[p].classId.Some? ensures t <= segs[p].classId.value {
        assert segs[p].classId.value in ids;
      }
    }
  }

  // ----- reassign_class_ids -----

  /** `{old: new for new, old in enumerate(order)}`: a repeated id keeps its last position. */
  function IdMap(order: seq<int>): map<int, nat>
  {
    if order == [] then map[]
    else
      var n := |order| - 1;
      IdMap(order[..n])[order[n] := n]
  }

  /** Every listed id is mapped, to the last position where it is listed. */
  lemma {:induction false} IdMapSpec(order: seq<int>)
    ensures forall c :: c in IdMap(order) <==> c in order
    ensures forall c | c in IdMap(order) :: IdMap(order)[c] < |order| && order[IdMap(order)[c]] == c
    ensures forall c, j | c in IdMap(order) && 0 <= j < |order| && order[j] == c :: j <= IdMap(order)[c]
  {
    if order != [] {
      var n := |order| - 1;
      var init := order[..n];
      IdMapSpec(init);
      assert order == init + [order[n]];
    }
  }

  /** Different ids never share a new index. */
  lemma IdMapInjective(order: seq<int>, a: int, b: int)
    requires a in IdMap(order) && b in IdMap(order) && a != b
    ensures IdMap(order)[a] != IdMap(order)[b]
  {
    IdMapSpec(order);
  }

  /** `j` is the last position of `order[j]`. */
  predicate IsLastOccurrence(order: seq<int>, j: int)
    requires 0 <= j < |order|
  {
    forall k | j < k < |order| :: order[k] != order[j]
  }

  function Relabel(seg: Segment, m: map<int, nat>): Segment
  {
    if seg.classId.Some? && seg.classId.value in m then seg.(classId := Some(m[seg.classId.value])) else seg
  }

  /** The alias table after a reorder: each aliased id's alias moves to its new index. */
  function ReorderedAliases(aliases: map<int, string>, order: seq<int>): map<int, string>
  {
    map j | 0 <= j < |order| && order[j] in aliases && IsLastOccurrence(order, j) :: aliases[order[j]]
  }

  /** After a reorder, the alias of every listed id sits at its new index, and nothing else is aliased. */
  lemma ReorderedAliasesSpec(aliases: map<int, string>, order: seq<int>)
    ensures var r := ReorderedAliases(aliases, order);
            && (forall c | c in aliases && c in order :: c in IdMap(order) && IdMap(order)[c] in r && r[IdMap(order)[c]] == aliases[c])
            && (forall j | j in r :: 0 <= j < |order| && order[j] in aliases && order[j] in IdMap(order) && IdMap(order)[order[j]] == j && r[j] == aliases[order[j]])
  {
    var r := ReorderedAliases(aliases, order);
    var m := IdMap(order);
    IdMapSpec(order);
    forall c | c in aliases && c in order ensures m[c] in r && r[m[c]] == aliases[c] {
      assert IsLastOccurrence(order, m[c]);
    }
    forall j | j in r ensures m[order[j]] == j {
      assert j <= m[order[j]];
    }
  }

  function Relabelled(segs: seq<Segment>, m: map<int, nat>): (r: seq<Segment>)
    ensures |r| == |segs| && forall i | 0 <= i < |segs| :: r[i] == Relabel(segs[i], m)
  {
    seq(|segs|, i requires 0 <= i < |segs| => Relabel(segs[i], m))
  }

  /** Reordering by a list that holds every class present renumbers the classes into 0..len-1. */
  lemma ReassignDense(segs: seq<Segment>, order: seq<int>)
    requires forall c | c in ClassIds(segs) :: c in order
    ensures forall c | c in ClassIds(Relabelled(segs, IdMap(order))) :: 0 <= c < |order|
  {
    var r := Relabelled(segs, IdMap(order));
    IdMapSpec(order);
    ClassIdsSpec(r);
    ClassIdsSpec(segs);
    var m := IdMap(order);
    forall c | c in ClassIds(r) ensures 0 <= c < |order| {
      var i :| 0 <= i < |r| && r[i].classId == Some(c);
      var old_c := segs[i].classId.value;
      assert old_c in ClassIds(segs);
      assert old_c in m;
      assert c == m[old_c];
    }
  }

  // ----- merge_segments_by_class -----

  /** The mask a segment contributes to a merge: a rasterised non-empty polygon, else its mask. */
  function MergeMaskOf(seg: Segment, h: int, w: int, raster: Rasterizer): Option<Mask>
  {
    if seg.kind == Polygon && seg.vertices.Some? && seg.vertices.value != [] then
      RasterizePolygon(raster, seg.vertices.value, h, w)
    else seg.mask
  }

  /** Pixel `p` comes from `seg` into the merge of class `c` on an h-by-w grid. */
  predicate ContributesTo(seg: Segment, c: int, h: int, w: int, raster: Rasterizer, p: Pixel)
  {
    && seg.classId == Some(c)
    && MergeMaskOf(seg, h, w, raster).Some?
    && MergeMaskOf(seg, h, w, raster).value.h == h && MergeMaskOf(seg, h, w, raster).value.w == w
    && p in MergeMaskOf(seg, h, w, raster).value.px
  }

  /** The shape of the first segment that carries a mask (`image_size` of the merge). */
  function FirstMaskShape(segs: seq<Segment>): (r: Option<(int, int)>)
    ensures r.None? <==> forall i | 0 <= i < |segs| :: segs[i].mask.None?
  {
    if segs == [] then None
    else if segs[0].mask.Some? then Some((segs[0].mask.value.h, segs[0].mask.value.w))
    else
      var r := FirstMaskShape(segs[1..]);
      assert forall i | 1 <= i < |segs| :: segs[i] == segs[1..][i - 1];
      r
  }

  /** The OR of the class-`c` masks of the right shape. */
  function MergedMask(segs: seq<Segment>, c: int, h: int, w: int, raster: Rasterizer): (m: Mask)
    ensures m.h == h && m.w == w
  {
    if segs == [] then Empty(h, w)
    else
      var n := |segs| - 1;
      var acc := MergedMask(segs[..n], c, h, w, raster);
      var mk := MergeMaskOf(segs[n], h, w, raster);
      if segs[n].classId == Some(c) && mk.Some? && mk.value.h == h && mk.value.w == w then Or(acc, mk.value) else acc
  }

  /** A pixel is in the merged mask of class `c` exactly when some class-`c` segment contributes it. */
  lemma {:induction false} MergedMaskPixels(segs: seq<Segment>, c: int, h: int, w: int, raster: Rasterizer, p: Pixel)
    ensures p in MergedMask(segs, c, h, w, raster).px <==> exists i :: 0 <= i < |segs| && ContributesTo(segs[i], c, h, w, raster, p)
  {
    if segs != [] {
      var n := |segs| - 1;
      var init := segs[..n];
      MergedMaskPixels(init, c, h, w, raster, p);
      assert forall i | 0 <= i < n :: init[i] == segs[i];
      if exists i :: 0 <= i < |segs| && ContributesTo(segs[i], c, h, w, raster, p) {
        var i :| 0 <= i < |segs| && ContributesTo(segs[i], c, h, w, raster, p);
        if i < n {
          assert ContributesTo(init[i], c, h, w, raster, p);
        }
      }
    }
  }

  /** The merged segment list for the classes `ids`, dropping classes whose merge is empty. */
  function MergeOutput(segs: seq<Segment>, ids: seq<int>, h: int, w: int, raster: Rasterizer): (r: seq<Segment>)
    ensures |r| <= |ids|
    ensures forall k | 0 <= k < |r| :: r[k].kind == Loaded && r[k].mask.Some? && r[k].mask.value.Any()
                                       && r[k].vertices.None? && r[k].views.None? && r[k].classId.Some?
                                       && r[k].classId.value in ids
                                       && r[k].mask.value == MergedMask(segs, r[k].classId.value, h, w, raster)
  {
    if ids == [] then []
    else
      var n := |ids| - 1;
      var rest := MergeOutput(segs, ids[..n], h, w, raster);
      var m := MergedMask(segs, ids[n], h, w, raster);
      assert forall k | 0 <= k < |rest| :: rest[k].classId.value in ids;
      rest + (if m.Any() then [MaskSegment(Loaded, m, Some(ids[n]))] else [])
  }

  /** Every segment has a class and the classes strictly increase along the list. */
  predicate ClassesIncreasing(r: seq<Segment>)
  {
    forall k, l | 0 <= k < l < |r| :: r[k].classId.Some? && r[l].classId.Some? && r[k].classId.value < r[l].classId.value
  }

  /** The classes of the merged list appear in increasing order when `ids` does. */
  lemma {:induction false} MergeOutputIncreasing(segs: seq<Segment>, ids: seq<int>, h: int, w: int, raster: Rasterizer)
    requires Increasing(ids)
    ensures ClassesIncreasing(MergeOutput(segs, ids, h, w, raster))
  {
    if ids != [] {
      var n := |ids| - 1;
      var init := ids[..n];
      assert Increasing(init);
      MergeOutputIncreasing(segs, init, h, w, raster);
      var rest := MergeOutput(segs, init, h, w, raster);
      var m := MergedMask(segs, ids[n], h, w, raster);
      var tail := if m.Any() then [MaskSegment(Loaded, m, Some(ids[n]))] else [];
      assert below: forall k | 0 <= k < |rest| :: rest[k].classId.Some? && rest[k].classId.value < ids[n] by {
        forall k | 0 <= k < |rest| ensures rest[k].classId.Some? && rest[k].classId.value < ids[n] {
          var j :| 0 <= j < |init| && init[j] == rest[k].classId.value;
          assert ids[j] < ids[n];
        }
      }
      assert MergeOutput(segs, ids, h, w, raster) == rest + tail;
      SnocIncreasing(rest, tail, ids[n]);
    }
  }

  /** Appending at most one segment of a class above all classes present keeps the classes increasing. */
  lemma SnocIncreasing(rest: seq<Segment>, tail: seq<Segment>, c: int)
    requires ClassesIncreasing(rest) && |tail| <= 1
    requires forall k | 0 <= k < |rest| :: rest[k].classId.Some? && rest[k].classId.value < c
    requires forall k | 0 <= k < |tail| :: tail[k].classId == Some(c)
    ensures ClassesIncreasing(rest + tail)
  {
    var r := rest + tail;
    forall k, l | 0 <= k < l < |r| ensures r[k].classId.Some? && r[l].classId.Some? && r[k].classId.value < r[l].classId.value {
      assert r[k] == rest[k];
      if l < |rest| {
        assert r[l] == rest[l];
      } else {
        assert r[l] == tail[0];
      }
    }
  }

  /** A class with a non-empty merge has a merged segment. */
  lemma {:induction false} MergeOutputHasClass(segs: seq<Segment>, ids: seq<int>, h: int, w: int, raster: Rasterizer, c: int)
    requires c in ids && MergedMask(segs, c, h, w, raster).Any()
    ensures exists k :: 0 <= k < |MergeOutput(segs, ids, h, w, raster)| && MergeOutput(segs, ids, h, w, raster)[k].classId == Some(c)
  {
    var n := |ids| - 1;
    var r := MergeOutput(segs, ids, h, w, raster);
    if ids[n] == c {
      assert r[|r| - 1].classId == Some(c);
    } else {
      assert c in ids[..n];
      MergeOutputHasClass(segs, ids[..n], h, w, raster, c);
      var rest := MergeOutput(segs, ids[..n], h, w, raster);
      var k :| 0 <= k < |rest| && rest[k].classId == Some(c);
      assert r[k] == rest[k];
    }
  }

  /**
   * Merge by class: one segment per class, in increasing class order, whose
   * pixels are exactly the pixels the class's segments contribute.
   */
  lemma MergeIsUnionPerClass(segs: seq<Segment>, h: int, w: int, raster: Rasterizer, c: int, p: Pixel)
    ensures var r := MergeOutput(segs, UniqueClassIds(segs), h, w, raster);
            (exists k :: 0 <= k < |r| && r[k].classId == Some(c) && p in r[k].mask.value.px)
            <==> (exists i :: 0 <= i < |segs| && ContributesTo(segs[i], c, h, w, raster, p))
  {
    var ids := UniqueClassIds(segs);
    var r := MergeOutput(segs, ids, h, w, raster);
    if exists i :: 0 <= i < |segs| && ContributesTo(segs[i], c, h, w, raster, p) {
      var i :| 0 <= i < |segs| && ContributesTo(segs[i], c, h, w, raster, p);
      ClassIdsSpec(segs);
      assert c in ClassIds(segs);
      MergedMaskPixels(segs, c, h, w, raster, p);
      MergeOutputHasClass(segs, ids, h, w, raster, c);
    } else {
      forall k | 0 <= k < |r| && r[k].classId == Some(c) ensures p !in r[k].mask.value.px {
        MergedMaskPixels(segs, c, h, w, raster, p);
      }
    }
  }

  // ----- erase (single view) -----

  /**
   * `_get_segment_mask` without a viewer: a polygon with vertices is rasterised
   * on the image grid, any other segment offers its mask.
   */
  function SegmentMask(seg: Segment, h: int, w: int, raster: Rasterizer): Option<Mask>
  {
    if seg.kind == Polygon && seg.vertices.Some? then RasterizePolygon(raster, seg.vertices.value, h, w)
    else seg.mask
  }

  /** The segment's mask brought to the eraser's shape (cv2.resize when they differ). */
  function AlignedMask(seg: Segment, e: Mask, h: int, w: int, raster: Rasterizer, resize: (Mask, int, int) -> Mask): Option<Mask>
  {
    match SegmentMask(seg, h, w, raster)
    case None => None
    case Some(m) => Some(if m.SameShape(e) then m else resize(m, e.h, e.w))
  }

  predicate Hit(seg: Segment, e: Mask, h: int, w: int, raster: Rasterizer, resize: (Mask, int, int) -> Mask)
  {
    var m := AlignedMask(seg, e, h, w, raster, resize);
    m.Some? && Overlaps(e, m.value)
  }

  /** The components that are kept as new segments: more than 10 pixels. */
  function BigComponents(comps: seq<Mask>, classId: Option<int>): (r: seq<Segment>)
    ensures |r| <= |comps|
    ensures forall k | 0 <= k < |r| :: r[k].mask.Some? && r[k].mask.value in comps && r[k] == MaskSegment(AI, r[k].mask.value, classId)
                                       && |r[k].mask.value.px| > 10
  {
    if comps == [] then []
    else
      var n := |comps| - 1;
      var rest := BigComponents(comps[..n], classId);
      assert forall c | c in comps[..n] :: c in comps;
      rest + (if |comps[n].px| > 10 then [MaskSegment(AI, comps[n], classId)] else [])
  }

  /** `_split_mask_into_components` (single-view form). */
  function SplitIntoComponents(m: Mask, classId: Option<int>, labeller: Labeller): seq<Segment>
  {
    if !m.Any() then [] else BigComponents(labeller(m), classId)
  }

  /** The fragments that replace one erased segment. */
  function Fragments(seg: Segment, e: Mask, h: int, w: int, raster: Rasterizer, resize: (Mask, int, int) -> Mask, labeller: Labeller): seq<Segment>
  {
    if Hit(seg, e, h, w, raster, resize) then
      var rest := Minus(AlignedMask(seg, e, h, w, raster, resize).value, e);
      if rest.Any() then SplitIntoComponents(rest, seg.classId, labeller) else []
    else []
  }

  /** Positions of the segments that the eraser hits, ascending. */
  function HitPositions(segs: seq<Segment>, e: Mask, h: int, w: int, raster: Rasterizer, resize: (Mask, int, int) -> Mask): (r: seq<nat>)
    ensures forall k | 0 <= k < |r| :: r[k] < |segs|
    ensures forall k, l | 0 <= k < l < |r| :: r[k] < r[l]
  {
    if segs == [] then []
    else
      var n := |segs| - 1;
      var rest := HitPositions(segs[..n], e, h, w, raster, resize);
      rest + (if Hit(segs[n], e, h, w, raster, resize) then [n] else [])
  }

  /** The hit positions are exactly the segments the eraser overlaps. */
  lemma {:induction false} HitPositionsSpec(segs: seq<Segment>, e: Mask, h: int, w: int, raster: Rasterizer, resize: (Mask, int, int) -> Mask, i: int)
    requires 0 <= i < |segs|
    ensures i in HitPositions(segs, e, h, w, raster, resize) <==> Hit(segs[i], e, h, w, raster, resize)
  {
    var n := |segs| - 1;
    if i < n {
      HitPositionsSpec(segs[..n], e, h, w, raster, resize, i);
      assert segs[..n][i] == segs[i];
    }
  }

  function RemovedEntries(segs: seq<Segment>, positions: seq<nat>): (r: seq<RemovedEntry>)
    requires forall k | 0 <= k < |positions| :: positions[k] < |segs|
    ensures |r| == |positions|
    ensures forall k | 0 <= k < |r| :: r[k] == RemovedEntry(positions[k], segs[positions[k]])
  {
    seq(|positions|, k requires 0 <= k < |positions| => RemovedEntry(positions[k], segs[positions[k]]))
  }

  /** All fragments, in segment order. */
  function AllFragments(segs: seq<Segment>, e: Mask, h: int, w: int, raster: Rasterizer, resize: (Mask, int, int) -> Mask, labeller: Labeller): seq<Segment>
  {
    if segs == [] then []
    else
      var n := |segs| - 1;
      AllFragments(segs[..n], e, h, w, raster, resize, labeller) + Fragments(segs[n], e, h, w, raster, resize, labeller)
  }

  /** The segment list after a single-view erase: untouched segments in order, then the fragments. */
  function Erased(segs: seq<Segment>, e: Mask, h: int, w: int, raster: Rasterizer, resize: (Mask, int, int) -> Mask, labeller: Labeller): seq<Segment>
  {
    var hits := HitPositions(segs, e, h, w, raster, resize);
    KeepIdx(segs, set k | k in hits) + AllFragments(segs, e, h, w, raster, resize, labeller)
  }

  /** A segment the eraser does not overlap survives the erase unchanged. */
  lemma EraseKeepsUntouched(segs: seq<Segment>, e: Mask, h: int, w: int, raster: Rasterizer, resize: (Mask, int, int) -> Mask, labeller: Labeller, i: nat)
    requires i < |segs| && !Hit(segs[i], e, h, w, raster, resize)
    ensures segs[i] in Erased(segs, e, h, w, raster, resize, labeller)
  {
    HitPositionsSpec(segs, e, h, w, raster, resize, i);
    var hits := HitPositions(segs, e, h, w, raster, resize);
    var d := set k | k in hits;
    assert i !in d;
    KeepIdxMembers(segs, d, segs[i]);
  }

  /** A segment the eraser overlaps is gone from the untouched part of the result. */
  lemma EraseRemovesHit(segs: seq<Segment>, e: Mask, h: int, w: int, raster: Rasterizer, resize: (Mask, int, int) -> Mask, i: nat)
    requires i < |segs| && Hit(segs[i], e, h, w, raster, resize)
    ensures var hits := HitPositions(segs, e, h, w, raster, resize);
            var kept := KeptPositions(|segs|, set k | k in hits);
            i in hits && i !in kept
  {
    HitPositionsSpec(segs, e, h, w, raster, resize, i);
  }

  /** The kept components of a cover are more than 10 pixels and inside the covered mask. */
  lemma BigComponentsInside(m: Mask, comps: seq<Mask>, classId: Option<int>, k: nat)
    requires forall c | c in comps :: c.px <= m.px
    requires k < |BigComponents(comps, classId)|
    ensures var f := BigComponents(comps, classId)[k];
            f.kind == AI && f.classId == classId && f.vertices.None? && f.views.None? && f.mask.Some?
            && |f.mask.value.px| > 10 && f.mask.value.px <= m.px
  {
  }

  /** Every fragment of a segment is an "AI" mask segment of its class with more than 10 pixels, cut from what the eraser left. */
  lemma FragmentShape(seg: Segment, e: Mask, h: int, w: int, raster: Rasterizer, resize: (Mask, int, int) -> Mask, labeller: Labeller, k: nat)
    requires LabellerSound(labeller)
    requires k < |Fragments(seg, e, h, w, raster, resize, labeller)|
    ensures Hit(seg, e, h, w, raster, resize)
    ensures var f := Fragments(seg, e, h, w, raster, resize, labeller)[k];
            f.kind == AI && f.classId == seg.classId && f.vertices.None? && f.views.None? && f.mask.Some?
            && |f.mask.value.px| > 10
            && forall p | p in f.mask.value.px :: p in AlignedMask(seg, e, h, w, raster, resize).value.px && p !in e.px
  {
    var rest := Minus(AlignedMask(seg, e, h, w, raster, resize).value, e);
    var comps := labeller(rest);
    assert IsPartition(rest, comps);
    forall c | c in comps ensures c.px <= rest.px {
      var i :| 0 <= i < |comps| && comps[i] == c;
    }
    BigComponentsInside(rest, comps, seg.classId, k);
  }

  // ----- toggling -----

  /** The active class after `toggle_active_class(c)`. */
  function Toggled(active: Option<int>, c: int): (r: Option<int>)
    ensures r == Some(c) <==> active != Some(c)
    ensures r != Some(c) ==> r == None
  {
    if active == Some(c) then None else Some(c)
  }

  /** The OR of the class-`c` masks, accumulated segment by segment as the merge loop does. */
  method MergeClass(segs: seq<Segment>, c: int, h: int, w: int, raster: Rasterizer) returns (acc: Mask)
    ensures acc == MergedMask(segs, c, h, w, raster)
  {
    acc := Empty(h, w);
    var j := 0;
    while j < |segs|
      invariant 0 <= j <= |segs|
      invariant acc == MergedMask(segs[..j], c, h, w, raster)
    {
      assert segs[..j + 1][..j] == segs[..j];
      var mk := MergeMaskOf(segs[j], h, w, raster);
      if segs[j].classId == Some(c) && mk.Some? && mk.value.h == h && mk.value.w == w {
        acc := Or(acc, mk.value);
      }
      j := j + 1;
    }
    assert segs[..j] == segs;
  }

  /**
   * The list after `assign_segments_to_class` gives class `t` to the addressed
   * positions: every addressed segment carries `t`, every other is unchanged.
   */
  function Assigned(segs: seq<Segment>, indices: seq<int>, t: int): (r: seq<Segment>)
    ensures |r| == |segs|
    ensures forall p | 0 <= p < |segs| :: r[p] == if p in Targets(indices, |segs|) then segs[p].(classId := Some(t)) else segs[p]
  {
    seq(|segs|, p requires 0 <= p < |segs| => if p in Targets(indices, |segs|) then segs[p].(classId := Some(t)) else segs[p])
  }

  /** The assignment loop: `self.segments[i]["class_id"] = t` for each index in turn. */
  method AssignAll(segs: seq<Segment>, indices: seq<int>, t: int) returns (r: seq<Segment>)
    requires !IndexErrorIn(indices, |segs|)
    ensures r == Assigned(segs, indices, t)
  {
    r := segs;
    var n := |segs|;
    var k := 0;
    while k < |indices|
      invariant 0 <= k <= |indices| && |r| == n
      invariant forall p | 0 <= p < n :: r[p] == if p in Targets(indices[..k], n) then segs[p].(classId := Some(t)) else segs[p]
    {
      var i := indices[k];
      assert i in indices;
      TargetsSnoc(indices, k, n);
      if i < n {
        var p := PyIndex(i, n).value;
        r := r[p := r[p].(classId := Some(t))];
      }
      k := k + 1;
    }
    assert indices[..k] == indices;
  }

  /** The relabelling loop of `reassign_class_ids`, one segment at a time. */
  method RelabelAll(segs: seq<Segment>, m: map<int, nat>) returns (r: seq<Segment>)
    ensures r == Relabelled(segs, m)
  {
    r := segs;
    var k := 0;
    while k < |r|
      invariant 0 <= k <= |r| && |r| == |segs|
      invariant forall j | 0 <= j < |r| :: r[j] == if j < k then Relabel(segs[j], m) else segs[j]
    {
      r := r[k := Relabel(r[k], m)];
      k := k + 1;
    }
  }

  /** Deletes, one after another, the in-range positions of `order` (`del self.segments[i]`). */
  method DeleteAll(segs: seq<Segment>, order: seq<int>) returns (r: seq<Segment>)
    ensures r == DeleteEach(segs, order)
  {
    r := segs;
    var k := 0;
    while k < |order|
      invariant 0 <= k <= |order|
      invariant DeleteEach(r, order[k..]) == DeleteEach(segs, order)
    {
      assert order[k..][1..] == order[k + 1..];
      var i := order[k];
      if 0 <= i < |r| {
        r := DelAt(r, i);
      }
      k := k + 1;
    }
  }

  /** The erase on a list: scan, delete the hit segments from the highest index down, append the fragments. */
  method EraseList(segs: seq<Segment>, e: Mask, h: int, w: int, raster: Rasterizer, resize: (Mask, int, int) -> Mask, labeller: Labeller)
    returns (modified: seq<nat>, removed: seq<RemovedEntry>, result: seq<Segment>)
    ensures modified == HitPositions(segs, e, h, w, raster, resize)
    ensures removed == RemovedEntries(segs, modified)
    ensures result == Erased(segs, e, h, w, raster, resize, labeller)
  {
    var toAdd;
    modified, removed, toAdd := ScanErase(segs, e, h, w, raster, resize, labeller);
    var kept := DeleteAll(segs, SortDesc(modified));
    DeleteSortedDistinct(segs, modified);
    assert InRange(modified, |segs|) == set k | k in modified;
    result := AppendAll(kept, toAdd);
  }

  /** Appends the new segments one by one. */
  method AppendAll(base: seq<Segment>, extra: seq<Segment>) returns (r: seq<Segment>)
    ensures r == base + extra
  {
    r := base;
    var k := 0;
    while k < |extra|
      invariant 0 <= k <= |extra|
      invariant r == base + extra[..k]
    {
      assert extra[..k + 1] == extra[..k] + [extra[k]];
      r := r + [extra[k]];
      k := k + 1;
    }
    assert extra[..k] == extra;
  }

  /** One segment of the erase scan: whether the eraser hits it, and what replaces it. */
  method ScanOne(seg: Segment, e: Mask, h: int, w: int, raster: Rasterizer, resize: (Mask, int, int) -> Mask, labeller: Labeller)
    returns (hit: bool, parts: seq<Segment>)
    ensures hit == Hit(seg, e, h, w, raster, resize)
    ensures parts == Fragments(seg, e, h, w, raster, resize, labeller)
  {
    hit, parts := false, [];
    var m := SegmentMask(seg, h, w, raster);
    if m.Some? {
      var sm := m.value;
      if !sm.SameShape(e) {
        sm := resize(sm, e.h, e.w);
      }
      if Overlaps(e, sm) {
        hit := true;
        var rest := Minus(sm, e);
        if rest.Any() {
          parts := SplitIntoComponents(rest, seg.classId, labeller);
        }
      }
    }
  }

  /**
   * The list `merge_segments_by_class` leaves: unchanged when it is empty, has
   * no class, or no segment carries a mask; otherwise the per-class merge over
   * the grid of the first mask.
   */
  function MergedByClass(segs: seq<Segment>, raster: Rasterizer): seq<Segment>
  {
    var shape := FirstMaskShape(segs);
    if segs == [] || ClassIds(segs) == {} || shape.None? then segs
    else MergeOutput(segs, UniqueClassIds(segs), shape.value.0, shape.value.1, raster)
  }

  /** The merge loop: one pass over the classes in increasing order. */
  method MergeList(segs: seq<Segment>, raster: Rasterizer) returns (merged: seq<Segment>)
    ensures merged == MergedByClass(segs, raster)
  {
    if segs == [] || ClassIds(segs) == {} {
      return segs;
    }
    var shape := FirstMaskShape(segs);
    if shape.None? {
      return segs;
    }
    var h, w := shape.value.0, shape.value.1;
    var ids := UniqueClassIds(segs);
    merged := [];
    var k := 0;
    while k < |ids|
      invariant 0 <= k <= |ids|
      invariant merged == MergeOutput(segs, ids[..k], h, w, raster)
    {
      var acc := MergeClass(segs, ids[k], h, w, raster);
      if acc.Any() {
        merged := merged + [MaskSegment(Loaded, acc, Some(ids[k]))];
      }
      assert ids[..k + 1][..k] == ids[..k];
      k := k + 1;
    }
    assert ids[..k] == ids;
  }

  /** The scanning pass of the erase: which segments the eraser hits, their records, and the fragments to add. */
  method ScanErase(segs: seq<Segment>, e: Mask, h: int, w: int, raster: Rasterizer, resize: (Mask, int, int) -> Mask, labeller: Labeller)
    returns (modified: seq<nat>, removed: seq<RemovedEntry>, toAdd: seq<Segment>)
    ensures modified == HitPositions(segs, e, h, w, raster, resize)
    ensures removed == RemovedEntries(segs, modified)
    ensures toAdd == AllFragments(segs, e, h, w, raster, resize, labeller)
  {
    modified, removed, toAdd := [], [], [];
    var i := 0;
    while i < |segs|
      invariant 0 <= i <= |segs|
      invariant modified == HitPositions(segs[..i], e, h, w, raster, resize)
      invariant |removed| == |modified|
      invariant forall k | 0 <= k < |modified| :: modified[k] < |segs| && removed[k] == RemovedEntry(modified[k], segs[modified[k]])
      invariant toAdd == AllFragments(segs[..i], e, h, w, raster, resize, labeller)
    {
      assert segs[..i + 1][..i] == segs[..i];
      var hit, parts := ScanOne(segs[i], e, h, w, raster, resize, labeller);
      if hit {
        modified := modified + [i];
        removed := removed + [RemovedEntry(i, segs[i])];
        toAdd := toAdd + parts;
      } else {
        assert parts == [];
      }
      i := i + 1;
    }
    assert segs[..i] == segs;
    assert removed == RemovedEntries(segs, modified);
  }

  class SegmentManager {
    var segments: seq<Segment>
    var classAliases: map<int, string>
    var nextClassId: int
    var activeClassId: Option<int>
    var lastToggledClassId: Option<int>

    /** `next_class_id` is always one past the largest class id in use. */
    ghost predicate Valid()
      reads this
    {
      nextClassId == NextIdFor(segments)
    }

    constructor()
      ensures Valid()
      ensures segments == [] && classAliases == map[] && nextClassId == 0
      ensures activeClassId == None && lastToggledClassId == None
    {
      segments := [];
      classAliases := map[];
      nextClassId := 0;
      activeClassId := None;
      lastToggledClassId := None;
    }

    method Clear()
      modifies this
      ensures Valid()
      ensures segments == [] && classAliases == map[] && nextClassId == 0
      ensures activeClassId == None && lastToggledClassId == None
    {
      segments := [];
      classAliases := map[];
      nextClassId := 0;
      activeClassId := None;
      lastToggledClassId := None;
    }

    /**
     * `add_segment`: a segment without a class takes the active class, else
     * `next_class_id`; the class used becomes the last toggled one and the
     * segment goes to the end.
     */
    method AddSegment(data: Segment)
      modifies this
      ensures Valid()
      ensures segments == old(segments) + [WithClass(data, old(activeClassId), old(nextClassId))]
      ensures data.classId.Some? ==> segments[|segments| - 1] == data
      ensures data.classId.None? ==> segments[|segments| - 1].classId == Some(if old(activeClassId).Some? then old(activeClassId).value else old(nextClassId))
      ensures lastToggledClassId == segments[|segments| - 1].classId
      ensures classAliases == old(classAliases) && activeClassId == old(activeClassId)
    {
      var seg := data;
      if seg.classId.None? {
        if activeClassId.Some? {
          seg := seg.(classId := activeClassId);
        } else {
          seg := seg.(classId := Some(nextClassId));
        }
      }
      lastToggledClassId := seg.classId;
      segments := segments + [seg];
      nextClassId := NextIdFor(segments);
    }

    /**
     * `delete_segments`: deletes in descending index order, skipping
     * out-of-range indices.  For a duplicate-free list that removes exactly the
     * in-range positions and keeps the rest in order.
     */
    method DeleteSegments(indices: seq<int>)
      modifies this
      ensures Valid()
      ensures segments == DeleteEach(old(segments), SortDesc(indices))
      ensures Distinct(indices) ==> segments == KeepIdx(old(segments), InRange(indices, |old(segments)|))
      ensures classAliases == old(classAliases)
      ensures activeClassId == old(activeClassId) && lastToggledClassId == old(lastToggledClassId)
    {
      segments := DeleteAll(segments, SortDesc(indices));
      if Distinct(indices) {
        DeleteSortedDistinct(old(segments), indices);
      }
      nextClassId := NextIdFor(segments);
    }

    /**
     * `assign_segments_to_class`: every addressed segment gets the smallest class
     * id already among them, or `next_class_id`.  An index below `-len`
     * raises IndexError before anything changes (`raised`).
     */
    method AssignSegmentsToClass(indices: seq<int>) returns (raised: bool)
      requires Valid()
      modifies this
      ensures Valid()
      ensures raised <==> indices != [] && IndexErrorIn(indices, |old(segments)|)
      ensures (indices == [] || raised) ==> segments == old(segments)
      ensures !raised && indices != [] ==> segments == Assigned(old(segments), indices, AssignTarget(old(segments), indices, old(nextClassId)))
      ensures classAliases == old(classAliases)
      ensures activeClassId == old(activeClassId) && lastToggledClassId == old(lastToggledClassId)
    {
      raised := false;
      if indices == [] {
        return;
      }
      if IndexErrorIn(indices, |segments|) {
        raised := true;
        return;
      }
      var t := AssignTarget(segments, indices, nextClassId);
      segments := AssignAll(segments, indices, t);
      nextClassId := NextIdFor(segments);
    }

    /** `reassign_class_ids`: each class in `newOrder` becomes its position there; aliases follow. */
    method ReassignClassIds(newOrder: seq<int>)
      modifies this
      ensures Valid()
      ensures segments == Relabelled(old(segments), IdMap(newOrder))
      ensures classAliases == ReorderedAliases(old(classAliases), newOrder)
      ensures activeClassId == old(activeClassId) && lastToggledClassId == old(lastToggledClassId)
    {
      segments := RelabelAll(segments, IdMap(newOrder));
      classAliases := ReorderedAliases(classAliases, newOrder);
      nextClassId := NextIdFor(segments);
    }

    /**
     * `merge_segments_by_class`: when there are segments, some with a class and
     * at least one with a mask, the list becomes one "Loaded" segment per class
     * holding the OR of that class's masks (classless segments are dropped).
     */
    method MergeSegmentsByClass(raster: Rasterizer)
      requires Valid()
      modifies this
      ensures Valid()
      ensures segments == MergedByClass(old(segments), raster)
      ensures classAliases == old(classAliases)
      ensures activeClassId == old(activeClassId) && lastToggledClassId == old(lastToggledClassId)
    {
      var merged := MergeList(segments, raster);
      if merged != segments {
        segments := merged;
        nextClassId := NextIdFor(segments);
      }
    }

    /**
     * `_erase_segments_single_view`: every segment whose mask overlaps the eraser
     * is removed and replaced, at the end of the list, by the >10-pixel
     * components of what remains.  Returns the hit positions and their records.
     */
    method EraseSingleView(e: Mask, h: int, w: int, raster: Rasterizer, resize: (Mask, int, int) -> Mask, labeller: Labeller)
      returns (modified: seq<nat>, removed: seq<RemovedEntry>)
      requires Valid()
      modifies this
      ensures Valid()
      ensures modified == HitPositions(old(segments), e, h, w, raster, resize)
      ensures removed == RemovedEntries(old(segments), modified)
      ensures segments == Erased(old(segments), e, h, w, raster, resize, labeller)
      ensures modified == [] ==> segments == old(segments) && nextClassId == old(nextClassId)
      ensures classAliases == old(classAliases)
      ensures activeClassId == old(activeClassId) && lastToggledClassId == old(lastToggledClassId)
    {
      var segs := segments;
      modified, removed, segments := EraseList(segs, e, h, w, raster, resize, labeller);
      if modified != [] {
        nextClassId := NextIdFor(segments);
      } else {
        EraseNothing(segs, e, h, w, raster, resize, labeller);
      }
    }

    /** `set_class_alias` */
    method SetClassAlias(classId: int, alias: string)
      modifies this
      ensures classAliases == old(classAliases)[classId := alias]
      ensures segments == old(segments) && nextClassId == old(nextClassId)
      ensures activeClassId == old(activeClassId) && lastToggledClassId == old(lastToggledClassId)
    {
      classAliases := classAliases[classId := alias];
    }

    /** `get_class_alias`: the stored alias, else the id's decimal text, which reads back as the id. */
    function GetClassAlias(classId: int): (alias: string)
      reads this
      ensures classId in classAliases ==> alias == classAliases[classId]
      ensures classId !in classAliases ==> alias == Text.IntToString(classId)
      ensures classId !in classAliases ==> Text.ParseInt(alias) == Some(classId)
    {
      if classId in classAliases then classAliases[classId]
      else
        Text.IntToStringRoundTrip(classId);
        Text.IntToString(classId)
    }

    /** `set_active_class` */
    method SetActiveClass(classId: Option<int>)
      modifies this
      ensures activeClassId == classId
      ensures segments == old(segments) && classAliases == old(classAliases)
      ensures nextClassId == old(nextClassId) && lastToggledClassId == old(lastToggledClassId)
    {
      activeClassId := classId;
    }

    /**
     * `toggle_active_class`: `c` becomes active unless it already was, in which
     * case no class is active; the result says whether `c` is now active.
     */
    method ToggleActiveClass(c: int) returns (nowActive: bool)
      modifies this
      ensures lastToggledClassId == Some(c)
      ensures activeClassId == Toggled(old(activeClassId), c)
      ensures nowActive <==> activeClassId == Some(c)
      ensures segments == old(segments) && classAliases == old(classAliases) && nextClassId == old(nextClassId)
    {
      lastToggledClassId := Some(c);
      if activeClassId == Some(c) {
        activeClassId := None;
        nowActive := false;
      } else {
        activeClassId := Some(c);
        nowActive := true;
      }
    }

    /** `get_class_to_toggle_with_hotkey`: the last toggled class, else the highest class present. */
    function ClassToToggleWithHotkey(): (r: Option<int>)
      reads this
      ensures lastToggledClassId.Some? ==> r == lastToggledClassId
      ensures lastToggledClassId.None? ==> (r.Some? <==> ClassIds(segments) != {})
      ensures lastToggledClassId.None? && r.Some? ==>
                r.value in ClassIds(segments) && forall c | c in ClassIds(segments) :: c <= r.value
    {
      if lastToggledClassId.Some? then lastToggledClassId
      else
        var ids := UniqueClassIds(segments);
        if ids == [] then None
        else
          assert ids[0] in ids;
          assert forall c | c in ids :: c <= ids[|ids| - 1];
          Some(ids[|ids| - 1])
    }
  }

  /** An erase that hits nothing leaves the list as it was. */
  lemma EraseNothing(segs: seq<Segment>, e: Mask, h: int, w: int, raster: Rasterizer, resize: (Mask, int, int) -> Mask, labeller: Labeller)
    requires HitPositions(segs, e, h, w, raster, resize) == []
    ensures Erased(segs, e, h, w, raster, resize, labeller) == segs
  {
    forall i | 0 <= i < |segs| ensures !Hit(segs[i], e, h, w, raster, resize) {
      HitPositionsSpec(segs, e, h, w, raster, resize, i);
    }
    AllFragmentsNone(segs, e, h, w, raster, resize, labeller);
    assert (set k | k in HitPositions(segs, e, h, w, raster, resize)) == {};
    KeepIdxAppendFree([], segs, {});
    assert [] + segs == segs;
  }

  lemma {:induction false} AllFragmentsNone(segs: seq<Segment>, e: Mask, h: int, w: int, raster: Rasterizer, resize: (Mask, int, int) -> Mask, labeller: Labeller)
    requires forall i | 0 <= i < |segs| :: !Hit(segs[i], e, h, w, raster, resize)
    ensures AllFragments(segs, e, h, w, raster, resize, labeller) == []
  {
    if segs != [] {
      var init := segs[..|segs| - 1];
      assert forall i | 0 <= i < |init| :: init[i] == segs[i];
      AllFragmentsNone(init, e, h, w, raster, resize, labeller);
    }
  }
}
