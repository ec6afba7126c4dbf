/**
 * The segment record of the annotation store.
 *
 * A segment is a Python dict; the keys the core reads are typed fields here.
 * A key that is absent and a key that holds None are not distinguished.  Keys
 * the core only carries along (the multi-view "_source_viewer" tag, point
 * prompts, the erase-undo bookkeeping) live in `extra`.
 */
module Segments {
  import opened Wrappers
  import opened Geometry
  import opened Seqs

  /** The "type" tag; `Untyped` stands for a dict without one. */
  datatype SegKind = Polygon | AI | Loaded | Untyped

  /** A value stored under an extra key; `XNone` is Python's None. */
  datatype Extra = XInt(i: int) | XStr(s: string) | XNone | XOther

  /** One viewer's part of a multi-view segment (`segment["views"][i]`). */
  datatype View = View(vertices: Option<seq<Point>>, mask: Option<Mask>, extra: map<string, Extra>)

  datatype Segment = Segment(
    kind: SegKind,
    classId: Option<int>,
    vertices: Option<seq<Point>>,
    mask: Option<Mask>,
    views: Option<map<int, View>>,
    extra: map<string, Extra>)

  /** A mask-only segment, as merging and erasing build them. */
  function MaskSegment(kind: SegKind, m: Mask, classId: Option<int>): Segment
  {
    Segment(kind, classId, None, Some(m), None, map[])
  }

  /** The class ids present in a list of segments (`{seg.get("class_id") ...} - {None}`). */
  function ClassIds(segs: seq<Segment>): set<int>
  {
    if segs == [] then {}
    else
      var init := segs[..|segs| - 1];
      ClassIds(init) + (match segs[|segs| - 1].classId case None => {} case Some(c) => {c})
  }

  /** A class id is present exactly when some segment carries it. */
  lemma {:induction false} ClassIdsSpec(segs: seq<Segment>)
    ensures forall c :: c in ClassIds(segs) <==> exists i :: 0 <= i < |segs| && segs[i].classId == Some(c)
  {
    if segs != [] {
      var init := segs[..|segs| - 1];
      ClassIdsSpec(init);
      assert forall i | 0 <= i < |init| :: init[i] == segs[i];
    }
  }

  /** The largest class id present, if any. */
  function MaxClassId(segs: seq<Segment>): (m: Option<int>)
    ensures m.None? <==> ClassIds(segs) == {}
    ensures m.Some? ==> m.value in ClassIds(segs) && forall c | c in ClassIds(segs) :: c <= m.value
  {
    if segs == [] then None
    else
      var init := segs[..|segs| - 1];
      assert segs == init + [segs[|segs| - 1]];
      var rest := MaxClassId(init);
      assert ClassIds(segs) == ClassIds(init) + (match segs[|segs| - 1].classId case None => {} case Some(c) => {c});
      match segs[|segs| - 1].classId
      case None => rest
      case Some(c) => if rest.Some? && rest.value >= c then rest else Some(c)
  }

  /** `_update_next_class_id`: one more than the largest class id, or 0 with none. */
  function NextIdFor(segs: seq<Segment>): (r: int)
    ensures forall c | c in ClassIds(segs) :: c < r
    ensures ClassIds(segs) == {} ==> r == 0
    ensures ClassIds(segs) != {} ==> r - 1 in ClassIds(segs)
  {
    match MaxClassId(segs)
    case None => 0
    case Some(m) => m + 1
  }

  /** The non-None class ids of the segments, in list order with repeats. */
  function ClassIdList(segs: seq<Segment>): (r: seq<int>)
    ensures forall c :: c in r <==> c in ClassIds(segs)
  {
    if segs == [] then []
    else
      var init := segs[..|segs| - 1];
      ClassIdList(init) + (match segs[|segs| - 1].classId case None => [] case Some(c) => [c])
  }

  /** `get_unique_class_ids`: `sorted(set(class ids))` */
  function UniqueClassIds(segs: seq<Segment>): (r: seq<int>)
    ensures Increasing(r)
    ensures forall c :: c in r <==> c in ClassIds(segs)
  {
    SortedUnique(ClassIdList(segs))
  }

  /** Edits that keep every segment's class keep the class set, hence `next_class_id`. */
  lemma {:induction false} SameClassesSameIds(a: seq<Segment>, b: seq<Segment>)
    requires |a| == |b| && forall i | 0 <= i < |a| :: a[i].classId == b[i].classId
    ensures ClassIds(a) == ClassIds(b)
    ensures NextIdFor(a) == NextIdFor(b)
  {
    if a != [] {
      var n := |a| - 1;
      SameClassesSameIds(a[..n], b[..n]);
    }
    var ma, mb := MaxClassId(a), MaxClassId(b);
    if ma.Some? && mb.Some? {
      assert ma.value <= mb.value && mb.value <= ma.value;
    }
  }
}
