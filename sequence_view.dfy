/**
 * The frame-status bookkeeping of the sequence mode (`SequenceViewMode` in
 * ui/modes/sequence_view_mode.py): one status per timeline frame, reference
 * annotations per reference frame, propagated masks and confidence scores,
 * wrap-around review navigation over flagged frames, and trimming of frames
 * with renumbering of everything keyed by frame index.
 *
 * Dicts whose insertion order is observable (`_reference_annotations`,
 * `_frame_statuses`) are `ODict`s; the others are maps.  Path normalisation
 * (`Path(p).resolve()`) is the opaque function `normalize`, and the segment
 * manager's list is passed in where annotations are captured from it.
 */
module SequenceView {
  import opened Wrappers
  import opened Geometry
  import opened Seqs
  import opened Segments
  import opened OrderedDicts

  datatype FrameStatus = Pending | Reference | Propagated | Flagged | Saved | Skipped

  /** `ReferenceAnnotation` without the unused `points`/`labels` lists. */
  datatype RefAnnotation = RefAnnotation(frameIdx: int, objId: int, mask: Mask, classId: int)

  /** `dict.get(idx, FrameStatus.PENDING)` */
  function StatusIn(d: ODict<int, FrameStatus>, idx: int): FrameStatus
  {
    if idx in d.vals then d.vals[idx] else Pending
  }

  /** A status that survives `clear_propagation_results`. */
  predicate Kept(s: FrameStatus)
  {
    s == Reference || s == Skipped
  }

  /** The status map after `clear_propagation_results`. */
  function ClearedStatuses(vals: map<int, FrameStatus>): (r: map<int, FrameStatus>)
    ensures r.Keys == vals.Keys
    ensures forall k | k in r :: Kept(vals[k]) ==> r[k] == vals[k]
    ensures forall k | k in r :: !Kept(vals[k]) ==> r[k] == Pending
  {
    map k | k in vals :: if Kept(vals[k]) then vals[k] else Pending
  }

  /** One status per frame `0..n-1`, all pending, inserted in order (the loop of `_reset_state`). */
  method AllPending(n: nat) returns (d: ODict<int, FrameStatus>)
    ensures Valid(d)
    ensures d.keys == Range(0, n)
    ensures forall k :: k in d.vals <==> 0 <= k < n
    ensures forall k | k in d.vals :: d.vals[k] == Pending
  {
    d := EmptyDict();
    var i := 0;
    while i < n
      invariant 0 <= i <= n
      invariant Valid(d) && d.keys == Range(0, i)
      invariant forall k :: k in d.vals <==> 0 <= k < i
      invariant forall k | k in d.vals :: d.vals[k] == Pending
    {
      d := Store(d, i, Pending);
      assert d.keys == Range(0, i + 1);
      i := i + 1;
    }
  }

  /** The loop of `clear_propagation_results`: every status but REFERENCE and SKIPPED becomes PENDING. */
  method ResetStatuses(d: ODict<int, FrameStatus>) returns (r: ODict<int, FrameStatus>)
    requires Valid(d)
    ensures Valid(r) && r.keys == d.keys
    ensures r.vals == ClearedStatuses(d.vals)
  {
    r := d;
    for i := 0 to |d.keys|
      invariant Valid(r) && r.keys == d.keys && r.vals.Keys == d.vals.Keys
      invariant forall j | 0 <= j < i :: r.vals[d.keys[j]] == ClearedStatuses(d.vals)[d.keys[j]]
      invariant forall j | i <= j < |d.keys| :: r.vals[d.keys[j]] == d.vals[d.keys[j]]
    {
      var k := d.keys[i];
      if !Kept(r.vals[k]) {
        r := Store(r, k, Pending);
      }
    }
    forall k | k in d.vals
      ensures r.vals[k] == ClearedStatuses(d.vals)[k]
    {
      var j :| 0 <= j < |d.keys| && d.keys[j] == k;
    }
  }

  /** The statuses after `mark_frames_skipped`: in-range frames among `indices` become SKIPPED. */
  function SkippedStatuses(vals: map<int, FrameStatus>, indices: set<int>, n: int): (r: map<int, FrameStatus>)
    ensures r.Keys == vals.Keys
    ensures forall k | k in r :: r[k] == if k in indices && 0 <= k < n then Skipped else vals[k]
  {
    map k | k in vals :: if k in indices && 0 <= k < n then Skipped else vals[k]
  }

  /** The loop of `mark_frames_skipped`, over the set in any order. */
  method SkipStatuses(d: ODict<int, FrameStatus>, indices: set<int>, n: int) returns (r: ODict<int, FrameStatus>)
    requires Valid(d)
    requires forall k | 0 <= k < n :: k in d.vals
    ensures Valid(r) && r.keys == d.keys
    ensures r.vals == SkippedStatuses(d.vals, indices, n)
  {
    r := d;
    var todo := indices;
    while todo != {}
      invariant todo <= indices
      invariant Valid(r) && r.keys == d.keys && r.vals.Keys == d.vals.Keys
      invariant r.vals == SkippedStatuses(d.vals, indices - todo, n)
      decreases |todo|
    {
      assert exists x :: x in todo by {
        if forall x :: x !in todo {
          assert false;
        }
      }
      var idx :| idx in todo;
      if 0 <= idx < n {
        r := Store(r, idx, Skipped);
      }
      todo := todo - {idx};
    }
    assert indices - todo == indices;
  }

  /**
   * `_capture_current_annotations`: one annotation per segment that has a
   * mask, with the 1-based segment position as object id and the segment's
   * class (0 when it has none).
   */
  function Captured(segs: seq<Segment>, frame: int): (r: seq<RefAnnotation>)
    ensures |r| <= |segs|
  {
    if segs == [] then []
    else
      var n := |segs| - 1;
      var init := Captured(segs[..n], frame);
      match segs[n].mask
      case None => init
      case Some(m) => init + [RefAnnotation(frame, n + 1, m, segs[n].classId.GetOr(0))]
  }

  /**
   * Every captured annotation comes from a masked segment and carries the
   * frame, its 1-based position and its class; every masked segment yields
   * one; object ids increase.
   */
  lemma {:induction false} CapturedSpec(segs: seq<Segment>, frame: int)
    ensures forall a | a in Captured(segs, frame) ::
              && a.frameIdx == frame && 1 <= a.objId <= |segs|
              && segs[a.objId - 1].mask == Some(a.mask)
              && a.classId == segs[a.objId - 1].classId.GetOr(0)
    ensures forall i | 0 <= i < |segs| && segs[i].mask.Some? ::
              RefAnnotation(frame, i + 1, segs[i].mask.value, segs[i].classId.GetOr(0)) in Captured(segs, frame)
    ensures forall i, j | 0 <= i < j < |Captured(segs, frame)| ::
              Captured(segs, frame)[i].objId < Captured(segs, frame)[j].objId
  {
    if segs != [] {
      var n := |segs| - 1;
      CapturedSpec(segs[..n], frame);
      assert forall i | 0 <= i < n :: segs[..n][i] == segs[i];
    }
  }

  /** The capture loop of `_capture_current_annotations`. */
  method CaptureAnnotations(segs: seq<Segment>, frame: int) returns (anns: seq<RefAnnotation>)
    ensures anns == Captured(segs, frame)
  {
    anns := [];
    for i := 0 to |segs|
      invariant anns == Captured(segs[..i], frame)
    {
      assert segs[..i + 1][..i] == segs[..i];
      match segs[i].mask {
        case None =>
        case Some(m) =>
          anns := anns + [RefAnnotation(frame, i + 1, m, segs[i].classId.GetOr(0))];
      }
    }
    assert segs[..|segs|] == segs;
  }

  /** The frames holding `status`. */
  function FramesWith(vals: map<int, FrameStatus>, status: FrameStatus): set<int>
  {
    set k | k in vals && vals[k] == status
  }

  /** `get_flagged_frames` / `get_propagated_frames`: the frames with `status`, in dict order. */
  function FramesInOrder(d: ODict<int, FrameStatus>, status: FrameStatus): (r: seq<int>)
    requires Valid(d)
    ensures Distinct(r)
    ensures forall k :: k in r <==> k in d.vals && d.vals[k] == status
  {
    var vals := d.vals;
    Filter(d.keys, k => k in vals && vals[k] == status)
  }

  /**
   * The frame `next_flagged_frame` moves to: the first flagged frame after
   * `current`, else (wrapping) the first one, and None when none is flagged.
   */
  function NextFlagged(flagged: set<int>, current: int): (r: Option<int>)
    ensures r.None? <==> flagged == {}
    ensures r.Some? ==> r.value in flagged
    ensures r.Some? && r.value > current ==> forall f | f in flagged && f > current :: r.value <= f
    ensures r.Some? && r.value <= current ==>
              (forall f | f in flagged :: f <= current) && forall f | f in flagged :: r.value <= f
  {
    if flagged == {} then None
    else
      var later := set f | f in flagged && f > current;
      assert forall f | f in flagged && f > current :: f in later;
      if later != {} then Some(SetMin(later)) else Some(SetMin(flagged))
  }

  /**
   * The frame `prev_flagged_frame` moves to: the last flagged frame before
   * `current`, else (wrapping) the last one, and None when none is flagged.
   */
  function PrevFlagged(flagged: set<int>, current: int): (r: Option<int>)
    ensures r.None? <==> flagged == {}
    ensures r.Some? ==> r.value in flagged
    ensures r.Some? && r.value < current ==> forall f | f in flagged && f < current :: f <= r.value
    ensures r.Some? && r.value >= current ==>
              (forall f | f in flagged :: f >= current) && forall f | f in flagged :: f <= r.value
  {
    if flagged == {} then None
    else
      var earlier := set f | f in flagged && f < current;
      assert forall f | f in flagged && f < current :: f in earlier;
      if earlier != {} then Some(SetMax(earlier)) else Some(SetMax(flagged))
  }

  /** A set's least element is the one below all others. */
  lemma MinIs(s: set<int>, m: int)
    requires m in s && forall x | x in s :: m <= x
    ensures SetMin(s) == m
  {
  }

  /** A set's greatest element is the one above all others. */
  lemma MaxIs(s: set<int>, m: int)
    requires m in s && forall x | x in s :: x <= m
    ensures SetMax(s) == m
  {
  }

  /** Scanning the sorted flagged frames forward finds `NextFlagged` at the first one past `current`. */
  lemma NextFromSorted(fl: seq<int>, s: set<int>, current: int, i: int)
    requires Increasing(fl) && forall x :: x in fl <==> x in s
    requires 0 <= i < |fl| && fl[i] > current
    requires forall j | 0 <= j < i :: fl[j] <= current
    ensures NextFlagged(s, current) == Some(fl[i])
  {
    var later := set f | f in s && f > current;
    assert fl[i] in later;
    forall x | x in later
      ensures fl[i] <= x
    {
      var j :| 0 <= j < |fl| && fl[j] == x;
      assert j >= i;
    }
    MinIs(later, fl[i]);
  }

  /** When no sorted flagged frame lies past `current`, `NextFlagged` wraps to the first one. */
  lemma NextWrapsFromSorted(fl: seq<int>, s: set<int>, current: int)
    requires Increasing(fl) && forall x :: x in fl <==> x in s
    requires forall j | 0 <= j < |fl| :: fl[j] <= current
    ensures NextFlagged(s, current) == if fl == [] then None else Some(fl[0])
  {
    if fl != [] {
      assert fl[0] in s;
      var later := set f | f in s && f > current;
      assert later == {} by {
        forall x | x in s
          ensures x <= current
        {
          var j :| 0 <= j < |fl| && fl[j] == x;
        }
      }
      forall x | x in s
        ensures fl[0] <= x
      {
        var j :| 0 <= j < |fl| && fl[j] == x;
        assert j == 0 || fl[0] < fl[j];
      }
      MinIs(s, fl[0]);
    } else {
      assert forall x | x in s :: x in fl;
      assert s == {};
    }
  }

  /** Scanning the sorted flagged frames backward finds `PrevFlagged` at the first one before `current`. */
  lemma PrevFromSorted(fl: seq<int>, s: set<int>, current: int, i: int)
    requires Increasing(fl) && forall x :: x in fl <==> x in s
    requires 0 <= i < |fl| && fl[i] < current
    requires forall j | i < j < |fl| :: fl[j] >= current
    ensures PrevFlagged(s, current) == Some(fl[i])
  {
    var earlier := set f | f in s && f < current;
    assert fl[i] in earlier;
    forall x | x in earlier
      ensures x <= fl[i]
    {
      var j :| 0 <= j < |fl| && fl[j] == x;
      assert j <= i;
    }
    MaxIs(earlier, fl[i]);
  }

  /** When no sorted flagged frame lies before `current`, `PrevFlagged` wraps to the last one. */
  lemma PrevWrapsFromSorted(fl: seq<int>, s: set<int>, current: int)
    requires Increasing(fl) && forall x :: x in fl <==> x in s
    requires forall j | 0 <= j < |fl| :: fl[j] >= current
    ensures PrevFlagged(s, current) == if fl == [] then None else Some(fl[|fl| - 1])
  {
    if fl != [] {
      var last := fl[|fl| - 1];
      assert last in s;
      var earlier := set f | f in s && f < current;
      assert earlier == {} by {
        forall x | x in s
          ensures x >= current
        {
          var j :| 0 <= j < |fl| && fl[j] == x;
        }
      }
      forall x | x in s
        ensures x <= last
      {
        var j :| 0 <= j < |fl| && fl[j] == x;
        assert j == |fl| - 1 || fl[j] < last;
      }
      MaxIs(s, last);
    } else {
      assert forall x | x in s :: x in fl;
      assert s == {};
    }
  }

  /** The loop of `next_flagged_frame` over the sorted flagged frames. */
  method ScanNext(fl: seq<int>, ghost s: set<int>, current: int) returns (r: Option<int>)
    requires Increasing(fl) && forall x :: x in fl <==> x in s
    ensures r == NextFlagged(s, current)
  {
    for i := 0 to |fl|
      invariant forall j | 0 <= j < i :: fl[j] <= current
    {
      if fl[i] > current {
        NextFromSorted(fl, s, current, i);
        return Some(fl[i]);
      }
    }
    NextWrapsFromSorted(fl, s, current);
    r := if fl != [] then Some(fl[0]) else None;
  }

  /** The loop of `prev_flagged_frame` over the flagged frames sorted in reverse. */
  method ScanPrev(fl: seq<int>, ghost s: set<int>, current: int) returns (r: Option<int>)
    requires Increasing(fl) && forall x :: x in fl <==> x in s
    ensures r == PrevFlagged(s, current)
  {
    var i := |fl|;
    while i > 0
      invariant 0 <= i <= |fl|
      invariant forall j | i <= j < |fl| :: fl[j] >= current
    {
      i := i - 1;
      if fl[i] < current {
        PrevFromSorted(fl, s, current, i);
        return Some(fl[i]);
      }
    }
    PrevWrapsFromSorted(fl, s, current);
    r := if fl != [] then Some(fl[|fl| - 1]) else None;
  }

  function MinInt(a: int, b: int): int { if a <= b then a else b }
  function MaxInt(a: int, b: int): int { if a >= b then a else b }
  function MinReal(a: real, b: real): real { if a <= b then a else b }

  /** `max(0.0, min(1.0, threshold))` */
  function Clamp01(t: real): (r: real)
    ensures 0.0 <= r <= 1.0
    ensures 0.0 <= t <= 1.0 ==> r == t
    ensures t < 0.0 ==> r == 0.0
    ensures t > 1.0 ==> r == 1.0
  {
    if t < 0.0 then 0.0 else if t > 1.0 then 1.0 else t
  }

  /**
   * `get_propagation_range` for primary reference `primary` (-1 when there
   * is none) over `n` frames: (0, 0) without a reference; forward runs from
   * the reference, backward ends at it and any other direction clips the
   * requested range to the timeline.
   */
  function RangeFor(primary: int, n: int, direction: string, start: int, end: int): (r: (int, int))
    ensures primary < 0 ==> r == (0, 0)
    ensures primary >= 0 ==> 0 <= r.0
    ensures primary >= 0 && direction != "backward" ==> r.1 <= n - 1 && r.1 <= end
    ensures primary >= 0 && direction == "forward" ==> r.0 == primary
    ensures primary >= 0 && direction == "backward" ==> r.1 == primary
    ensures primary >= 0 && direction != "forward" ==> r.0 >= start
  {
    if primary < 0 then (0, 0)
    else if direction == "forward" then (primary, MinInt(end, n - 1))
    else if direction == "backward" then (MaxInt(0, start), primary)
    else (MaxInt(0, start), MinInt(end, n - 1))
  }

  /** A reference inside the requested range and the timeline is inside the propagation range. */
  lemma RangeCoversReference(primary: int, n: int, direction: string, start: int, end: int)
    requires 0 <= primary < n && start <= primary <= end
    ensures RangeFor(primary, n, direction, start, end).0 <= primary <= RangeFor(primary, n, direction, start, end).1
  {
  }

  /** The frames `0..total-1` not in `remove`, in order (`keep` of `trim_frames`). */
  function KeptFrames(total: nat, remove: set<int>): (r: seq<int>)
    ensures Increasing(r)
    ensures forall i :: i in r <==> 0 <= i < total && i !in remove
    ensures forall k | 0 <= k < |r| :: 0 <= r[k] < total
  {
    if total == 0 then []
    else
      var init := KeptFrames(total - 1, remove);
      assert forall k | 0 <= k < |init| :: init[k] < total - 1 by {
        forall k | 0 <= k < |init| ensures init[k] < total - 1 {
          assert init[k] in init;
        }
      }
      if total - 1 in remove then init else init + [total - 1]
  }

  /** Removing no existing frame keeps every frame in place. */
  lemma {:induction false} KeptNone(total: nat, remove: set<int>)
    requires forall i | 0 <= i < total :: i !in remove
    ensures KeptFrames(total, remove) == Range(0, total)
  {
    if total > 0 {
      KeptNone(total - 1, remove);
      assert Range(0, total) == Range(0, total - 1) + [total - 1];
    }
  }

  /**
   * `[paths[i] for i in order if i < total]`: the listed paths in the given
   * order; a index below `-total` raises IndexError (None).
   */
  function RemovedPaths(paths: seq<string>, order: seq<int>): (r: Option<seq<string>>)
    ensures r.Some? <==> forall k | 0 <= k < |order| && order[k] < |paths| :: -|paths| <= order[k]
    ensures r.Some? ==> |r.value| <= |order|
  {
    if order == [] then Some([])
    else
      var rest := RemovedPaths(paths, order[1..]);
      assert forall k | 1 <= k < |order| :: order[1..][k - 1] == order[k];
      if order[0] >= |paths| then rest
      else match PyIndex(order[0], |paths|)
        case None => None
        case Some(p) => if rest.None? then None else Some([paths[p]] + rest.value)
  }

  /** The paths at the listed positions, in order. */
  function PathsAt(paths: seq<string>, order: seq<int>): (r: seq<string>)
    requires forall k | 0 <= k < |order| :: 0 <= order[k] < |paths|
    ensures |r| == |order|
    ensures forall k | 0 <= k < |order| :: r[k] == paths[order[k]]
    decreases |order|
  {
    if order == [] then []
    else
      var n := |order| - 1;
      assert forall k | 0 <= k < n :: order[..n][k] == order[k];
      PathsAt(paths, order[..n]) + [paths[order[n]]]
  }

  /** With every removed index in range, the removed paths are those frames' paths, in order. */
  lemma {:induction false} RemovedPathsInRange(paths: seq<string>, order: seq<int>)
    requires forall k | 0 <= k < |order| :: 0 <= order[k] < |paths|
    ensures RemovedPaths(paths, order) == Some(PathsAt(paths, order))
  {
    if order != [] {
      assert forall k | 0 <= k < |order[1..]| :: order[1..][k] == order[k + 1];
      RemovedPathsInRange(paths, order[1..]);
      var whole, tail := PathsAt(paths, order), PathsAt(paths, order[1..]);
      assert forall k | 0 <= k < |whole| :: whole[k] == ([paths[order[0]]] + tail)[k];
      assert whole == [paths[order[0]]] + tail;
    }
  }

  /** The position of a frame among the kept ones (`old_to_new`). */
  function Position(keep: seq<int>, x: int): (r: nat)
    requires x in keep
    ensures r < |keep| && keep[r] == x
  {
    if keep[0] == x then 0 else 1 + Position(keep[1..], x)
  }

  /** In an increasing list positions are unique: `old_to_new` inverts `keep`. */
  lemma PositionUnique(keep: seq<int>, j: int)
    requires Increasing(keep) && 0 <= j < |keep|
    ensures Position(keep, keep[j]) == j
  {
    var p := Position(keep, keep[j]);
    assert !(p < j) && !(j < p);
  }

  /** The keys of a dict renumbered through `old_to_new`, dropping the removed ones, in dict order. */
  function RenameKeys(keys: seq<int>, keep: seq<int>): (r: seq<int>)
    requires Increasing(keep)
    ensures forall j :: j in r <==> 0 <= j < |keep| && keep[j] in keys
    ensures Distinct(keys) ==> Distinct(r)
  {
    if keys == [] then []
    else
      var t := RenameKeys(keys[1..], keep);
      assert keys == [keys[0]] + keys[1..];
      forall j | 0 <= j < |keep| && keep[j] == keys[0]
        ensures Position(keep, keys[0]) == j
      {
        PositionUnique(keep, j);
      }
      if keys[0] in keep then
        var p := Position(keep, keys[0]);
        assert Distinct(keys) ==> p !in t;
        DistinctCons(p, t, Distinct(keys));
        [p] + t
      else t
  }

  /** Annotations moved to a new frame index (`ann.frame_idx = new_idx`). */
  function Retag(anns: seq<RefAnnotation>, frame: int): (r: seq<RefAnnotation>)
    ensures |r| == |anns|
    ensures forall k | 0 <= k < |r| :: r[k] == anns[k].(frameIdx := frame)
  {
    seq(|anns|, k requires 0 <= k < |anns| => anns[k].(frameIdx := frame))
  }

  function DistanceTo(k: int, current: int): int
  {
    if k >= current then k - current else current - k
  }

  /** `min(keep, key=lambda k: abs(k - current))`, as a position: the first kept frame nearest `current`. */
  function Nearest(keep: seq<int>, current: int): (r: nat)
    requires keep != []
    ensures r < |keep|
    ensures forall j | 0 <= j < |keep| :: DistanceTo(keep[r], current) <= DistanceTo(keep[j], current)
    ensures forall j | 0 <= j < r :: DistanceTo(keep[r], current) < DistanceTo(keep[j], current)
  {
    if |keep| == 1 then 0
    else
      var n := |keep| - 1;
      var best := Nearest(keep[..n], current);
      assert forall j | 0 <= j < n :: keep[..n][j] == keep[j];
      if DistanceTo(keep[n], current) < DistanceTo(keep[best], current) then n else best
  }

  /** A kept current frame stays the current frame, at its new position. */
  lemma NearestOfKept(keep: seq<int>, j: int)
    requires Increasing(keep) && 0 <= j < |keep|
    ensures Nearest(keep, keep[j]) == j
  {
    var r := Nearest(keep, keep[j]);
    assert DistanceTo(keep[r], keep[j]) == 0;
    assert !(r < j) && !(j < r);
  }

  /** A dict keyed by frame, renumbered through `old_to_new`; entries of removed frames go. */
  function RenumberMap<V>(m: map<int, V>, keep: seq<int>): (r: map<int, V>)
    ensures forall j :: j in r <==> 0 <= j < |keep| && keep[j] in m
    ensures forall j | j in r :: r[j] == m[keep[j]]
    decreases |keep|
  {
    if keep == [] then map[]
    else
      var n := |keep| - 1;
      var t := RenumberMap(m, keep[..n]);
      assert forall j | 0 <= j < n :: keep[..n][j] == keep[j];
      if keep[n] in m then t[n := m[keep[n]]] else t
  }

  /** A set of frames renumbered through `old_to_new`; removed frames go. */
  function RenumberSet(s: set<int>, keep: seq<int>): (r: set<int>)
    ensures forall j :: j in r <==> 0 <= j < |keep| && keep[j] in s
    decreases |keep|
  {
    if keep == [] then {}
    else
      var n := |keep| - 1;
      var t := RenumberSet(s, keep[..n]);
      assert forall j | 0 <= j < n :: keep[..n][j] == keep[j];
      if keep[n] in s then t + {n} else t
  }

  /** The annotation lists renumbered through `old_to_new`, each retagged with its new frame. */
  function RenumberAnnotations(m: map<int, seq<RefAnnotation>>, keep: seq<int>): (r: map<int, seq<RefAnnotation>>)
    ensures forall j :: j in r <==> 0 <= j < |keep| && keep[j] in m
    ensures forall j | j in r :: r[j] == Retag(m[keep[j]], j)
    decreases |keep|
  {
    if keep == [] then map[]
    else
      var n := |keep| - 1;
      var t := RenumberAnnotations(m, keep[..n]);
      assert forall j | 0 <= j < n :: keep[..n][j] == keep[j];
      if keep[n] in m then t[n := Retag(m[keep[n]], n)] else t
  }

  /** The references renumbered through `old_to_new`, in their old order. */
  function RenumberRefs(d: ODict<int, seq<RefAnnotation>>, keep: seq<int>): (r: ODict<int, seq<RefAnnotation>>)
    requires Valid(d) && Increasing(keep)
    ensures Valid(r)
    ensures r.keys == RenameKeys(d.keys, keep)
    ensures forall j :: j in r.vals <==> 0 <= j < |keep| && keep[j] in d.vals
    ensures forall j | j in r.vals :: r.vals[j] == Retag(d.vals[keep[j]], j)
  {
    ODict(RenameKeys(d.keys, keep), RenumberAnnotations(d.vals, keep))
  }

  /** The new current frame: its own new index when kept, else that of the nearest kept frame. */
  function NewCurrent(keep: seq<int>, current: int): (r: nat)
    requires Increasing(keep) && keep != []
    ensures r < |keep|
  {
    if current in keep then Position(keep, current) else Nearest(keep, current)
  }

  /** Either way the new current frame is the first kept frame nearest the old one. */
  lemma NewCurrentIsNearest(keep: seq<int>, current: int)
    requires Increasing(keep) && keep != []
    ensures NewCurrent(keep, current) == Nearest(keep, current)
  {
    if current in keep {
      var p := Position(keep, current);
      PositionUnique(keep, p);
      NearestOfKept(keep, p);
    }
  }

  /** `keep` turned into the new frame of each kept old frame: the `old_to_new` renumbering of a status dict. */
  method RenumberStatuses(d: ODict<int, FrameStatus>, keep: seq<int>) returns (r: ODict<int, FrameStatus>)
    ensures Valid(r) && r.keys == Range(0, |keep|)
    ensures forall j :: j in r.vals <==> 0 <= j < |keep|
    ensures forall j | 0 <= j < |keep| :: r.vals[j] == StatusIn(d, keep[j])
  {
    r := EmptyDict();
    for j := 0 to |keep|
      invariant Valid(r) && r.keys == Range(0, j)
      invariant forall i :: i in r.vals <==> 0 <= i < j
      invariant forall i | 0 <= i < j :: r.vals[i] == StatusIn(d, keep[i])
    {
      r := Store(r, j, StatusIn(d, keep[j]));
      assert r.keys == Range(0, j + 1);
    }
  }

  /** Everything `SequenceViewMode` holds, for stating what an operation leaves alone. */
  datatype SeqState = SeqState(
    imagePaths: seq<string>,
    currentFrame: int,
    refs: ODict<int, seq<RefAnnotation>>,
    statuses: ODict<int, FrameStatus>,
    masks: map<int, map<int, Mask>>,
    scores: map<int, real>,
    refDims: Option<(int, int)>,
    skipped: set<int>,
    threshold: real,
    autoFlag: bool)

  class SequenceViewMode {
    var imagePaths: seq<string>
    var currentFrame: int
    /** `_reference_annotations`: reference frame -> annotations, in the order references were set. */
    var refs: ODict<int, seq<RefAnnotation>>
    var statuses: ODict<int, FrameStatus>
    /** `_propagated_masks`: frame -> object id -> mask. */
    var masks: map<int, map<int, Mask>>
    var scores: map<int, real>
    /** `_reference_dimensions` as (height, width). */
    var refDims: Option<(int, int)>
    var skipped: set<int>
    var threshold: real
    var autoFlag: bool

    ghost function State(): SeqState
      reads this
    {
      SeqState(imagePaths, currentFrame, refs, statuses, masks, scores, refDims, skipped, threshold, autoFlag)
    }

    /**
     * Both dicts are well formed, every frame of the timeline has a status,
     * and references are timeline frames.
     */
    ghost predicate Valid()
      reads this
    {
      && OrderedDicts.Valid(refs) && OrderedDicts.Valid(statuses)
      && (forall i | 0 <= i < |imagePaths| :: i in statuses.vals)
      && (forall k | k in refs.vals :: 0 <= k < |imagePaths|)
    }

    /** No frames, nothing recorded, threshold 0.99 and auto-flagging on. */
    constructor()
      ensures Valid()
      ensures State() == SeqState([], 0, EmptyDict(), EmptyDict(), map[], map[], None, {}, 0.99, true)
    {
      imagePaths := [];
      currentFrame := 0;
      refs := EmptyDict();
      statuses := EmptyDict();
      masks := map[];
      scores := map[];
      refDims := None;
      skipped := {};
      threshold := 0.99;
      autoFlag := true;
    }

    /** `primary_reference_idx`: the first reference set, -1 when there is none. */
    function PrimaryReferenceIdx(): (r: int)
      requires Valid()
      reads this
      ensures r == -1 <==> refs.vals.Keys == {}
      ensures r != -1 ==> r in refs.vals && 0 <= r < |imagePaths| && r == refs.keys[0]
    {
      if refs.keys == [] then
        assert forall k :: k !in refs.vals;
        -1
      else
        assert refs.keys[0] in refs.vals;
        refs.keys[0]
    }

    /** `has_reference` */
    predicate HasReference()
      requires Valid()
      reads this
      ensures HasReference() <==> refs.vals.Keys != {}
      ensures HasReference() <==> PrimaryReferenceIdx() >= 0
    {
      assert refs.keys == [] ==> forall k :: k !in refs.vals;
      assert refs.keys != [] ==> refs.keys[0] in refs.vals;
      |refs.keys| > 0
    }

    /**
     * `set_image_paths` with `_reset_state`: frame 0, no references, masks,
     * scores, dimensions or skipped frames, and every frame PENDING in order.
     */
    method SetImagePaths(paths: seq<string>)
      requires Valid()
      modifies this
      ensures Valid()
      ensures imagePaths == paths && currentFrame == 0
      ensures refs == EmptyDict() && masks == map[] && scores == map[] && refDims.None? && skipped == {}
      ensures statuses.keys == Range(0, |paths|)
      ensures forall k :: k in statuses.vals <==> 0 <= k < |paths|
      ensures forall k | k in statuses.vals :: statuses.vals[k] == Pending
      ensures threshold == old(threshold) && autoFlag == old(autoFlag)
    {
      imagePaths := paths;
      currentFrame := 0;
      refs := EmptyDict();
      masks := map[];
      scores := map[];
      refDims := None;
      skipped := {};
      statuses := AllPending(|paths|);
    }

    /**
     * `clear_propagation_results`: masks and scores go, and every status
     * other than REFERENCE or SKIPPED becomes PENDING.
     */
    method ClearPropagationResults()
      requires Valid()
      modifies this
      ensures Valid()
      ensures State() == old(State()).(statuses := statuses, masks := map[], scores := map[])
      ensures statuses.keys == old(statuses).keys && statuses.vals == ClearedStatuses(old(statuses).vals)
      ensures forall k | k in statuses.vals :: statuses.vals[k] in {Pending, Reference, Skipped}
    {
      masks := map[];
      scores := map[];
      statuses := ResetStatuses(statuses);
    }

    /** `get_image_path` */
    function ImagePath(idx: int): (r: Option<string>)
      reads this
      ensures r.Some? <==> 0 <= idx < |imagePaths|
      ensures r.Some? ==> r.value == imagePaths[idx]
    {
      if 0 <= idx < |imagePaths| then Some(imagePaths[idx]) else None
    }

    /** `get_frame_idx_for_path`: the first frame whose normalised path equals the normalised `path`. */
    method FrameIdxForPath(path: string, normalize: string -> string) returns (r: Option<nat>)
      ensures r.Some? ==> r.value < |imagePaths| && normalize(imagePaths[r.value]) == normalize(path)
      ensures r.Some? ==> forall j | 0 <= j < r.value :: normalize(imagePaths[j]) != normalize(path)
      ensures r.None? ==> forall j | 0 <= j < |imagePaths| :: normalize(imagePaths[j]) != normalize(path)
    {
      var target := normalize(path);
      for i := 0 to |imagePaths|
        invariant forall j | 0 <= j < i :: normalize(imagePaths[j]) != target
      {
        if normalize(imagePaths[i]) == target {
          return Some(i);
        }
      }
      return None;
    }

    /** `set_current_frame`: accepted only inside the timeline. */
    method SetCurrentFrame(idx: int) returns (ok: bool)
      requires Valid()
      modifies this
      ensures Valid()
      ensures ok <==> 0 <= idx < |imagePaths|
      ensures State() == old(State()).(currentFrame := if ok then idx else old(currentFrame))
    {
      if 0 <= idx < |imagePaths| {
        currentFrame := idx;
        return true;
      }
      return false;
    }

    /** `get_frame_status`: PENDING for a frame without a status. */
    function FrameStatusOf(idx: int): FrameStatus
      reads this
    {
      StatusIn(statuses, idx)
    }

    /**
     * `set_reference_frame`: refused outside the timeline or when `dims`
     * differ from the dimensions recorded first; otherwise the frame's
     * annotations (given, or captured from `segs`) are stored and the frame
     * becomes REFERENCE.
     */
    method SetReferenceFrame(idx: int, annotations: Option<seq<RefAnnotation>>, dims: Option<(int, int)>,
                             segs: seq<Segment>)
      returns (ok: bool)
      requires Valid()
      modifies this
      ensures Valid()
      ensures ok <==> 0 <= idx < |imagePaths| && (dims.None? || old(refDims).None? || dims == old(refDims))
      ensures !ok ==> State() == old(State())
      ensures ok ==> FrameStatusOf(idx) == Reference && idx in refs.vals
      ensures ok ==> (refDims.Some? <==> old(refDims).Some? || dims.Some?)
      ensures ok && old(refDims).Some? ==> refDims == old(refDims)
      ensures ok ==>
                State() == old(State()).(
                  refs := Store(old(refs), idx, if annotations.Some? then annotations.value else Captured(segs, idx)),
                  statuses := Store(old(statuses), idx, Reference),
                  refDims := if old(refDims).None? then dims else old(refDims))
    {
      if !(0 <= idx < |imagePaths|) {
        return false;
      }
      if dims.Some? {
        if refDims.None? {
          refDims := dims;
        } else if dims != refDims {
          return false;
        }
      }
      var anns: seq<RefAnnotation>;
      if annotations.None? {
        anns := CaptureAnnotations(segs, idx);
      } else {
        anns := annotations.value;
      }
      refs := Store(refs, idx, anns);
      statuses := Store(statuses, idx, Reference);
      return true;
    }

    /**
     * `clear_reference_frame`: only a reference frame can be cleared; it
     * becomes PENDING, and the recorded dimensions go with the last reference.
     */
    method ClearReferenceFrame(idx: int) returns (ok: bool)
      requires Valid()
      modifies this
      ensures Valid()
      ensures ok <==> idx in old(refs.vals)
      ensures !ok ==> State() == old(State())
      ensures ok ==> idx !in refs.vals && FrameStatusOf(idx) == Pending
      ensures ok && !HasReference() ==> refDims.None?
      ensures ok ==>
                State() == old(State()).(
                  refs := Delete(old(refs), idx),
                  statuses := Store(old(statuses), idx, Pending),
                  refDims := if Delete(old(refs), idx).keys == [] then None else old(refDims))
    {
      if idx in refs.vals {
        refs := Delete(refs, idx);
        statuses := Store(statuses, idx, Pending);
        if refs.keys == [] {
          refDims := None;
        }
        return true;
      }
      return false;
    }

    /**
     * `mark_frame_propagated`: the new masks are merged over the frame's
     * old ones, the frame keeps the lowest confidence reported, and it is
     * FLAGGED exactly when auto-flagging is on and that confidence is below
     * the threshold, PROPAGATED otherwise.
     */
    method MarkFramePropagated(idx: int, newMasks: map<int, Mask>, confidence: real)
      requires Valid()
      modifies this`masks, this`scores, this`statuses
      ensures Valid()
      ensures State() == old(State()).(masks := masks, scores := scores, statuses := statuses)
      ensures masks.Keys == old(masks).Keys + {idx}
      ensures forall k | k in masks && k != idx :: masks[k] == old(masks)[k]
      ensures forall o | o in newMasks :: o in masks[idx] && masks[idx][o] == newMasks[o]
      ensures idx in old(masks) ==> forall o | o in old(masks)[idx] && o !in newMasks :: o in masks[idx] && masks[idx][o] == old(masks)[idx][o]
      ensures forall o | o in masks[idx] :: o in newMasks || (idx in old(masks) && o in old(masks)[idx])
      ensures idx in scores && scores == old(scores)[idx := scores[idx]]
      ensures idx in old(scores) ==> scores[idx] == MinReal(old(scores)[idx], confidence)
      ensures idx !in old(scores) ==> scores[idx] == confidence
      ensures statuses == Store(old(statuses), idx, FrameStatusOf(idx))
      ensures FrameStatusOf(idx) == Flagged <==> autoFlag && scores[idx] < threshold
      ensures FrameStatusOf(idx) != Flagged ==> FrameStatusOf(idx) == Propagated
    {
      MergeFrameMasks(idx, newMasks);
      LowerFrameScore(idx, confidence);
      if autoFlag && scores[idx] < threshold {
        statuses := Store(statuses, idx, Flagged);
      } else {
        statuses := Store(statuses, idx, Propagated);
      }
    }

    /** The masks part of `mark_frame_propagated`: the new masks are merged over the frame's old ones. */
    method MergeFrameMasks(idx: int, newMasks: map<int, Mask>)
      modifies this`masks
      ensures masks.Keys == old(masks).Keys + {idx}
      ensures forall k | k in masks && k != idx :: masks[k] == old(masks)[k]
      ensures forall o | o in newMasks :: o in masks[idx] && masks[idx][o] == newMasks[o]
      ensures idx in old(masks) ==> forall o | o in old(masks)[idx] && o !in newMasks :: o in masks[idx] && masks[idx][o] == old(masks)[idx][o]
      ensures forall o | o in masks[idx] :: o in newMasks || (idx in old(masks) && o in old(masks)[idx])
    {
      if idx in masks {
        masks := masks[idx := masks[idx] + newMasks];
      } else {
        masks := masks[idx := newMasks];
      }
    }

    /** The score part of `mark_frame_propagated`: the frame keeps its lowest confidence. */
    method LowerFrameScore(idx: int, confidence: real)
      modifies this`scores
      ensures idx in scores && scores == old(scores)[idx := scores[idx]]
      ensures idx in old(scores) ==> scores[idx] == MinReal(old(scores)[idx], confidence)
      ensures idx !in old(scores) ==> scores[idx] == confidence
    {
      if idx in scores {
        scores := scores[idx := MinReal(scores[idx], confidence)];
      } else {
        scores := scores[idx := confidence];
      }
    }

    /** `flag_frame`: timeline frames only. */
    method FlagFrame(idx: int)
      requires Valid()
      modifies this
      ensures Valid()
      ensures State() == old(State()).(statuses := if 0 <= idx < |imagePaths| then Store(old(statuses), idx, Flagged) else old(statuses))
    {
      if 0 <= idx < |imagePaths| {
        statuses := Store(statuses, idx, Flagged);
      }
    }

    /** `unflag_frame`: PROPAGATED when the frame has masks, PENDING otherwise. */
    method UnflagFrame(idx: int)
      requires Valid()
      modifies this
      ensures Valid()
      ensures State() == old(State()).(statuses := Store(old(statuses), idx, FrameStatusOf(idx)))
      ensures FrameStatusOf(idx) == if idx in masks then Propagated else Pending
    {
      if idx in masks {
        statuses := Store(statuses, idx, Propagated);
      } else {
        statuses := Store(statuses, idx, Pending);
      }
    }

    /** `mark_frame_saved`: a timeline frame becomes SAVED and its propagated masks are dropped. */
    method MarkFrameSaved(idx: int)
      requires Valid()
      modifies this
      ensures Valid()
      ensures !(0 <= idx < |imagePaths|) ==> State() == old(State())
      ensures 0 <= idx < |imagePaths| ==>
                State() == old(State()).(statuses := Store(old(statuses), idx, Saved), masks := old(masks) - {idx})
    {
      if 0 <= idx < |imagePaths| {
        statuses := Store(statuses, idx, Saved);
        if idx in masks {
          masks := masks - {idx};
        }
      }
    }

    /** `get_propagated_masks` */
    function PropagatedMasks(idx: int): (r: Option<map<int, Mask>>)
      reads this
      ensures r.Some? <==> idx in masks
      ensures r.Some? ==> r.value == masks[idx]
    {
      if idx in masks then Some(masks[idx]) else None
    }

    /** `clear_propagated_mask`: the frame's masks and score go. */
    method ClearPropagatedMask(idx: int)
      requires Valid()
      modifies this
      ensures Valid()
      ensures State() == old(State()).(masks := old(masks) - {idx}, scores := old(scores) - {idx})
    {
      if idx in masks {
        masks := masks - {idx};
      }
      if idx in scores {
        scores := scores - {idx};
      }
    }

    /** `get_confidence_score`: 0.0 for a frame without a score. */
    function ConfidenceScore(idx: int): (r: real)
      reads this
      ensures idx in scores ==> r == scores[idx]
      ensures idx !in scores ==> r == 0.0
    {
      if idx in scores then scores[idx] else 0.0
    }

    /** `get_flagged_frames`: exactly the FLAGGED frames, in status-dict order. */
    function FlaggedFrames(): (r: seq<int>)
      requires Valid()
      reads this
      ensures Distinct(r)
      ensures forall k :: k in r <==> FrameStatusOf(k) == Flagged && k in statuses.vals
    {
      FramesInOrder(statuses, Flagged)
    }

    /** `get_propagated_frames`: exactly the PROPAGATED frames, in status-dict order. */
    function PropagatedFrames(): (r: seq<int>)
      requires Valid()
      reads this
      ensures Distinct(r)
      ensures forall k :: k in r <==> FrameStatusOf(k) == Propagated && k in statuses.vals
    {
      FramesInOrder(statuses, Propagated)
    }

    /** `next_flagged_frame`: the first flagged frame after the current one, wrapping around. */
    method NextFlaggedFrame() returns (r: Option<int>)
      requires Valid()
      ensures r == NextFlagged(FramesWith(statuses.vals, Flagged), currentFrame)
    {
      var flagged := FramesWith(statuses.vals, Flagged);
      r := ScanNext(SortedSet(flagged), flagged, currentFrame);
    }

    /** `prev_flagged_frame`: the last flagged frame before the current one, wrapping around. */
    method PrevFlaggedFrame() returns (r: Option<int>)
      requires Valid()
      ensures r == PrevFlagged(FramesWith(statuses.vals, Flagged), currentFrame)
    {
      var flagged := FramesWith(statuses.vals, Flagged);
      r := ScanPrev(SortedSet(flagged), flagged, currentFrame);
    }

    /** `set_confidence_threshold`, clamped to [0, 1]. */
    method SetConfidenceThreshold(t: real)
      requires Valid()
      modifies this
      ensures Valid()
      ensures State() == old(State()).(threshold := Clamp01(t))
    {
      threshold := Clamp01(t);
    }

    /** `set_auto_flag_enabled` */
    method SetAutoFlagEnabled(enabled: bool)
      requires Valid()
      modifies this
      ensures Valid()
      ensures State() == old(State()).(autoFlag := enabled)
    {
      autoFlag := enabled;
    }

    /** `get_reference_annotations`: of `idx`, or of the primary reference when `idx` is None; [] for a non-reference. */
    function ReferenceAnnotations(idx: Option<int>): (r: seq<RefAnnotation>)
      requires Valid()
      reads this
      ensures idx.Some? && idx.value in refs.vals ==> r == refs.vals[idx.value]
      ensures idx.Some? && idx.value !in refs.vals ==> r == []
      ensures idx.None? && HasReference() ==> r == refs.vals[refs.keys[0]]
      ensures idx.None? && !HasReference() ==> r == []
    {
      var i := if idx.None? then PrimaryReferenceIdx() else idx.value;
      if i in refs.vals then refs.vals[i] else []
    }

    /** `get_propagation_range` */
    function PropagationRange(direction: string, start: int, end: int): (r: (int, int))
      requires Valid()
      reads this
      ensures r == RangeFor(PrimaryReferenceIdx(), |imagePaths|, direction, start, end)
    {
      RangeFor(PrimaryReferenceIdx(), |imagePaths|, direction, start, end)
    }

    /** `mark_frames_skipped`: the skipped set is replaced and its timeline frames become SKIPPED. */
    method MarkFramesSkipped(indices: set<int>)
      requires Valid()
      modifies this
      ensures Valid()
      ensures State() == old(State()).(skipped := indices,
                                       statuses := ODict(old(statuses).keys, SkippedStatuses(old(statuses).vals, indices, |imagePaths|)))
    {
      skipped := indices;
      statuses := SkipStatuses(statuses, indices, |imagePaths|);
    }

    /**
     * The frame part of the rebuild in `trim_frames`, for the increasing,
     * non-empty list `keep` of timeline frames: paths and statuses are
     * renumbered `0..k-1` in their old order.
     */
    method RenumberFrames(keep: seq<int>)
      requires Increasing(keep) && keep != []
      requires forall k | 0 <= k < |keep| :: 0 <= keep[k] < |imagePaths|
      modifies this`imagePaths, this`statuses
      ensures imagePaths == PathsAt(old(imagePaths), keep)
      ensures OrderedDicts.Valid(statuses) && statuses.keys == Range(0, |keep|)
      ensures forall j :: j in statuses.vals <==> 0 <= j < |keep|
      ensures forall j | 0 <= j < |keep| :: statuses.vals[j] == StatusIn(old(statuses), keep[j])
    {
      var newPaths := PathsAt(imagePaths, keep);
      var newStatuses := RenumberStatuses(statuses, keep);
      imagePaths, statuses := newPaths, newStatuses;
    }

    /**
     * The rest of the rebuild in `trim_frames`: references (retagged with
     * their new frame), masks, scores and skipped marks follow their frames,
     * the recorded dimensions go when no reference is left, and the current
     * frame moves to the kept frame nearest the old one.
     */
    method RenumberAttached(keep: seq<int>)
      requires OrderedDicts.Valid(refs) && Increasing(keep) && keep != []
      modifies this`refs, this`masks, this`scores, this`skipped, this`refDims, this`currentFrame
      ensures refs == RenumberRefs(old(refs), keep)
      ensures masks == RenumberMap(old(masks), keep)
      ensures scores == RenumberMap(old(scores), keep)
      ensures skipped == RenumberSet(old(skipped), keep)
      ensures refDims == if refs.keys == [] then None else old(refDims)
      ensures currentFrame == NewCurrent(keep, old(currentFrame))
    {
      RenumberReferences(keep);
      RenumberFrameData(keep);
    }

    /** The references of `RenumberAttached`, and the dimensions that go with the last of them. */
    method RenumberReferences(keep: seq<int>)
      requires OrderedDicts.Valid(refs) && Increasing(keep)
      modifies this`refs, this`refDims
      ensures refs == RenumberRefs(old(refs), keep)
      ensures refDims == if refs.keys == [] then None else old(refDims)
    {
      var newRefs := RenumberRefs(refs, keep);
      refDims := if newRefs.keys == [] then None else refDims;
      refs := newRefs;
    }

    /** The masks, scores, skipped marks and current frame of `RenumberAttached`. */
    method RenumberFrameData(keep: seq<int>)
      requires Increasing(keep) && keep != []
      modifies this`masks, this`scores, this`skipped, this`currentFrame
      ensures masks == RenumberMap(old(masks), keep)
      ensures scores == RenumberMap(old(scores), keep)
      ensures skipped == RenumberSet(old(skipped), keep)
      ensures currentFrame == NewCurrent(keep, old(currentFrame))
    {
      masks := RenumberMap(masks, keep);
      scores := RenumberMap(scores, keep);
      skipped := RenumberSet(skipped, keep);
      currentFrame := NewCurrent(keep, currentFrame);
    }

    /**
     * The whole rebuild of `trim_frames` for the increasing, non-empty list
     * `keep` of timeline frames.
     */
    method Rebuild(keep: seq<int>)
      requires Valid()
      requires Increasing(keep) && keep != []
      requires forall k | 0 <= k < |keep| :: 0 <= keep[k] < |imagePaths|
      modifies this`imagePaths, this`statuses, this`refs, this`masks, this`scores, this`skipped, this`refDims, this`currentFrame
      ensures Valid()
      ensures imagePaths == PathsAt(old(imagePaths), keep)
      ensures statuses.keys == Range(0, |keep|)
      ensures forall j | 0 <= j < |keep| :: j in statuses.vals && statuses.vals[j] == StatusIn(old(statuses), keep[j])
      ensures refs == RenumberRefs(old(refs), keep)
      ensures masks == RenumberMap(old(masks), keep)
      ensures scores == RenumberMap(old(scores), keep)
      ensures skipped == RenumberSet(old(skipped), keep)
      ensures currentFrame == Nearest(keep, old(currentFrame))
      ensures refDims == (if refs.keys == [] then None else old(refDims))
      ensures threshold == old(threshold) && autoFlag == old(autoFlag)
    {
      RenumberFrames(keep);
      RenumberAttached(keep);
      NewCurrentIsNearest(keep, old(currentFrame));
    }

    /**
     * `trim_frames`: fails (None) when no frame would remain, or when a
     * removed index below `-total` makes collecting the removed paths raise;
     * otherwise renumbers the kept frames (see `Renumber`) and returns the
     * removed paths in index order.
     */
    method TrimFrames(remove: set<int>) returns (r: Option<seq<string>>)
      requires Valid()
      modifies this
      ensures Valid()
      ensures r.None? <==> (KeptFrames(|old(imagePaths)|, remove) == []
                            || RemovedPaths(old(imagePaths), SortedSet(remove)).None?)
      ensures r.None? ==> State() == old(State())
      ensures r.Some? ==> r == RemovedPaths(old(imagePaths), SortedSet(remove))
      ensures r.Some? ==>
                var keep := KeptFrames(|old(imagePaths)|, remove);
                && imagePaths == PathsAt(old(imagePaths), keep)
                && statuses.keys == Range(0, |keep|)
                && (forall j | 0 <= j < |keep| :: j in statuses.vals && statuses.vals[j] == StatusIn(old(statuses), keep[j]))
                && refs == RenumberRefs(old(refs), keep)
                && masks == RenumberMap(old(masks), keep)
                && scores == RenumberMap(old(scores), keep)
                && skipped == RenumberSet(old(skipped), keep)
                && currentFrame == Nearest(keep, old(currentFrame))
                && refDims == (if refs.keys == [] then None else old(refDims))
                && threshold == old(threshold) && autoFlag == old(autoFlag)
    {
      var keep := KeptFrames(|imagePaths|, remove);
      if keep == [] {
        return None;
      }
      r := RemovedPaths(imagePaths, SortedSet(remove));
      if r.None? {
        return None;
      }
      Rebuild(keep);
    }
  }
}
