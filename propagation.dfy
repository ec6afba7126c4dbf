/**
 * The SAM 2 video propagation state of `PropagationManager`
 * (ui/managers/propagation_manager.py): the maps between timeline frames and
 * the frames loaded into the video predictor, the reference frames and
 * annotations, the triage of the predictor's output into stored results and
 * flagged frames, the frame status and the confidence threshold.
 *
 * The predictor is a parameter.  Its `propagate_in_video` stream is the
 * function `video`, giving for a start frame and a direction the items
 * `(frame_idx, obj_id, mask, confidence)` it would yield; `init_video_state`
 * is `videoInit`, giving the frame count on success; the image size reader is
 * `dims`.  Reference and propagated frames of the manager's own sets are in
 * SAM 2 space and timeline space as the source says.
 */
module Propagation {
  import opened Wrappers
  import opened Geometry
  import opened Seqs
  import opened Segments
  import Text
  import SV = SequenceView

  datatype Direction = Forward | Backward | Bidirectional

  datatype FrameStatus = Pending | Reference | Propagated | Flagged | Skipped

  datatype PropagationResult = PropagationResult(frameIdx: int, objId: int, mask: Mask, confidence: real, imagePath: string)

  datatype ReferenceAnnotation = ReferenceAnnotation(frameIdx: int, objId: int, mask: Mask, classId: int, className: string)

  /** One item of the predictor's stream, in SAM 2 frame indices. */
  datatype Yielded = Yielded(frameIdx: nat, objId: int, mask: Mask, confidence: real)

  /** `d.get(k, default)` */
  function Lookup(m: map<int, int>, k: int, default: int): int
  {
    if k in m then m[k] else default
  }

  // ---------------------------------------------------------------------
  // Index maps (`init_sequence`)
  // ---------------------------------------------------------------------

  /**
   * What `init_sequence` establishes: the two maps are mutually inverse,
   * SAM 2 indices are non-negative and their timeline frames increase with
   * them, and no skipped frame is mapped.
   */
  predicate IndexMapsConsistent(s2t: map<int, int>, t2s: map<int, int>, skipped: set<int>)
  {
    && (forall j | j in s2t :: 0 <= j && s2t[j] in t2s && t2s[s2t[j]] == j)
    && (forall t | t in t2s :: t2s[t] in s2t && s2t[t2s[t]] == t)
    && (forall j, k | j in s2t && k in s2t && j < k :: s2t[j] < s2t[k])
    && (forall t | t in skipped :: t !in t2s)
  }

  /** Whether a frame is loaded into the predictor: always without reference dimensions, else when its (height, width) match. */
  predicate Keeps(refDims: Option<(int, int)>, dims: string -> Option<(int, int)>, path: string)
  {
    refDims.None? || dims(path) == Some(refDims.value)
  }

  /** The paths handed to the predictor, in timeline order. */
  function KeptPaths(paths: seq<string>, refDims: Option<(int, int)>, dims: string -> Option<(int, int)>): (r: seq<string>)
    ensures |r| <= |paths|
  {
    if paths == [] then []
    else
      var n := |paths| - 1;
      var init := KeptPaths(paths[..n], refDims, dims);
      if Keeps(refDims, dims, paths[n]) then init + [paths[n]] else init
  }

  /** Without reference dimensions every frame is kept. */
  lemma {:induction false} KeptPathsAll(paths: seq<string>, dims: string -> Option<(int, int)>)
    ensures KeptPaths(paths, None, dims) == paths
  {
    if paths != [] {
      var n := |paths| - 1;
      KeptPathsAll(paths[..n], dims);
      assert paths[..n] + [paths[n]] == paths;
    }
  }

  /** Some path is handed to the predictor exactly when some frame matches. */
  lemma {:induction false} KeptPathsNonEmpty(paths: seq<string>, refDims: Option<(int, int)>, dims: string -> Option<(int, int)>)
    ensures KeptPaths(paths, refDims, dims) != [] <==> exists t | 0 <= t < |paths| :: Keeps(refDims, dims, paths[t])
  {
    if paths != [] {
      var n := |paths| - 1;
      KeptPathsNonEmpty(paths[..n], refDims, dims);
      assert forall t | 0 <= t < n :: paths[..n][t] == paths[t];
    }
  }

  /** The filtering loop of `init_sequence` with reference dimensions `ref`. */
  method FilterFrames(paths: seq<string>, ref: (int, int), dims: string -> Option<(int, int)>)
    returns (filtered: seq<string>, s2t: map<int, int>, t2s: map<int, int>, skipped: set<int>)
    ensures filtered == KeptPaths(paths, Some(ref), dims)
    ensures forall j :: j in s2t <==> 0 <= j < |filtered|
    ensures forall j | j in s2t :: 0 <= s2t[j] < |paths| && filtered[j] == paths[s2t[j]] && s2t[j] in t2s && t2s[s2t[j]] == j
    ensures forall t | t in t2s :: 0 <= t < |paths| && t2s[t] in s2t && s2t[t2s[t]] == t
    ensures forall j, k | j in s2t && k in s2t && j < k :: s2t[j] < s2t[k]
    ensures forall t | 0 <= t < |paths| :: (t in t2s <==> dims(paths[t]) == Some(ref)) && (t in skipped <==> t !in t2s)
    ensures forall t | t in skipped :: 0 <= t < |paths|
  {
    filtered, s2t, t2s, skipped := [], map[], map[], {};
    for t := 0 to |paths|
      invariant Filtering(paths, t, ref, dims, filtered, s2t, t2s, skipped)
    {
      if dims(paths[t]) == Some(ref) {
        FilterKeepStep(paths, t, ref, dims, filtered, s2t, t2s, skipped);
        var j := |filtered|;
        s2t := s2t[j := t];
        t2s := t2s[t := j];
        filtered := filtered + [paths[t]];
      } else {
        FilterSkipStep(paths, t, ref, dims, filtered, s2t, t2s, skipped);
        skipped := skipped + {t};
      }
    }
    assert paths[..|paths|] == paths;
  }

  /** What the filtering loop has built once it has looked at the first `t` paths. */
  ghost predicate Filtering(paths: seq<string>, t: int, ref: (int, int), dims: string -> Option<(int, int)>,
                            filtered: seq<string>, s2t: map<int, int>, t2s: map<int, int>, skipped: set<int>)
  {
    && 0 <= t <= |paths|
    && filtered == KeptPaths(paths[..t], Some(ref), dims)
    && (forall j :: j in s2t <==> 0 <= j < |filtered|)
    && (forall j | j in s2t :: 0 <= s2t[j] < t && filtered[j] == paths[s2t[j]] && s2t[j] in t2s && t2s[s2t[j]] == j)
    && (forall x | x in t2s :: 0 <= x < t && t2s[x] in s2t && s2t[t2s[x]] == x)
    && (forall j, k | j in s2t && k in s2t && j < k :: s2t[j] < s2t[k])
    && (forall x | 0 <= x < t :: (x in t2s <==> dims(paths[x]) == Some(ref)) && (x in skipped <==> x !in t2s))
    && (forall x | x in skipped :: 0 <= x < t)
  }

  /** A path with the reference dimensions is kept and mapped both ways. */
  lemma FilterKeepStep(paths: seq<string>, t: int, ref: (int, int), dims: string -> Option<(int, int)>,
                       filtered: seq<string>, s2t: map<int, int>, t2s: map<int, int>, skipped: set<int>)
    requires Filtering(paths, t, ref, dims, filtered, s2t, t2s, skipped)
    requires t < |paths| && dims(paths[t]) == Some(ref)
    ensures Filtering(paths, t + 1, ref, dims, filtered + [paths[t]], s2t[|filtered| := t], t2s[t := |filtered|], skipped)
  {
    assert paths[..t + 1][..t] == paths[..t];
    var j := |filtered|;
    var f', s', t' := filtered + [paths[t]], s2t[j := t], t2s[t := j];
    assert forall x | x in s' :: 0 <= s'[x] < t + 1 && f'[x] == paths[s'[x]] && s'[x] in t' && t'[s'[x]] == x by {
      assert j !in s2t && t !in t2s;
    }
  }

  /** A path with other dimensions is skipped. */
  lemma FilterSkipStep(paths: seq<string>, t: int, ref: (int, int), dims: string -> Option<(int, int)>,
                       filtered: seq<string>, s2t: map<int, int>, t2s: map<int, int>, skipped: set<int>)
    requires Filtering(paths, t, ref, dims, filtered, s2t, t2s, skipped)
    requires t < |paths| && dims(paths[t]) != Some(ref)
    ensures Filtering(paths, t + 1, ref, dims, filtered, s2t, t2s, skipped + {t})
  {
    assert paths[..t + 1][..t] == paths[..t];
  }

  /** The 1:1 maps `init_sequence` builds without reference dimensions. */
  method IdentityMaps(n: nat) returns (s2t: map<int, int>, t2s: map<int, int>)
    ensures forall j :: j in s2t <==> 0 <= j < n
    ensures forall j | j in s2t :: s2t[j] == j
    ensures forall t :: t in t2s <==> 0 <= t < n
    ensures forall t | t in t2s :: t2s[t] == t
  {
    s2t, t2s := map[], map[];
    for i := 0 to n
      invariant forall j :: j in s2t <==> 0 <= j < i
      invariant forall j | j in s2t :: s2t[j] == j
      invariant forall x :: x in t2s <==> 0 <= x < i
      invariant forall x | x in t2s :: t2s[x] == x
    {
      s2t := s2t[i := i];
      t2s := t2s[i := i];
    }
  }

  /**
   * The index maps of `init_sequence`: the kept paths in order, the SAM 2
   * index of each kept frame and back, and the skipped frames.
   */
  method BuildIndexMaps(paths: seq<string>, refDims: Option<(int, int)>, dims: string -> Option<(int, int)>)
    returns (filtered: seq<string>, s2t: map<int, int>, t2s: map<int, int>, skipped: set<int>)
    ensures filtered == KeptPaths(paths, refDims, dims)
    ensures IndexMapsConsistent(s2t, t2s, skipped)
    ensures forall j :: j in s2t <==> 0 <= j < |filtered|
    ensures forall j | j in s2t :: 0 <= s2t[j] < |paths| && filtered[j] == paths[s2t[j]]
    ensures forall t | 0 <= t < |paths| :: (t in t2s <==> Keeps(refDims, dims, paths[t])) && (t in skipped <==> t !in t2s)
    ensures forall t | t in t2s :: 0 <= t < |paths|
    ensures forall t | t in skipped :: 0 <= t < |paths|
    ensures refDims.None? ==> skipped == {} && forall j | j in s2t :: s2t[j] == j
  {
    if refDims.Some? {
      filtered, s2t, t2s, skipped := FilterFrames(paths, refDims.value, dims);
    } else {
      filtered := paths;
      KeptPathsAll(paths, dims);
      s2t, t2s := IdentityMaps(|paths|);
      skipped := {};
    }
  }

  // ---------------------------------------------------------------------
  // Reference frames and annotations
  // ---------------------------------------------------------------------

  /** The SAM 2 indices `add_reference_frames` accepts, in order (repeats included). */
  function Accepted(t2s: map<int, int>, total: int, indices: seq<int>): (r: seq<int>)
    ensures |r| <= |indices|
  {
    if indices == [] then []
    else
      var n := |indices| - 1;
      var init := Accepted(t2s, total, indices[..n]);
      var s := Lookup(t2s, indices[n], indices[n]);
      if 0 <= s < total then init + [s] else init
  }

  /** An index is accepted exactly when some argument translates to it and it is a frame of the video. */
  lemma {:induction false} AcceptedSpec(t2s: map<int, int>, total: int, indices: seq<int>)
    ensures forall s :: s in Accepted(t2s, total, indices) <==>
              0 <= s < total && exists i | 0 <= i < |indices| :: Lookup(t2s, indices[i], indices[i]) == s
  {
    if indices != [] {
      var n := |indices| - 1;
      AcceptedSpec(t2s, total, indices[..n]);
      assert forall i | 0 <= i < n :: indices[..n][i] == indices[i];
    }
  }

  /** `max(existing_ids, default=0) + 1` over the annotations' object ids. */
  function AutoObjId(anns: seq<ReferenceAnnotation>): int
  {
    if anns == [] then 1
    else
      var n := |anns| - 1;
      var prev := AutoObjId(anns[..n]);
      var here := anns[n].objId + 1;
      if n == 0 || here > prev then here else prev
  }

  /** The automatic id is 1 without annotations, else one more than the largest id, so it is new. */
  lemma {:induction false} AutoObjIdSpec(anns: seq<ReferenceAnnotation>)
    ensures anns == [] ==> AutoObjId(anns) == 1
    ensures anns != [] ==> exists i | 0 <= i < |anns| :: AutoObjId(anns) == anns[i].objId + 1
    ensures forall i | 0 <= i < |anns| :: anns[i].objId < AutoObjId(anns)
  {
    if anns != [] {
      var n := |anns| - 1;
      AutoObjIdSpec(anns[..n]);
      assert forall i | 0 <= i < n :: anns[..n][i] == anns[i];
      if n > 0 {
        var i :| 0 <= i < n && AutoObjId(anns[..n]) == anns[..n][i].objId + 1;
        assert AutoObjId(anns) == anns[i].objId + 1 || AutoObjId(anns) == anns[n].objId + 1;
      } else {
        assert AutoObjId(anns) == anns[0].objId + 1;
      }
    }
  }

  /** Annotations numbered 1, 2, … get the next number. */
  lemma {:induction false} AutoObjIdNumbered(anns: seq<ReferenceAnnotation>)
    requires forall i | 0 <= i < |anns| :: anns[i].objId == i + 1
    ensures AutoObjId(anns) == |anns| + 1
  {
    if anns != [] {
      var n := |anns| - 1;
      assert forall i | 0 <= i < n :: anns[..n][i] == anns[i];
      AutoObjIdNumbered(anns[..n]);
    }
  }

  /** `class_aliases.get(class_id, f"Class {class_id}")` */
  function ClassName(aliases: map<int, string>, classId: int): string
  {
    if classId in aliases then aliases[classId] else "Class " + Text.IntToString(classId)
  }

  /** A segment with a non-empty mask becomes a reference annotation. */
  predicate HasMask(seg: Segment)
  {
    seg.mask.Some? && seg.mask.value.Any()
  }

  /**
   * The annotations `add_reference_annotations_from_segments` records on SAM 2
   * frame `s`: one per segment with a non-empty mask, numbered from 1.
   */
  function FromSegments(segs: seq<Segment>, s: int, aliases: map<int, string>): (r: seq<ReferenceAnnotation>)
    ensures |r| <= |segs|
  {
    if segs == [] then []
    else
      var n := |segs| - 1;
      var init := FromSegments(segs[..n], s, aliases);
      var seg := segs[n];
      if HasMask(seg) then
        var cid := seg.classId.GetOr(0);
        init + [ReferenceAnnotation(s, |init| + 1, seg.mask.value, cid, ClassName(aliases, cid))]
      else init
  }

  /** One more segment of the prefix: a masked one adds the next-numbered annotation, the next automatic id. */
  lemma FromSegmentsStep(segs: seq<Segment>, i: int, s: int, aliases: map<int, string>)
    requires 0 <= i < |segs|
    ensures var init := FromSegments(segs[..i], s, aliases);
            var cid := segs[i].classId.GetOr(0);
            && AutoObjId(init) == |init| + 1
            && FromSegments(segs[..i + 1], s, aliases) ==
                 if HasMask(segs[i]) then init + [ReferenceAnnotation(s, AutoObjId(init), segs[i].mask.value, cid, ClassName(aliases, cid))]
                 else init
  {
    var init := FromSegments(segs[..i], s, aliases);
    assert segs[..i + 1][..i] == segs[..i];
    FromSegmentsSpec(segs[..i], s, aliases);
    AutoObjIdNumbered(init);
  }

  /** Every recorded annotation is on frame `s`, numbered by position, and comes from a masked segment. */
  lemma {:induction false} FromSegmentsSpec(segs: seq<Segment>, s: int, aliases: map<int, string>)
    ensures forall k | 0 <= k < |FromSegments(segs, s, aliases)| ::
              var a := FromSegments(segs, s, aliases)[k];
              a.frameIdx == s && a.objId == k + 1 && a.className == ClassName(aliases, a.classId)
    ensures forall k | 0 <= k < |FromSegments(segs, s, aliases)| :: exists i | 0 <= i < |segs| ::
              HasMask(segs[i]) && FromSegments(segs, s, aliases)[k].mask == segs[i].mask.value
    ensures FromSegments(segs, s, aliases) == [] <==> forall i | 0 <= i < |segs| :: !HasMask(segs[i])
  {
    if segs != [] {
      var n := |segs| - 1;
      FromSegmentsSpec(segs[..n], s, aliases);
      assert forall i | 0 <= i < n :: segs[..n][i] == segs[i];
      var r := FromSegments(segs, s, aliases);
      var init := FromSegments(segs[..n], s, aliases);
      forall k | 0 <= k < |r|
        ensures exists i | 0 <= i < |segs| :: HasMask(segs[i]) && r[k].mask == segs[i].mask.value
      {
        if k < |init| {
          assert r[k] == init[k];
          var i :| 0 <= i < n && HasMask(segs[..n][i]) && init[k].mask == segs[..n][i].mask.value;
          assert HasMask(segs[i]) && r[k].mask == segs[i].mask.value;
        } else {
          assert HasMask(segs[n]) && r[k].mask == segs[n].mask.value;
        }
      }
    } else {
      assert FromSegments(segs, s, aliases) == [];
    }
  }

  // ---------------------------------------------------------------------
  // Nearest mapped frame (`_timeline_to_nearest_sam2`)
  // ---------------------------------------------------------------------

  /**
   * Key `t` is the one `_timeline_to_nearest_sam2` settles on: the first
   * key at or after `idx` (before it, when not `preferHigher`), or the last
   * (first) key when there is none on that side.
   */
  predicate IsNearestKey(keys: set<int>, idx: int, preferHigher: bool, t: int)
  {
    && t in keys
    && (preferHigher && t >= idx ==> forall u | u in keys && u >= idx :: t <= u)
    && (preferHigher && t < idx ==> forall u | u in keys :: u <= t)
    && (!preferHigher && t <= idx ==> forall u | u in keys && u <= idx :: u <= t)
    && (!preferHigher && t > idx ==> forall u | u in keys :: t <= u)
  }

  function NearestKey(keys: set<int>, idx: int, preferHigher: bool): (t: int)
    requires keys != {}
    ensures IsNearestKey(keys, idx, preferHigher, t)
    ensures preferHigher && t < idx ==> forall u | u in keys :: u < idx
    ensures !preferHigher && t > idx ==> forall u | u in keys :: u > idx
  {
    var later := set u | u in keys && u >= idx;
    var earlier := set u | u in keys && u <= idx;
    assert forall u | u in keys && u >= idx :: u in later;
    assert forall u | u in keys && u <= idx :: u in earlier;
    if preferHigher then
      if later != {} then SetMin(later) else SetMax(keys)
    else
      if earlier != {} then SetMax(earlier) else SetMin(keys)
  }

  /** Only one key qualifies. */
  lemma NearestKeyUnique(keys: set<int>, idx: int, preferHigher: bool, t: int)
    requires keys != {} && IsNearestKey(keys, idx, preferHigher, t)
    ensures t == NearestKey(keys, idx, preferHigher)
  {
    var m := NearestKey(keys, idx, preferHigher);
    assert t <= m && m <= t;
  }

  /** `_timeline_to_nearest_sam2`: the exact mapping, else the mapping of the nearest key; the identity without any key. */
  function NearestSam2(t2s: map<int, int>, idx: int, preferHigher: bool): int
  {
    if idx in t2s then t2s[idx]
    else if t2s.Keys == {} then idx
    else t2s[NearestKey(t2s.Keys, idx, preferHigher)]
  }

  /** A mapped frame is its own nearest key, so the result is always the mapping of the nearest key. */
  lemma NearestSam2OfKey(t2s: map<int, int>, idx: int, preferHigher: bool)
    requires t2s.Keys != {}
    ensures NearestSam2(t2s, idx, preferHigher) == t2s[NearestKey(t2s.Keys, idx, preferHigher)]
  {
    if idx in t2s {
      NearestKeyUnique(t2s.Keys, idx, preferHigher, idx);
    }
  }

  /** The ascending scan of `_timeline_to_nearest_sam2`: the first key at or after `idx`, else the last. */
  method ScanHigher(mapped: seq<int>, ghost keys: set<int>, idx: int) returns (t: int)
    requires keys != {} && mapped != [] && Increasing(mapped) && forall x :: x in mapped <==> x in keys
    ensures t == NearestKey(keys, idx, true)
  {
    for i := 0 to |mapped|
      invariant forall j | 0 <= j < i :: mapped[j] < idx
    {
      if mapped[i] >= idx {
        assert IsNearestKey(keys, idx, true, mapped[i]) by {
          forall u | u in keys && u >= idx ensures mapped[i] <= u {
            var j :| 0 <= j < |mapped| && mapped[j] == u;
          }
        }
        NearestKeyUnique(keys, idx, true, mapped[i]);
        return mapped[i];
      }
    }
    t := mapped[|mapped| - 1];
    assert IsNearestKey(keys, idx, true, t) by {
      forall u | u in keys ensures u <= t {
        var j :| 0 <= j < |mapped| && mapped[j] == u;
      }
    }
    NearestKeyUnique(keys, idx, true, t);
  }

  /** The descending scan of `_timeline_to_nearest_sam2`: the last key at or before `idx`, else the first. */
  method ScanLower(mapped: seq<int>, ghost keys: set<int>, idx: int) returns (t: int)
    requires keys != {} && mapped != [] && Increasing(mapped) && forall x :: x in mapped <==> x in keys
    ensures t == NearestKey(keys, idx, false)
  {
    var i := |mapped|;
    while i > 0
      invariant 0 <= i <= |mapped|
      invariant forall j | i <= j < |mapped| :: mapped[j] > idx
    {
      i := i - 1;
      if mapped[i] <= idx {
        assert IsNearestKey(keys, idx, false, mapped[i]) by {
          forall u | u in keys && u <= idx ensures u <= mapped[i] {
            var j :| 0 <= j < |mapped| && mapped[j] == u;
          }
        }
        NearestKeyUnique(keys, idx, false, mapped[i]);
        return mapped[i];
      }
    }
    t := mapped[0];
    assert IsNearestKey(keys, idx, false, t) by {
      forall u | u in keys ensures t <= u {
        var j :| 0 <= j < |mapped| && mapped[j] == u;
      }
    }
    NearestKeyUnique(keys, idx, false, t);
  }

  /** `_timeline_to_nearest_sam2`: the exact mapping, else a scan over `sorted(timeline_to_sam2)`. */
  method ScanNearestSam2(t2s: map<int, int>, idx: int, preferHigher: bool) returns (r: int)
    ensures r == NearestSam2(t2s, idx, preferHigher)
  {
    if idx in t2s {
      return t2s[idx];
    }
    var mapped := SortedSet(t2s.Keys);
    if mapped == [] {
      assert forall k | k in t2s :: k in mapped;
      assert t2s.Keys == {};
      return idx;
    }
    assert mapped[0] in t2s.Keys;
    var t;
    if preferHigher {
      t := ScanHigher(mapped, t2s.Keys, idx);
    } else {
      t := ScanLower(mapped, t2s.Keys, idx);
    }
    return t2s[t];
  }

  // ---------------------------------------------------------------------
  // Result triage (`_propagate_range`)
  // ---------------------------------------------------------------------

  /** What the triage reads from the manager: reference frames (SAM 2), the reverse map, the threshold, the skip flag and the predictor's paths. */
  datatype Context = Context(references: set<int>, s2t: map<int, int>, threshold: real, skipFlagged: bool, videoPaths: seq<string>)

  function Timeline(c: Context, y: Yielded): int
  {
    Lookup(c.s2t, y.frameIdx, y.frameIdx)
  }

  predicate IsLow(c: Context, y: Yielded)
  {
    y.confidence < c.threshold
  }

  /** An item whose result is kept: not on a reference frame, and not low while low frames are skipped. */
  predicate IsStored(c: Context, y: Yielded)
  {
    y.frameIdx !in c.references && !(IsLow(c, y) && c.skipFlagged)
  }

  function ResultOf(c: Context, y: Yielded): PropagationResult
  {
    PropagationResult(Timeline(c, y), y.objId, y.mask, y.confidence,
                      if y.frameIdx < |c.videoPaths| then c.videoPaths[y.frameIdx] else "")
  }

  /** The results stored for a stream, in stream order. */
  function Stored(c: Context, ys: seq<Yielded>): (r: seq<PropagationResult>)
    ensures |r| <= |ys|
  {
    if ys == [] then []
    else
      var n := |ys| - 1;
      var init := Stored(c, ys[..n]);
      if IsStored(c, ys[n]) then init + [ResultOf(c, ys[n])] else init
  }

  /** The timeline frames a stream flags: those of low items off reference frames. */
  function LowFrames(c: Context, ys: seq<Yielded>): set<int>
  {
    if ys == [] then {}
    else
      var n := |ys| - 1;
      var init := LowFrames(c, ys[..n]);
      if ys[n].frameIdx !in c.references && IsLow(c, ys[n]) then init + {Timeline(c, ys[n])} else init
  }

  /** The frames that results are for. */
  function FramesOf(rs: seq<PropagationResult>): set<int>
  {
    if rs == [] then {} else FramesOf(rs[..|rs| - 1]) + {rs[|rs| - 1].frameIdx}
  }

  function Get(m: map<int, seq<PropagationResult>>, k: int): seq<PropagationResult>
  {
    if k in m then m[k] else []
  }

  /** The results for frame `k`, in order. */
  function OfFrame(rs: seq<PropagationResult>, k: int): seq<PropagationResult>
  {
    if rs == [] then []
    else
      var n := |rs| - 1;
      if rs[n].frameIdx == k then OfFrame(rs[..n], k) + [rs[n]] else OfFrame(rs[..n], k)
  }

  /** `frame_results[r.frame_idx].append(r)` for each result in turn, creating the list when missing. */
  function AppendResults(m: map<int, seq<PropagationResult>>, rs: seq<PropagationResult>): map<int, seq<PropagationResult>>
  {
    if rs == [] then m
    else
      var n := |rs| - 1;
      var init := AppendResults(m, rs[..n]);
      init[rs[n].frameIdx := Get(init, rs[n].frameIdx) + [rs[n]]]
  }

  /** Stored results come from stored items, and every stored item's result is there: nothing on a reference frame is kept. */
  lemma {:induction false} StoredSpec(c: Context, ys: seq<Yielded>)
    ensures forall k | 0 <= k < |Stored(c, ys)| :: exists i | 0 <= i < |ys| ::
              IsStored(c, ys[i]) && Stored(c, ys)[k] == ResultOf(c, ys[i])
    ensures forall i | 0 <= i < |ys| && IsStored(c, ys[i]) :: ResultOf(c, ys[i]) in Stored(c, ys)
  {
    if ys != [] {
      var n := |ys| - 1;
      StoredSpec(c, ys[..n]);
      assert forall i | 0 <= i < n :: ys[..n][i] == ys[i];
      var r := Stored(c, ys);
      var init := Stored(c, ys[..n]);
      forall k | 0 <= k < |r|
        ensures exists i | 0 <= i < |ys| :: IsStored(c, ys[i]) && r[k] == ResultOf(c, ys[i])
      {
        if k < |init| {
          assert r[k] == init[k];
          var i :| 0 <= i < n && IsStored(c, ys[..n][i]) && init[k] == ResultOf(c, ys[..n][i]);
          assert IsStored(c, ys[i]) && r[k] == ResultOf(c, ys[i]);
        } else {
          assert IsStored(c, ys[n]) && r[k] == ResultOf(c, ys[n]);
        }
      }
      assert forall i | 0 <= i < |ys| && IsStored(c, ys[i]) :: ResultOf(c, ys[i]) in r by {
        forall i | 0 <= i < |ys| && IsStored(c, ys[i]) ensures ResultOf(c, ys[i]) in r {
          if i < n {
            assert ys[..n][i] == ys[i];
            assert ResultOf(c, ys[i]) in init;
          }
        }
      }
    } else {
      assert Stored(c, ys) == [];
    }
  }

  /** A frame is flagged by a stream exactly when some item for it, off the reference frames, is below the threshold. */
  lemma {:induction false} LowFramesSpec(c: Context, ys: seq<Yielded>)
    ensures forall x :: x in LowFrames(c, ys) <==>
              exists i | 0 <= i < |ys| :: ys[i].frameIdx !in c.references && IsLow(c, ys[i]) && Timeline(c, ys[i]) == x
  {
    if ys != [] {
      var n := |ys| - 1;
      LowFramesSpec(c, ys[..n]);
      assert forall i | 0 <= i < n :: ys[..n][i] == ys[i];
    }
  }

  lemma {:induction false} FramesOfSpec(rs: seq<PropagationResult>)
    ensures forall x :: x in FramesOf(rs) <==> exists i | 0 <= i < |rs| :: rs[i].frameIdx == x
  {
    if rs != [] {
      var n := |rs| - 1;
      FramesOfSpec(rs[..n]);
      assert forall i | 0 <= i < n :: rs[..n][i] == rs[i];
    }
  }

  /** After appending, a frame has results exactly when it had some or got some, and they are the old ones followed by the new ones. */
  lemma {:induction false} AppendResultsSpec(m: map<int, seq<PropagationResult>>, rs: seq<PropagationResult>)
    ensures forall k :: k in AppendResults(m, rs) <==> k in m || k in FramesOf(rs)
    ensures forall k :: Get(AppendResults(m, rs), k) == Get(m, k) + OfFrame(rs, k)
  {
    if rs != [] {
      var n := |rs| - 1;
      AppendResultsSpec(m, rs[..n]);
    }
  }

  lemma {:induction false} StoredAppend(c: Context, a: seq<Yielded>, b: seq<Yielded>)
    ensures Stored(c, a + b) == Stored(c, a) + Stored(c, b)
    decreases |b|
  {
    if b == [] {
      assert a + b == a;
    } else {
      var n := |b| - 1;
      assert (a + b)[..|a + b| - 1] == a + b[..n];
      assert (a + b)[|a + b| - 1] == b[n];
      StoredAppend(c, a, b[..n]);
    }
  }

  lemma {:induction false} LowFramesAppend(c: Context, a: seq<Yielded>, b: seq<Yielded>)
    ensures LowFrames(c, a + b) == LowFrames(c, a) + LowFrames(c, b)
    decreases |b|
  {
    if b == [] {
      assert a + b == a;
    } else {
      var n := |b| - 1;
      assert (a + b)[..|a + b| - 1] == a + b[..n];
      assert (a + b)[|a + b| - 1] == b[n];
      LowFramesAppend(c, a, b[..n]);
    }
  }

  lemma {:induction false} FramesOfAppend(a: seq<PropagationResult>, b: seq<PropagationResult>)
    ensures FramesOf(a + b) == FramesOf(a) + FramesOf(b)
    decreases |b|
  {
    if b == [] {
      assert a + b == a;
    } else {
      var n := |b| - 1;
      assert (a + b)[..|a + b| - 1] == a + b[..n];
      assert (a + b)[|a + b| - 1] == b[n];
      FramesOfAppend(a, b[..n]);
    }
  }

  lemma {:induction false} AppendResultsAppend(m: map<int, seq<PropagationResult>>, a: seq<PropagationResult>, b: seq<PropagationResult>)
    ensures AppendResults(AppendResults(m, a), b) == AppendResults(m, a + b)
    decreases |b|
  {
    if b == [] {
      assert a + b == a;
    } else {
      var n := |b| - 1;
      assert (a + b)[..|a + b| - 1] == a + b[..n];
      assert (a + b)[|a + b| - 1] == b[n];
      AppendResultsAppend(m, a, b[..n]);
    }
  }

  /** A frame has a stored result below the threshold. */
  predicate HasLow(rs: seq<PropagationResult>, threshold: real)
  {
    exists i | 0 <= i < |rs| :: rs[i].confidence < threshold
  }

  /**
   * Without skipping, propagation keeps the flagged frames exactly the
   * frames with a stored result below the threshold, the set
   * `set_confidence_threshold` recomputes.
   */
  lemma {:induction false} FlagsMatchResults(c: Context, m: map<int, seq<PropagationResult>>, flagged: set<int>, ys: seq<Yielded>)
    requires !c.skipFlagged
    requires forall k :: k in flagged <==> k in m && HasLow(m[k], c.threshold)
    ensures forall k :: k in flagged + LowFrames(c, ys) <==>
              k in AppendResults(m, Stored(c, ys)) && HasLow(AppendResults(m, Stored(c, ys))[k], c.threshold)
  {
    if ys != [] {
      var n := |ys| - 1;
      var y := ys[n];
      FlagsMatchResults(c, m, flagged, ys[..n]);
      var m0 := AppendResults(m, Stored(c, ys[..n]));
      if IsStored(c, y) {
        var res := ResultOf(c, y);
        var rs := Stored(c, ys[..n]) + [res];
        assert rs[..|rs| - 1] == Stored(c, ys[..n]);
        var m1 := AppendResults(m, rs);
        assert m1 == m0[res.frameIdx := Get(m0, res.frameIdx) + [res]];
        forall k ensures k in m1 && HasLow(m1[k], c.threshold) <==> (k in m0 && HasLow(m0[k], c.threshold)) || (k == res.frameIdx && IsLow(c, y))
        {
          if k == res.frameIdx {
            var old_ := Get(m0, k);
            assert m1[k] == old_ + [res];
            if HasLow(m1[k], c.threshold) {
              var i :| 0 <= i < |m1[k]| && m1[k][i].confidence < c.threshold;
              if i < |old_| {
                assert old_[i] == m1[k][i];
              }
            }
            if k in m0 && HasLow(m0[k], c.threshold) {
              var i :| 0 <= i < |m0[k]| && m0[k][i].confidence < c.threshold;
              assert m1[k][i] == m0[k][i];
            }
            if IsLow(c, y) {
              assert m1[k][|old_|] == res;
            }
          }
        }
      }
    }
  }

  /** One more item extends the stored results and the flagged frames by that item's share. */
  lemma StoredSnoc(c: Context, ys: seq<Yielded>, y: Yielded)
    ensures Stored(c, ys + [y]) == Stored(c, ys) + (if IsStored(c, y) then [ResultOf(c, y)] else [])
    ensures LowFrames(c, ys + [y]) == LowFrames(c, ys) + (if y.frameIdx !in c.references && IsLow(c, y) then {Timeline(c, y)} else {})
  {
    assert (ys + [y])[..|ys|] == ys;
  }

  /** One more result is appended to its frame's list and adds its frame. */
  lemma ResultsSnoc(m: map<int, seq<PropagationResult>>, rs: seq<PropagationResult>, r: PropagationResult)
    ensures AppendResults(m, rs + [r]) == AppendResults(m, rs)[r.frameIdx := Get(AppendResults(m, rs), r.frameIdx) + [r]]
    ensures FramesOf(rs + [r]) == FramesOf(rs) + {r.frameIdx}
  {
    assert (rs + [r])[..|rs|] == rs;
  }

  /** A run of the predictor: start frame, end frame and direction, in SAM 2 indices. */
  datatype Run = Run(start: int, end: int, reverse: bool)

  predicate InRun(y: Yielded, end: int, reverse: bool)
  {
    if reverse then y.frameIdx >= end else y.frameIdx <= end
  }

  /** The position of the first item past the end frame (the stream's length if none is). */
  function CutAt(ys: seq<Yielded>, end: int, reverse: bool): (r: nat)
    ensures r <= |ys|
    ensures forall k | 0 <= k < r :: InRun(ys[k], end, reverse)
    ensures r < |ys| ==> !InRun(ys[r], end, reverse)
  {
    if ys == [] || !InRun(ys[0], end, reverse) then 0
    else
      var r := CutAt(ys[1..], end, reverse);
      assert forall k | 1 <= k < r + 1 :: ys[k] == ys[1..][k - 1];
      r + 1
  }

  /** The cut is the first position whose item is past the end frame. */
  lemma CutAtIs(ys: seq<Yielded>, end: int, reverse: bool, i: nat)
    requires i <= |ys| && forall k | 0 <= k < i :: InRun(ys[k], end, reverse)
    requires i < |ys| ==> !InRun(ys[i], end, reverse)
    ensures CutAt(ys, end, reverse) == i
  {
  }

  /** The items `_propagate_range` processes: none when the run is empty, else the stream up to the end frame. */
  function RunItems(run: Run, stream: seq<Yielded>): seq<Yielded>
  {
    var total := if run.reverse then run.start - run.end else run.end - run.start;
    if total <= 0 then [] else stream[..CutAt(stream, run.end, run.reverse)]
  }

  /** The items of all runs, in order; `video` is the predictor's stream for a start frame and direction. */
  function PlanItems(plan: seq<Run>, video: (int, bool) -> seq<Yielded>): seq<Yielded>
  {
    if plan == [] then []
    else
      var n := |plan| - 1;
      PlanItems(plan[..n], video) + RunItems(plan[n], video(plan[n].start, plan[n].reverse))
  }

  lemma PlanItemsOne(run: Run, video: (int, bool) -> seq<Yielded>)
    ensures PlanItems([run], video) == RunItems(run, video(run.start, run.reverse))
  {
    assert [run][..0] == [];
  }

  lemma PlanItemsTwo(r1: Run, r2: Run, video: (int, bool) -> seq<Yielded>)
    ensures PlanItems([r1, r2], video) == RunItems(r1, video(r1.start, r1.reverse)) + RunItems(r2, video(r2.start, r2.reverse))
  {
    assert [r1, r2][..1] == [r1];
    PlanItemsOne(r1, video);
  }

  /** Two triage runs one after the other store, record and flag what one run over both streams would. */
  lemma ComposeRuns(c: Context, ys1: seq<Yielded>, ys2: seq<Yielded>,
                    m0: map<int, seq<PropagationResult>>, p0: set<int>, f0: set<int>,
                    o1: seq<PropagationResult>, m1: map<int, seq<PropagationResult>>, p1: set<int>, f1: set<int>,
                    o2: seq<PropagationResult>, m2: map<int, seq<PropagationResult>>, p2: set<int>, f2: set<int>)
    requires o1 == Stored(c, ys1) && m1 == AppendResults(m0, o1) && p1 == p0 + FramesOf(o1) && f1 == f0 + LowFrames(c, ys1)
    requires o2 == Stored(c, ys2) && m2 == AppendResults(m1, o2) && p2 == p1 + FramesOf(o2) && f2 == f1 + LowFrames(c, ys2)
    ensures o1 + o2 == Stored(c, ys1 + ys2) && m2 == AppendResults(m0, o1 + o2)
    ensures p2 == p0 + FramesOf(o1 + o2) && f2 == f0 + LowFrames(c, ys1 + ys2)
  {
    StoredAppend(c, ys1, ys2);
    LowFramesAppend(c, ys1, ys2);
    FramesOfAppend(o1, o2);
    AppendResultsAppend(m0, o1, o2);
  }

  /**
   * The runs `propagate` makes for a direction, given the first and last
   * reference frame (0 without one), the frame count and the translated
   * range ends.
   */
  function Plan(direction: Direction, minRef: int, maxRef: int, total: int, start: Option<int>, end: Option<int>): (r: seq<Run>)
    ensures 1 <= |r| <= 2
    ensures |r| == 2 ==> direction == Bidirectional && r[1] == Run(minRef, start.GetOr(0), true) && minRef > start.GetOr(0)
    ensures direction == Forward ==> r == [Run(start.GetOr(minRef), end.GetOr(total - 1), false)]
    ensures direction == Backward ==> r == [Run(end.GetOr(maxRef), start.GetOr(0), true)]
    ensures direction == Bidirectional ==> r[0] == Run(minRef, end.GetOr(total - 1), false)
  {
    match direction
    case Forward => [Run(start.GetOr(minRef), end.GetOr(total - 1), false)]
    case Backward => [Run(end.GetOr(maxRef), start.GetOr(0), true)]
    case Bidirectional =>
      [Run(minRef, end.GetOr(total - 1), false)]
      + (if minRef > start.GetOr(0) then [Run(minRef, start.GetOr(0), true)] else [])
  }

  /**
   * Without an explicit range every direction leaves the reference frames
   * toward the ends of the video: forward from the first reference to the
   * last frame, backward from the last reference to frame 0, and both ways
   * from the first reference, the backward half only when there is room.
   */
  lemma PlanFromReferences(direction: Direction, minRef: int, maxRef: int, total: int)
    ensures var r := Plan(direction, minRef, maxRef, total, None, None);
            && (forall k | 0 <= k < |r| :: !r[k].reverse ==> r[k].end == total - 1)
            && (forall k | 0 <= k < |r| :: r[k].reverse ==> r[k].end == 0)
            && (direction != Backward ==> forall k | 0 <= k < |r| :: r[k].start == minRef)
            && (direction == Backward ==> r[0].start == maxRef)
            && (direction == Bidirectional ==> (|r| == 2 <==> minRef > 0))
  {
  }

  /** The loop's state after the items `done`: what triaging them produced from `m0`, `p0` and `f0`. */
  predicate Triaged(c: Context, m0: map<int, seq<PropagationResult>>, p0: set<int>, f0: set<int>, done: seq<Yielded>,
                    out: seq<PropagationResult>, m: map<int, seq<PropagationResult>>, p: set<int>, f: set<int>)
  {
    && out == Stored(c, done)
    && m == AppendResults(m0, out)
    && p == p0 + FramesOf(out)
    && f == f0 + LowFrames(c, done)
  }

  /**
   * The body of the `_propagate_range` loop for one item in range: nothing
   * on a reference frame; a low item under `skipFlagged` only flags its
   * frame; any other is appended to its frame's results, marks the frame
   * propagated, flags it when low and is returned.
   */
  method TriageItem(c: Context, y: Yielded, m: map<int, seq<PropagationResult>>, p: set<int>, f: set<int>)
    returns (stored: Option<PropagationResult>, m': map<int, seq<PropagationResult>>, p': set<int>, f': set<int>)
    ensures stored == if IsStored(c, y) then Some(ResultOf(c, y)) else None
    ensures m' == if stored.Some? then m[stored.value.frameIdx := Get(m, stored.value.frameIdx) + [stored.value]] else m
    ensures p' == p + (if stored.Some? then {stored.value.frameIdx} else {})
    ensures f' == f + (if y.frameIdx !in c.references && IsLow(c, y) then {Timeline(c, y)} else {})
  {
    stored, m', p', f' := None, m, p, f;
    if y.frameIdx in c.references {
      return;
    }
    var tl := Lookup(c.s2t, y.frameIdx, y.frameIdx);
    var isFlagged := y.confidence < c.threshold;
    if isFlagged && c.skipFlagged {
      f' := f + {tl};
      return;
    }
    var path := if y.frameIdx < |c.videoPaths| then c.videoPaths[y.frameIdx] else "";
    var result := PropagationResult(tl, y.objId, y.mask, y.confidence, path);
    var prior := if tl in m then m[tl] else [];
    m' := m[tl := prior + [result]];
    p' := p + {tl};
    if isFlagged {
      f' := f + {tl};
    }
    stored := Some(result);
  }

  /** One triaged item extends the loop's state. */
  lemma TriagedSnoc(c: Context, m0: map<int, seq<PropagationResult>>, p0: set<int>, f0: set<int>, done: seq<Yielded>,
                    out: seq<PropagationResult>, m: map<int, seq<PropagationResult>>, p: set<int>, f: set<int>,
                    y: Yielded, stored: Option<PropagationResult>,
                    m': map<int, seq<PropagationResult>>, p': set<int>, f': set<int>)
    requires Triaged(c, m0, p0, f0, done, out, m, p, f)
    requires stored == if IsStored(c, y) then Some(ResultOf(c, y)) else None
    requires m' == if stored.Some? then m[stored.value.frameIdx := Get(m, stored.value.frameIdx) + [stored.value]] else m
    requires p' == p + (if stored.Some? then {stored.value.frameIdx} else {})
    requires f' == f + (if y.frameIdx !in c.references && IsLow(c, y) then {Timeline(c, y)} else {})
    ensures Triaged(c, m0, p0, f0, done + [y], out + (if stored.Some? then [stored.value] else []), m', p', f')
  {
    StoredSnoc(c, done, y);
    if stored.Some? {
      ResultsSnoc(m0, out, stored.value);
    } else {
      assert out + [] == out;
    }
  }

  /**
   * The loop of `_propagate_range` on the manager's results `m`,
   * propagated frames `p` and flagged frames `f`: it stops at the first item
   * past the end frame, and at the first item in range when cancelled, and
   * triages every item before that.
   */
  method TriageStream(c: Context, stream: seq<Yielded>, end: int, reverse: bool, cancel: bool,
                      m0: map<int, seq<PropagationResult>>, p0: set<int>, f0: set<int>)
    returns (out: seq<PropagationResult>, m: map<int, seq<PropagationResult>>, p: set<int>, f: set<int>)
    ensures var ys := if cancel then [] else stream[..CutAt(stream, end, reverse)];
            && out == Stored(c, ys)
            && m == AppendResults(m0, out)
            && p == p0 + FramesOf(out)
            && f == f0 + LowFrames(c, ys)
  {
    out, m, p, f := [], m0, p0, f0;
    ghost var done: seq<Yielded> := [];
    var i := 0;
    while i < |stream|
      invariant 0 <= i <= |stream| && done == stream[..i]
      invariant forall k | 0 <= k < i :: InRun(stream[k], end, reverse)
      invariant cancel ==> i == 0
      invariant Triaged(c, m0, p0, f0, done, out, m, p, f)
    {
      var y := stream[i];
      if !InRun(y, end, reverse) {
        break;
      }
      if cancel {
        return;
      }
      var stored, m', p', f' := TriageItem(c, y, m, p, f);
      TriagedSnoc(c, m0, p0, f0, done, out, m, p, f, y, stored, m', p', f');
      out := out + if stored.Some? then [stored.value] else [];
      m, p, f := m', p', f';
      assert stream[..i + 1] == done + [y];
      done := done + [y];
      i := i + 1;
    }
    CutAtIs(stream, end, reverse, i);
  }

  // ---------------------------------------------------------------------
  // The manager
  // ---------------------------------------------------------------------

  class PropagationManager {
    var isInitialized: bool
    var totalFrames: int
    /** SAM 2 indices of the reference frames. */
    var referenceFrames: set<int>
    var referenceAnnotations: seq<ReferenceAnnotation>
    /** Timeline indices. */
    var propagatedFrames: set<int>
    var flaggedFrames: set<int>
    var frameResults: map<int, seq<PropagationResult>>
    var threshold: real
    var sam2ToTimeline: map<int, int>
    var timelineToSam2: map<int, int>
    var skippedFrames: set<int>
    var referenceDimensions: Option<(int, int)>
    var cancelRequested: bool

    ghost predicate Valid()
      reads this
    {
      && IndexMapsConsistent(sam2ToTimeline, timelineToSam2, skippedFrames)
      && forall f | f in referenceFrames :: f >= 0
    }

    /** A fresh `PropagationState` and no cancellation. */
    constructor()
      ensures Valid()
      ensures !isInitialized && totalFrames == 0 && referenceFrames == {} && referenceAnnotations == []
      ensures propagatedFrames == {} && flaggedFrames == {} && frameResults == map[] && threshold == 0.99
      ensures sam2ToTimeline == map[] && timelineToSam2 == map[] && skippedFrames == {}
      ensures referenceDimensions.None? && !cancelRequested
    {
      isInitialized, totalFrames, referenceFrames, referenceAnnotations := false, 0, {}, [];
      propagatedFrames, flaggedFrames, frameResults, threshold := {}, {}, map[], 0.99;
      sam2ToTimeline, timelineToSam2, skippedFrames := map[], map[], {};
      referenceDimensions, cancelRequested := None, false;
    }

    /** `cleanup`: back to a fresh state (the predictor's own cleanup is not modelled). */
    method Cleanup()
      modifies this
      ensures Valid()
      ensures !isInitialized && totalFrames == 0 && referenceFrames == {} && referenceAnnotations == []
      ensures propagatedFrames == {} && flaggedFrames == {} && frameResults == map[] && threshold == 0.99
      ensures sam2ToTimeline == map[] && timelineToSam2 == map[] && skippedFrames == {}
      ensures referenceDimensions.None? && !cancelRequested
    {
      isInitialized, totalFrames, referenceFrames, referenceAnnotations,
        propagatedFrames, flaggedFrames, frameResults, threshold,
        sam2ToTimeline, timelineToSam2, skippedFrames, referenceDimensions, cancelRequested
        := false, 0, {}, [], {}, {}, map[], 0.99, map[], map[], {}, None, false;
    }

    /**
     * `init_sequence`.  `modelAvailable` says the main window has a model
     * with a video predictor.  Fails, changing nothing, without one, when no
     * frame is kept or when the predictor refuses the kept paths; otherwise
     * the state is fresh except for the frame count, the maps, the skipped
     * frames and the reference dimensions.
     */
    method InitSequence(paths: seq<string>, refDims: Option<(int, int)>, dims: string -> Option<(int, int)>,
                        modelAvailable: bool, videoInit: seq<string> -> Option<int>)
      returns (ok: bool)
      requires Valid()
      modifies this
      ensures Valid()
      ensures ok <==> modelAvailable && KeptPaths(paths, refDims, dims) != [] && videoInit(KeptPaths(paths, refDims, dims)).Some?
      ensures !ok ==> unchanged(this)
      ensures ok ==>
                && isInitialized && videoInit(KeptPaths(paths, refDims, dims)) == Some(totalFrames)
                && referenceFrames == {} && referenceAnnotations == [] && propagatedFrames == {} && flaggedFrames == {}
                && frameResults == map[] && threshold == 0.99 && referenceDimensions == refDims
      ensures cancelRequested == old(cancelRequested)
      ensures ok ==> forall t | 0 <= t < |paths| ::
                (t in timelineToSam2 <==> Keeps(refDims, dims, paths[t])) && (t in skippedFrames <==> t !in timelineToSam2)
      ensures ok ==> forall t | t in timelineToSam2 || t in skippedFrames :: 0 <= t < |paths|
      ensures ok ==> forall j :: j in sam2ToTimeline <==> 0 <= j < |KeptPaths(paths, refDims, dims)|
    {
      if !modelAvailable {
        return false;
      }
      var filtered, s2t, t2s, skipped := BuildIndexMaps(paths, refDims, dims);
      if filtered == [] {
        return false;
      }
      var count := videoInit(filtered);
      if count.None? {
        return false;
      }
      Reinitialize(count.value, s2t, t2s, skipped, refDims);
      ok := true;
    }

    /** `self.state = PropagationState(is_initialized=True, …)` with the new frame count and maps. */
    method Reinitialize(count: int, s2t: map<int, int>, t2s: map<int, int>, skipped: set<int>, refDims: Option<(int, int)>)
      requires IndexMapsConsistent(s2t, t2s, skipped)
      modifies this
      ensures Valid()
      ensures isInitialized && totalFrames == count && referenceFrames == {} && referenceAnnotations == []
      ensures propagatedFrames == {} && flaggedFrames == {} && frameResults == map[] && threshold == 0.99
      ensures sam2ToTimeline == s2t && timelineToSam2 == t2s && skippedFrames == skipped
      ensures referenceDimensions == refDims && cancelRequested == old(cancelRequested)
    {
      isInitialized, totalFrames, referenceFrames, referenceAnnotations := true, count, {}, [];
      propagatedFrames, flaggedFrames, frameResults, threshold := {}, {}, map[], 0.99;
      sam2ToTimeline, timelineToSam2, skippedFrames := s2t, t2s, skipped;
      referenceDimensions := refDims;
    }

    /** `primary_reference_idx`: the lowest reference frame, or -1. */
    function PrimaryReferenceIdx(): (r: int)
      requires Valid()
      reads this
      ensures r == -1 <==> referenceFrames == {}
      ensures r != -1 ==> IsMinOf(r, referenceFrames)
    {
      if referenceFrames == {} then -1 else SetMin(referenceFrames)
    }

    /** `add_reference_frame`: adds the translated frame when initialised and it is a frame of the video. */
    method AddReferenceFrame(frameIdx: int) returns (ok: bool)
      requires Valid()
      modifies this`referenceFrames
      ensures Valid()
      ensures ok <==> isInitialized && 0 <= Lookup(timelineToSam2, frameIdx, frameIdx) < totalFrames
      ensures referenceFrames == if ok then old(referenceFrames) + {Lookup(timelineToSam2, frameIdx, frameIdx)} else old(referenceFrames)
    {
      if !isInitialized {
        return false;
      }
      var s := Lookup(timelineToSam2, frameIdx, frameIdx);
      if s < 0 || s >= totalFrames {
        return false;
      }
      referenceFrames := referenceFrames + {s};
      ok := true;
    }

    /** `add_reference_frames`: adds every acceptable translated frame and counts the accepted arguments. */
    method AddReferenceFrames(indices: seq<int>) returns (count: int)
      requires Valid()
      modifies this`referenceFrames
      ensures Valid()
      ensures !isInitialized ==> count == 0 && referenceFrames == old(referenceFrames)
      ensures isInitialized ==>
                var acc := Accepted(timelineToSam2, totalFrames, indices);
                count == |acc| && forall s :: s in referenceFrames <==> s in old(referenceFrames) || s in acc
    {
      if !isInitialized {
        return 0;
      }
      count := 0;
      for i := 0 to |indices|
        invariant Valid()
        invariant count == |Accepted(timelineToSam2, totalFrames, indices[..i])|
        invariant forall s :: s in referenceFrames <==> s in old(referenceFrames) || s in Accepted(timelineToSam2, totalFrames, indices[..i])
      {
        assert indices[..i + 1][..i] == indices[..i];
        var s := Lookup(timelineToSam2, indices[i], indices[i]);
        if 0 <= s < totalFrames {
          referenceFrames := referenceFrames + {s};
          count := count + 1;
        }
      }
      assert indices[..|indices|] == indices;
    }

    /** `clear_reference_frames`: no reference frames and no annotations. */
    method ClearReferenceFrames()
      requires Valid()
      modifies this`referenceFrames, this`referenceAnnotations
      ensures Valid() && referenceFrames == {} && referenceAnnotations == []
    {
      referenceFrames := {};
      ClearReferenceAnnotations();
    }

    /** `clear_reference_annotations` (the predictor's reset is not modelled). */
    method ClearReferenceAnnotations()
      requires Valid()
      modifies this`referenceAnnotations
      ensures Valid() && referenceAnnotations == []
    {
      referenceAnnotations := [];
    }

    /** `clear_propagation_results`: no results, no propagated and no flagged frames. */
    method ClearPropagationResults()
      requires Valid()
      modifies this`frameResults, this`propagatedFrames, this`flaggedFrames
      ensures Valid() && frameResults == map[] && propagatedFrames == {} && flaggedFrames == {}
    {
      frameResults := map[];
      propagatedFrames := {};
      flaggedFrames := {};
    }

    /**
     * `add_reference_annotation`: -1 when not initialised or the frame is
     * not mapped (skipped or unknown); otherwise the frame becomes a
     * reference and the annotation, on the SAM 2 frame and with the given
     * or the automatic object id, is appended and its id returned.
     */
    method AddReferenceAnnotation(frameIdx: int, mask: Mask, classId: int, className: string, objId: Option<int>)
      returns (r: int)
      requires Valid()
      modifies this`referenceFrames, this`referenceAnnotations
      ensures Valid()
      ensures !isInitialized || frameIdx !in timelineToSam2 ==>
                r == -1 && referenceFrames == old(referenceFrames) && referenceAnnotations == old(referenceAnnotations)
      ensures isInitialized && frameIdx in timelineToSam2 ==>
                var s := timelineToSam2[frameIdx];
                && r == objId.GetOr(AutoObjId(old(referenceAnnotations)))
                && referenceFrames == old(referenceFrames) + {s}
                && referenceAnnotations == old(referenceAnnotations) + [ReferenceAnnotation(s, r, mask, classId, className)]
    {
      if !isInitialized {
        return -1;
      }
      if frameIdx !in timelineToSam2 {
        return -1;
      }
      var s := timelineToSam2[frameIdx];
      referenceFrames := referenceFrames + {s};
      r := if objId.Some? then objId.value else AutoObjId(referenceAnnotations);
      referenceAnnotations := referenceAnnotations + [ReferenceAnnotation(s, r, mask, classId, className)];
    }

    /**
     * `add_reference_annotations_from_segments`: replaces the annotations
     * and clears the results, then records one annotation per segment with
     * a non-empty mask, numbered from 1, and counts them.  When the frame is
     * not mapped nothing is recorded.
     */
    method AddReferenceAnnotationsFromSegments(frameIdx: int, segs: seq<Segment>, aliases: map<int, string>)
      returns (count: int)
      requires Valid()
      modifies this`referenceFrames, this`referenceAnnotations, this`frameResults, this`propagatedFrames, this`flaggedFrames
      ensures Valid()
      ensures !isInitialized ==> count == 0 && unchanged(this)
      ensures isInitialized ==> frameResults == map[] && propagatedFrames == {} && flaggedFrames == {}
      ensures isInitialized && frameIdx !in timelineToSam2 ==>
                count == 0 && referenceAnnotations == [] && referenceFrames == old(referenceFrames)
      ensures isInitialized && frameIdx in timelineToSam2 ==>
                var s := timelineToSam2[frameIdx];
                && referenceAnnotations == FromSegments(segs, s, aliases)
                && count == |referenceAnnotations|
                && referenceFrames == old(referenceFrames) + (if referenceAnnotations == [] then {} else {s})
    {
      if !isInitialized {
        return 0;
      }
      referenceAnnotations := [];
      ClearPropagationResults();
      count := RecordSegments(frameIdx, segs, aliases);
    }

    /** The loop of `add_reference_annotations_from_segments`, from no annotations. */
    method RecordSegments(frameIdx: int, segs: seq<Segment>, aliases: map<int, string>) returns (count: int)
      requires Valid() && isInitialized && referenceAnnotations == []
      modifies this`referenceFrames, this`referenceAnnotations
      ensures Valid()
      ensures frameIdx !in timelineToSam2 ==>
                count == 0 && referenceAnnotations == [] && referenceFrames == old(referenceFrames)
      ensures frameIdx in timelineToSam2 ==>
                var s := timelineToSam2[frameIdx];
                && referenceAnnotations == FromSegments(segs, s, aliases)
                && count == |referenceAnnotations|
                && referenceFrames == old(referenceFrames) + (if referenceAnnotations == [] then {} else {s})
    {
      count := 0;
      ghost var mapped := frameIdx in timelineToSam2;
      ghost var s := Lookup(timelineToSam2, frameIdx, frameIdx);
      for i := 0 to |segs|
        invariant Valid() && isInitialized
        invariant !mapped ==> count == 0 && referenceAnnotations == [] && referenceFrames == old(referenceFrames)
        invariant mapped ==>
                    && referenceAnnotations == FromSegments(segs[..i], s, aliases)
                    && count == |referenceAnnotations|
                    && referenceFrames == old(referenceFrames) + (if referenceAnnotations == [] then {} else {s})
      {
        FromSegmentsStep(segs, i, s, aliases);
        var seg := segs[i];
        if seg.mask.Some? && seg.mask.value.Any() {
          var cid := seg.classId.GetOr(0);
          var id := AddReferenceAnnotation(frameIdx, seg.mask.value, cid, ClassName(aliases, cid), None);
          if id > 0 {
            count := count + 1;
          }
        }
      }
      assert segs[..|segs|] == segs;
    }

    /** `_timeline_to_nearest_sam2` on the manager's map. */
    method TimelineToNearestSam2(idx: int, preferHigher: bool) returns (r: int)
      ensures r == NearestSam2(timelineToSam2, idx, preferHigher)
    {
      r := ScanNearestSam2(timelineToSam2, idx, preferHigher);
    }

    /** `request_cancel` */
    method RequestCancel()
      modifies this`cancelRequested
      ensures cancelRequested
    {
      cancelRequested := true;
    }

    /** The triage context of the current state. */
    function Ctx(skipFlagged: bool, videoPaths: seq<string>): Context
      reads this`referenceFrames, this`sam2ToTimeline, this`threshold
    {
      Context(referenceFrames, sam2ToTimeline, threshold, skipFlagged, videoPaths)
    }

    /**
     * `_propagate_range` over the predictor's stream for the run: the items
     * up to the end frame (none for an empty run or after a cancellation
     * request) are triaged and the stored results returned in order.
     */
    method PropagateRange(start: int, end: int, reverse: bool, stream: seq<Yielded>, skipFlagged: bool, videoPaths: seq<string>)
      returns (out: seq<PropagationResult>)
      requires Valid()
      modifies this`frameResults, this`propagatedFrames, this`flaggedFrames
      ensures Valid()
      ensures var ys := if cancelRequested then [] else RunItems(Run(start, end, reverse), stream);
              var c := Ctx(skipFlagged, videoPaths);
              && out == Stored(c, ys)
              && frameResults == AppendResults(old(frameResults), out)
              && propagatedFrames == old(propagatedFrames) + FramesOf(out)
              && flaggedFrames == old(flaggedFrames) + LowFrames(c, ys)
    {
      var total := if reverse then start - end else end - start;
      if total <= 0 {
        return [];
      }
      var m, p, f;
      out, m, p, f := TriageStream(Ctx(skipFlagged, videoPaths), stream, end, reverse, cancelRequested,
                                   frameResults, propagatedFrames, flaggedFrames);
      frameResults, propagatedFrames, flaggedFrames := m, p, f;
    }

    /** The runs `propagate` makes from the current state. */
    function PlanFor(direction: Direction, rangeStart: Option<int>, rangeEnd: Option<int>): seq<Run>
      reads this`referenceFrames, this`timelineToSam2, this`totalFrames
    {
      var minRef := if referenceFrames == {} then 0 else SetMin(referenceFrames);
      var maxRef := if referenceFrames == {} then 0 else SetMax(referenceFrames);
      var s := if rangeStart.Some? then Some(NearestSam2(timelineToSam2, rangeStart.value, true)) else None;
      var e := if rangeEnd.Some? then Some(NearestSam2(timelineToSam2, rangeEnd.value, false)) else None;
      Plan(direction, minRef, maxRef, totalFrames, s, e)
    }

    /**
     * `propagate`: nothing unless initialised with reference annotations and
     * a model; otherwise the cancellation flag is cleared and the runs of
     * the direction are triaged in order, as one stream would be.
     */
    method Propagate(direction: Direction, rangeStart: Option<int>, rangeEnd: Option<int>, skipFlagged: bool,
                     modelAvailable: bool, video: (int, bool) -> seq<Yielded>, videoPaths: seq<string>)
      returns (out: seq<PropagationResult>)
      requires Valid()
      modifies this`frameResults, this`propagatedFrames, this`flaggedFrames, this`cancelRequested
      ensures Valid()
      ensures !(isInitialized && referenceAnnotations != [] && modelAvailable) ==>
                && out == [] && cancelRequested == old(cancelRequested) && frameResults == old(frameResults)
                && propagatedFrames == old(propagatedFrames) && flaggedFrames == old(flaggedFrames)
      ensures isInitialized && referenceAnnotations != [] && modelAvailable ==>
                var ys := PlanItems(PlanFor(direction, rangeStart, rangeEnd), video);
                var c := Ctx(skipFlagged, videoPaths);
                && !cancelRequested
                && out == Stored(c, ys)
                && frameResults == AppendResults(old(frameResults), out)
                && propagatedFrames == old(propagatedFrames) + FramesOf(out)
                && flaggedFrames == old(flaggedFrames) + LowFrames(c, ys)
    {
      out := [];
      if !isInitialized || referenceAnnotations == [] || !modelAvailable {
        return;
      }
      out := PropagatePlan(direction, rangeStart, rangeEnd, skipFlagged, video, videoPaths);
    }

    /** The part of `propagate` after its checks: clears the cancellation flag and triages the runs. */
    method PropagatePlan(direction: Direction, rangeStart: Option<int>, rangeEnd: Option<int>, skipFlagged: bool,
                         video: (int, bool) -> seq<Yielded>, videoPaths: seq<string>)
      returns (out: seq<PropagationResult>)
      requires Valid()
      modifies this`frameResults, this`propagatedFrames, this`flaggedFrames, this`cancelRequested
      ensures Valid()
      ensures var ys := PlanItems(PlanFor(direction, rangeStart, rangeEnd), video);
              var c := Ctx(skipFlagged, videoPaths);
              && !cancelRequested
              && out == Stored(c, ys)
              && frameResults == AppendResults(old(frameResults), out)
              && propagatedFrames == old(propagatedFrames) + FramesOf(out)
              && flaggedFrames == old(flaggedFrames) + LowFrames(c, ys)
    {
      cancelRequested := false;
      var minRef, maxRef, s, e := PlanBounds(rangeStart, rangeEnd);
      assert PlanFor(direction, rangeStart, rangeEnd) == Plan(direction, minRef, maxRef, totalFrames, s, e);
      out := RunPlan(direction, minRef, maxRef, s, e, video, skipFlagged, videoPaths);
    }

    /** The first and last reference frames and the range ends translated to SAM 2 frames, as `propagate` finds them. */
    method PlanBounds(rangeStart: Option<int>, rangeEnd: Option<int>) returns (minRef: int, maxRef: int, s: Option<int>, e: Option<int>)
      ensures minRef == (if referenceFrames == {} then 0 else SetMin(referenceFrames))
      ensures maxRef == (if referenceFrames == {} then 0 else SetMax(referenceFrames))
      ensures s == if rangeStart.Some? then Some(NearestSam2(timelineToSam2, rangeStart.value, true)) else None
      ensures e == if rangeEnd.Some? then Some(NearestSam2(timelineToSam2, rangeEnd.value, false)) else None
    {
      minRef := if referenceFrames == {} then 0 else SetMin(referenceFrames);
      maxRef := if referenceFrames == {} then 0 else SetMax(referenceFrames);
      s := None;
      if rangeStart.Some? {
        var v := TimelineToNearestSam2(rangeStart.value, true);
        s := Some(v);
      }
      e := None;
      if rangeEnd.Some? {
        var v := TimelineToNearestSam2(rangeEnd.value, false);
        e := Some(v);
      }
    }

    /** The runs of `propagate` once the first and last reference and the range ends are known. */
    method RunPlan(direction: Direction, minRef: int, maxRef: int, s: Option<int>, e: Option<int>,
                   video: (int, bool) -> seq<Yielded>, skipFlagged: bool, videoPaths: seq<string>)
      returns (out: seq<PropagationResult>)
      requires Valid() && !cancelRequested
      modifies this`frameResults, this`propagatedFrames, this`flaggedFrames
      ensures Valid()
      ensures var ys := PlanItems(Plan(direction, minRef, maxRef, totalFrames, s, e), video);
              var c := Ctx(skipFlagged, videoPaths);
              && out == Stored(c, ys)
              && frameResults == AppendResults(old(frameResults), out)
              && propagatedFrames == old(propagatedFrames) + FramesOf(out)
              && flaggedFrames == old(flaggedFrames) + LowFrames(c, ys)
    {
      match direction {
        case Forward =>
          out := RunForward(minRef, maxRef, s, e, video, skipFlagged, videoPaths);
        case Backward =>
          out := RunBackward(minRef, maxRef, s, e, video, skipFlagged, videoPaths);
        case Bidirectional =>
          out := RunBidirectional(minRef, maxRef, s, e, video, skipFlagged, videoPaths);
      }
    }

    /** The forward run of `propagate`: from the range start, else the first reference, to the range end, else the last frame. */
    method RunForward(minRef: int, maxRef: int, s: Option<int>, e: Option<int>,
                      video: (int, bool) -> seq<Yielded>, skipFlagged: bool, videoPaths: seq<string>)
      returns (out: seq<PropagationResult>)
      requires Valid() && !cancelRequested
      modifies this`frameResults, this`propagatedFrames, this`flaggedFrames
      ensures Valid()
      ensures var ys := PlanItems(Plan(Forward, minRef, maxRef, totalFrames, s, e), video);
              var c := Ctx(skipFlagged, videoPaths);
              && out == Stored(c, ys)
              && frameResults == AppendResults(old(frameResults), out)
              && propagatedFrames == old(propagatedFrames) + FramesOf(out)
              && flaggedFrames == old(flaggedFrames) + LowFrames(c, ys)
    {
      var start := s.GetOr(minRef);
      var end := e.GetOr(totalFrames - 1);
      assert Plan(Forward, minRef, maxRef, totalFrames, s, e) == [Run(start, end, false)];
      PlanItemsOne(Run(start, end, false), video);
      out := PropagateRange(start, end, false, video(start, false), skipFlagged, videoPaths);
    }

    /** The backward run of `propagate`: from the range end, else the last reference, back to the range start, else frame 0. */
    method RunBackward(minRef: int, maxRef: int, s: Option<int>, e: Option<int>,
                       video: (int, bool) -> seq<Yielded>, skipFlagged: bool, videoPaths: seq<string>)
      returns (out: seq<PropagationResult>)
      requires Valid() && !cancelRequested
      modifies this`frameResults, this`propagatedFrames, this`flaggedFrames
      ensures Valid()
      ensures var ys := PlanItems(Plan(Backward, minRef, maxRef, totalFrames, s, e), video);
              var c := Ctx(skipFlagged, videoPaths);
              && out == Stored(c, ys)
              && frameResults == AppendResults(old(frameResults), out)
              && propagatedFrames == old(propagatedFrames) + FramesOf(out)
              && flaggedFrames == old(flaggedFrames) + LowFrames(c, ys)
    {
      var start := s.GetOr(0);
      var end := e.GetOr(maxRef);
      assert Plan(Backward, minRef, maxRef, totalFrames, s, e) == [Run(end, start, true)];
      PlanItemsOne(Run(end, start, true), video);
      out := PropagateRange(end, start, true, video(end, true), skipFlagged, videoPaths);
    }

    /** The bidirectional runs of `propagate`. */
    method RunBidirectional(minRef: int, maxRef: int, s: Option<int>, e: Option<int>,
                            video: (int, bool) -> seq<Yielded>, skipFlagged: bool, videoPaths: seq<string>)
      returns (out: seq<PropagationResult>)
      requires Valid() && !cancelRequested
      modifies this`frameResults, this`propagatedFrames, this`flaggedFrames
      ensures Valid()
      ensures var ys := PlanItems(Plan(Bidirectional, minRef, maxRef, totalFrames, s, e), video);
              var c := Ctx(skipFlagged, videoPaths);
              && out == Stored(c, ys)
              && frameResults == AppendResults(old(frameResults), out)
              && propagatedFrames == old(propagatedFrames) + FramesOf(out)
              && flaggedFrames == old(flaggedFrames) + LowFrames(c, ys)
    {
      var end := e.GetOr(totalFrames - 1);
      var start := s.GetOr(0);
      ghost var ys := RunItems(Run(minRef, end, false), video(minRef, false))
                      + (if minRef > start then RunItems(Run(minRef, start, true), video(minRef, true)) else []);
      if minRef > start {
        assert Plan(Bidirectional, minRef, maxRef, totalFrames, s, e) == [Run(minRef, end, false), Run(minRef, start, true)];
        PlanItemsTwo(Run(minRef, end, false), Run(minRef, start, true), video);
      } else {
        assert Plan(Bidirectional, minRef, maxRef, totalFrames, s, e) == [Run(minRef, end, false)];
        PlanItemsOne(Run(minRef, end, false), video);
      }
      assert PlanItems(Plan(Bidirectional, minRef, maxRef, totalFrames, s, e), video) == ys;
      out := PropagateBothWays(minRef, start, end, video, skipFlagged, videoPaths);
    }

    /** The bidirectional case of `propagate`: forward from the first reference, then back to the start when it lies below. */
    method PropagateBothWays(minRef: int, start: int, end: int, video: (int, bool) -> seq<Yielded>,
                             skipFlagged: bool, videoPaths: seq<string>)
      returns (out: seq<PropagationResult>)
      requires Valid() && !cancelRequested
      modifies this`frameResults, this`propagatedFrames, this`flaggedFrames
      ensures Valid()
      ensures var ys := RunItems(Run(minRef, end, false), video(minRef, false))
                        + (if minRef > start then RunItems(Run(minRef, start, true), video(minRef, true)) else []);
              var c := Ctx(skipFlagged, videoPaths);
              && out == Stored(c, ys)
              && frameResults == AppendResults(old(frameResults), out)
              && propagatedFrames == old(propagatedFrames) + FramesOf(out)
              && flaggedFrames == old(flaggedFrames) + LowFrames(c, ys)
    {
      ghost var c := Ctx(skipFlagged, videoPaths);
      ghost var m0, p0, f0 := frameResults, propagatedFrames, flaggedFrames;
      var first := PropagateRange(minRef, end, false, video(minRef, false), skipFlagged, videoPaths);
      ghost var ys1 := RunItems(Run(minRef, end, false), video(minRef, false));
      out := first;
      if minRef > start {
        ghost var m1, p1, f1 := frameResults, propagatedFrames, flaggedFrames;
        var second := PropagateRange(minRef, start, true, video(minRef, true), skipFlagged, videoPaths);
        ghost var ys2 := RunItems(Run(minRef, start, true), video(minRef, true));
        ComposeRuns(c, ys1, ys2, m0, p0, f0, first, m1, p1, f1, second, frameResults, propagatedFrames, flaggedFrames);
        out := first + second;
      } else {
        assert ys1 + [] == ys1;
      }
    }

    /** `get_frame_status`: skipped, then reference, then flagged, then propagated, else pending. */
    function FrameStatusAt(idx: int): (r: FrameStatus)
      requires Valid()
      reads this
      ensures r == Skipped <==> idx in skippedFrames
      ensures r == Reference <==> idx !in skippedFrames && idx in timelineToSam2 && timelineToSam2[idx] in referenceFrames
      ensures r == Flagged <==> idx !in skippedFrames && !(idx in timelineToSam2 && timelineToSam2[idx] in referenceFrames) && idx in flaggedFrames
      ensures r == Propagated <==>
                idx !in skippedFrames && !(idx in timelineToSam2 && timelineToSam2[idx] in referenceFrames)
                && idx !in flaggedFrames && idx in propagatedFrames
      ensures r == Skipped ==> idx !in timelineToSam2
    {
      if idx in skippedFrames then Skipped
      else if idx in timelineToSam2 && timelineToSam2[idx] in referenceFrames then Reference
      else if idx in flaggedFrames then Flagged
      else if idx in propagatedFrames then Propagated
      else Pending
    }

    /** `get_frame_results`: the stored results of a frame, none when it has none. */
    function FrameResults(idx: int): (r: seq<PropagationResult>)
      reads this
      ensures idx !in frameResults ==> r == []
      ensures idx in frameResults ==> r == frameResults[idx]
    {
      Get(frameResults, idx)
    }

    /** `get_reference_annotation_for_obj`: the first annotation with that object id. */
    method ReferenceAnnotationForObj(objId: int) returns (r: Option<ReferenceAnnotation>)
      ensures r.None? <==> forall i | 0 <= i < |referenceAnnotations| :: referenceAnnotations[i].objId != objId
      ensures r.Some? ==> exists i | 0 <= i < |referenceAnnotations| ::
                referenceAnnotations[i] == r.value && r.value.objId == objId
                && forall j | 0 <= j < i :: referenceAnnotations[j].objId != objId
    {
      for i := 0 to |referenceAnnotations|
        invariant forall j | 0 <= j < i :: referenceAnnotations[j].objId != objId
      {
        if referenceAnnotations[i].objId == objId {
          return Some(referenceAnnotations[i]);
        }
      }
      return None;
    }

    /** `get_next_flagged_frame`: the first flagged frame after `current`, wrapping to the first one. */
    method NextFlaggedFrame(current: int) returns (r: Option<int>)
      ensures r == SV.NextFlagged(flaggedFrames, current)
    {
      r := SV.ScanNext(SortedSet(flaggedFrames), flaggedFrames, current);
    }

    /** `get_prev_flagged_frame`: the last flagged frame before `current`, wrapping to the last one. */
    method PrevFlaggedFrame(current: int) returns (r: Option<int>)
      ensures r == SV.PrevFlagged(flaggedFrames, current)
    {
      r := SV.ScanPrev(SortedSet(flaggedFrames), flaggedFrames, current);
    }

    /**
     * `set_confidence_threshold`: the threshold is clamped to [0, 1] and the
     * flagged frames become exactly the frames with a stored result below
     * it, so a frame flagged only because its result was skipped is
     * unflagged.
     */
    method SetConfidenceThreshold(t: real)
      requires Valid()
      modifies this`threshold, this`flaggedFrames
      ensures Valid()
      ensures threshold == SV.Clamp01(t)
      ensures forall k :: k in flaggedFrames <==> k in frameResults && HasLow(frameResults[k], threshold)
    {
      threshold := SV.Clamp01(t);
      var flagged: set<int> := {};
      var todo := frameResults.Keys;
      while todo != {}
        invariant todo <= frameResults.Keys
        invariant forall k :: k in flagged <==> k in frameResults && k !in todo && HasLow(frameResults[k], threshold)
        decreases |todo|
      {
        assert exists k :: k in todo by {
          if forall k :: k !in todo {
            assert false;
          }
        }
        var k :| k in todo;
        var results := frameResults[k];
        var j := 0;
        while j < |results|
          invariant 0 <= j <= |results|
          invariant forall i | 0 <= i < j :: results[i].confidence >= threshold
        {
          if results[j].confidence < threshold {
            flagged := flagged + {k};
            break;
          }
          j := j + 1;
        }
        todo := todo - {k};
      }
      flaggedFrames := flagged;
    }
  }
}
