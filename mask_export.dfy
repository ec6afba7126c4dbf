/**
 * The export tensor of `create_final_mask_tensor` and the pixel-priority
 * resolution of `_apply_pixel_priority` (core/segment_manager.py).
 *
 * An (h, w, n) uint8 tensor whose entries are 0 or 1 is modelled as n
 * channels, each the set of pixels that are 1 in it.
 */
module MaskExport {
  import opened Wrappers
  import opened Geometry
  import opened Segments
  import opened SegmentStore

  type Tensor = seq<set<Pixel>>

  /**
   * The mask a segment exports: polygons are rasterised from their vertices,
   * others give their mask.  (A polygon without vertices raises KeyError in the
   * export; `ExportReady` excludes it, and here it gives no mask.)
   */
  function ExportMask(seg: Segment, h: int, w: int, raster: Rasterizer): Option<Mask>
  {
    if seg.kind == Polygon then
      if seg.vertices.Some? then RasterizePolygon(raster, seg.vertices.value, h, w) else None
    else seg.mask
  }

  /**
   * What the export demands of the segments it reads: a polygon of an exported
   * class has vertices (`seg["vertices"]`), and a mask of an exported class has
   * the image shape (otherwise `np.logical_or` cannot combine it).
   */
  predicate ExportReady(segs: seq<Segment>, classOrder: seq<int>, h: int, w: int)
  {
    forall i | 0 <= i < |segs| && segs[i].classId.Some? && segs[i].classId.value in classOrder ::
      && (segs[i].kind == Polygon ==> segs[i].vertices.Some?)
      && (segs[i].kind != Polygon && segs[i].mask.Some? ==> segs[i].mask.value.h == h && segs[i].mask.value.w == w)
  }

  /** Segment `seg` writes pixel `p` into channel `k`. */
  predicate WritesTo(seg: Segment, m: map<int, nat>, k: int, h: int, w: int, raster: Rasterizer, p: Pixel)
  {
    && seg.classId.Some? && seg.classId.value in m && m[seg.classId.value] == k
    && ExportMask(seg, h, w, raster).Some? && p in ExportMask(seg, h, w, raster).value.px
  }

  /** Channel `k`: the OR of the masks of the segments mapped to `k`. */
  function ChannelPixels(segs: seq<Segment>, m: map<int, nat>, k: int, h: int, w: int, raster: Rasterizer): set<Pixel>
  {
    if segs == [] then {}
    else
      var n := |segs| - 1;
      var seg := segs[n];
      var rest := ChannelPixels(segs[..n], m, k, h, w, raster);
      if seg.classId.Some? && seg.classId.value in m && m[seg.classId.value] == k then
        match ExportMask(seg, h, w, raster)
        case None => rest
        case Some(mk) => rest + mk.px
      else rest
  }

  lemma {:induction false} ChannelPixelsSpec(segs: seq<Segment>, m: map<int, nat>, k: int, h: int, w: int, raster: Rasterizer, p: Pixel)
    ensures p in ChannelPixels(segs, m, k, h, w, raster) <==> exists i :: 0 <= i < |segs| && WritesTo(segs[i], m, k, h, w, raster, p)
  {
    if segs != [] {
      var n := |segs| - 1;
      var init := segs[..n];
      assert forall i | 0 <= i < n :: init[i] == segs[i];
      ChannelPixelsSpec(init, m, k, h, w, raster, p);
      if exists i :: 0 <= i < |segs| && WritesTo(segs[i], m, k, h, w, raster, p) {
        var i :| 0 <= i < |segs| && WritesTo(segs[i], m, k, h, w, raster, p);
        if i < n {
          assert WritesTo(init[i], m, k, h, w, raster, p);
        }
      }
    }
  }

  /** The tensor before priority: one channel per entry of `classOrder`. */
  function RawTensor(segs: seq<Segment>, classOrder: seq<int>, h: int, w: int, raster: Rasterizer): (t: Tensor)
    requires ExportReady(segs, classOrder, h, w)
    ensures |t| == |classOrder|
  {
    var m := IdMap(classOrder);
    IdMapSpec(classOrder);
    seq(|classOrder|, k requires 0 <= k < |classOrder| => ChannelPixels(segs, m, k, h, w, raster))
  }

  // ----- pixel priority -----

  /** How many of the first `n` channels hold `p` (`np.sum(mask_tensor > 0, axis=2)`). */
  function OwnerCount(t: Tensor, p: Pixel, n: nat): nat
    requires n <= |t|
  {
    if n == 0 then 0 else OwnerCount(t, p, n - 1) + (if p in t[n - 1] then 1 else 0)
  }

  /** `p` is contested when two or more channels hold it. */
  predicate Contested(t: Tensor, p: Pixel)
  {
    OwnerCount(t, p, |t|) > 1
  }

  /** The count is above one exactly when two different channels hold the pixel. */
  lemma {:induction false} OwnerCountTwo(t: Tensor, p: Pixel, n: nat)
    requires n <= |t|
    ensures OwnerCount(t, p, n) > 1 <==> exists a, b :: 0 <= a < b < n && p in t[a] && p in t[b]
  {
    if n > 0 {
      OwnerCountTwo(t, p, n - 1);
      OwnerCountOne(t, p, n - 1);
      if exists a, b :: 0 <= a < b < n && p in t[a] && p in t[b] {
        var a, b :| 0 <= a < b < n && p in t[a] && p in t[b];
        if b < n - 1 {
          assert exists a, b :: 0 <= a < b < n - 1 && p in t[a] && p in t[b];
        }
      }
      if OwnerCount(t, p, n) > 1 && !(OwnerCount(t, p, n - 1) > 1) {
        var a :| 0 <= a < n - 1 && p in t[a];
        assert p in t[n - 1];
        assert 0 <= a < n - 1 < n && p in t[a] && p in t[n - 1];
      }
    }
  }

  /** The count is positive exactly when some channel holds the pixel. */
  lemma {:induction false} OwnerCountOne(t: Tensor, p: Pixel, n: nat)
    requires n <= |t|
    ensures OwnerCount(t, p, n) > 0 <==> exists a :: 0 <= a < n && p in t[a]
  {
    if n > 0 {
      OwnerCountOne(t, p, n - 1);
    }
  }

  /** The lowest channel below `n` holding `p`, or `n` when none does. */
  function FirstOwner(t: Tensor, p: Pixel, n: nat): (r: nat)
    requires n <= |t|
    ensures r <= n && (r < n ==> p in t[r]) && forall k | 0 <= k < r :: p !in t[k]
  {
    if n == 0 then 0
    else
      var f := FirstOwner(t, p, n - 1);
      if f < n - 1 then f else if p in t[n - 1] then n - 1 else n
  }

  /** The highest channel below `n` holding `p`, or -1 when none does. */
  function LastOwner(t: Tensor, p: Pixel, n: nat): (r: int)
    requires n <= |t|
    ensures -1 <= r < n && (r >= 0 ==> p in t[r]) && forall k | r < k < n :: p !in t[k]
  {
    if n == 0 then -1 else if p in t[n - 1] then n - 1 else LastOwner(t, p, n - 1)
  }

  /** The channel that keeps a contested pixel: argmin (ascending) or argmax (descending) over its owners. */
  function Winner(t: Tensor, p: Pixel, ascending: bool): int
  {
    if ascending then FirstOwner(t, p, |t|) else LastOwner(t, p, |t|)
  }

  /** `_apply_pixel_priority`: contested pixels are cleared everywhere except in the winning channel. */
  function ApplyPixelPriority(t: Tensor, ascending: bool): (r: Tensor)
    ensures |r| == |t|
    ensures forall k | 0 <= k < |t| :: r[k] <= t[k]
  {
    seq(|t|, k requires 0 <= k < |t| => set p | p in t[k] && (!Contested(t, p) || k == Winner(t, p, ascending)))
  }

  /** After priority every pixel is set in at most one channel. */
  lemma PriorityExclusive(t: Tensor, ascending: bool, p: Pixel, a: nat, b: nat)
    requires a < |t| && b < |t|
    requires p in ApplyPixelPriority(t, ascending)[a] && p in ApplyPixelPriority(t, ascending)[b]
    ensures a == b
  {
    OwnerCountTwo(t, p, |t|);
  }

  /** A pixel that at most one channel holds keeps its channels. */
  lemma PriorityKeepsUncontested(t: Tensor, ascending: bool, p: Pixel)
    requires !Contested(t, p)
    ensures forall k | 0 <= k < |t| :: p in ApplyPixelPriority(t, ascending)[k] <==> p in t[k]
  {
  }

  /**
   * A contested pixel stays only in its lowest original channel (ascending) or
   * its highest (descending), and that channel did hold it.
   */
  lemma PriorityResolvesContested(t: Tensor, ascending: bool, p: Pixel)
    requires Contested(t, p)
    ensures var c := Winner(t, p, ascending);
            && 0 <= c < |t| && p in t[c]
            && (ascending ==> forall k | 0 <= k < c :: p !in t[k])
            && (!ascending ==> forall k | c < k < |t| :: p !in t[k])
            && forall k | 0 <= k < |t| :: p in ApplyPixelPriority(t, ascending)[k] <==> k == c
  {
    OwnerCountOne(t, p, |t|);
  }

  /** Priority never loses a pixel: whatever some channel held, some channel still holds. */
  lemma PriorityKeepsCoverage(t: Tensor, ascending: bool, p: Pixel)
    ensures (exists k :: 0 <= k < |t| && p in t[k]) <==> (exists k :: 0 <= k < |t| && p in ApplyPixelPriority(t, ascending)[k])
  {
    var r := ApplyPixelPriority(t, ascending);
    if exists k :: 0 <= k < |t| && p in t[k] {
      var k :| 0 <= k < |t| && p in t[k];
      if Contested(t, p) {
        PriorityResolvesContested(t, ascending, p);
        var c := Winner(t, p, ascending);
        assert p in r[c];
      } else {
        assert p in r[k];
      }
    }
  }

  /** `create_final_mask_tensor` */
  function FinalMaskTensor(segs: seq<Segment>, classOrder: seq<int>, h: int, w: int, raster: Rasterizer,
                           priorityEnabled: bool, ascending: bool): (t: Tensor)
    requires ExportReady(segs, classOrder, h, w)
    ensures |t| == |classOrder|
  {
    var raw := RawTensor(segs, classOrder, h, w, raster);
    if priorityEnabled then ApplyPixelPriority(raw, ascending) else raw
  }

  /**
   * Without priority, channel k holds exactly the pixels of the segments whose
   * class is listed last at position k; segments of unlisted classes add nothing.
   */
  lemma FinalMaskChannel(segs: seq<Segment>, classOrder: seq<int>, h: int, w: int, raster: Rasterizer, k: nat, p: Pixel)
    requires ExportReady(segs, classOrder, h, w) && k < |classOrder|
    ensures p in FinalMaskTensor(segs, classOrder, h, w, raster, false, true)[k]
            <==> exists i :: 0 <= i < |segs| && WritesTo(segs[i], IdMap(classOrder), k, h, w, raster, p)
  {
    IdMapSpec(classOrder);
    ChannelPixelsSpec(segs, IdMap(classOrder), k, h, w, raster, p);
  }

  /** A segment whose class is not in `classOrder` writes no channel. */
  lemma UnlistedClassIgnored(seg: Segment, classOrder: seq<int>, h: int, w: int, raster: Rasterizer, k: int, p: Pixel)
    requires seg.classId.None? || seg.classId.value !in classOrder
    ensures !WritesTo(seg, IdMap(classOrder), k, h, w, raster, p)
  {
    IdMapSpec(classOrder);
  }
}
