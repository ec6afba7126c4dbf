/**
 * The pixmap caches of the segment display (`SegmentDisplayManager` in
 * ui/managers/segment_display_manager.py): an LRU cache of the normal and
 * hover pixmaps of each segment, an LRU cache of highlight pixmaps, and a
 * memo of class colours.  Rendering a mask into a pixmap and the HSV colour
 * formula are parameters of the manager.
 */
module SegmentDisplay {
  import opened Wrappers
  import opened Geometry
  import opened Seqs
  import opened OrderedDicts

  type Rgb = (int, int, int)

  /** `(segment_index, viewer_index, color_rgb, alpha)` */
  type CacheKey<W> = (int, W, Rgb, int)

  const SegmentCacheMax: nat := 500
  const HighlightCacheMax: nat := 200
  const DefaultAlpha: int := 70
  const HoverAlpha: int := 170

  datatype ClassColor = Hsv(h: int, s: int, v: int) | White

  /** The colour of a segment without a class. */
  const NoClassColor: ClassColor := Hsv(0, 0, 128)

  // ----- shift_cache_after_deletion -----

  /** The key of an entry after the segment `deleted` has gone: later indices move down by one. */
  function ShiftKey<W>(k: CacheKey<W>, deleted: int): CacheKey<W>
  {
    if k.0 > deleted then (k.0 - 1, k.1, k.2, k.3) else k
  }

  /** The key an entry had before the deletion. */
  function UnshiftKey<W>(k: CacheKey<W>, deleted: int): CacheKey<W>
  {
    if k.0 >= deleted then (k.0 + 1, k.1, k.2, k.3) else k
  }

  lemma UnshiftShift<W>(k: CacheKey<W>, deleted: int)
    requires k.0 != deleted
    ensures UnshiftKey(ShiftKey(k, deleted), deleted) == k
  {
  }

  /** The keys of the shifted cache, in the order of the original ones. */
  function ShiftedKeys<W>(ks: seq<CacheKey<W>>, deleted: int): (r: seq<CacheKey<W>>)
    ensures |r| <= |ks|
  {
    if ks == [] then []
    else
      var k := ks[|ks| - 1];
      ShiftedKeys(ks[..|ks| - 1], deleted) + (if k.0 == deleted then [] else [ShiftKey(k, deleted)])
  }

  /** The cache the shift loop builds from the entries `ks` (with their values in `vals`). */
  function ShiftEntries<W(==,!new), P>(ks: seq<CacheKey<W>>, vals: map<CacheKey<W>, P>, deleted: int)
    : (r: ODict<CacheKey<W>, P>)
    requires forall k | k in ks :: k in vals
    ensures OrderedDicts.Valid(r) && |r.keys| <= |ks|
  {
    if ks == [] then EmptyDict()
    else
      var k := ks[|ks| - 1];
      var r := ShiftEntries(ks[..|ks| - 1], vals, deleted);
      if k.0 == deleted then r else Store(r, ShiftKey(k, deleted), vals[k])
  }

  lemma DistinctInit<T>(ks: seq<T>)
    requires Distinct(ks) && ks != []
    ensures Distinct(ks[..|ks| - 1]) && ks[|ks| - 1] !in ks[..|ks| - 1]
  {
    var init := ks[..|ks| - 1];
    forall i, j | 0 <= i < j < |init|
      ensures init[i] != init[j]
    {
      assert init[i] == ks[i] && init[j] == ks[j];
    }
    forall i | 0 <= i < |init|
      ensures init[i] != ks[|ks| - 1]
    {
      assert init[i] == ks[i];
    }
  }

  /**
   * Every key of the shifted cache comes from an entry of another segment and
   * holds that entry's value.
   */
  lemma {:induction false} ShiftEntriesOrigin<W(!new), P>(ks: seq<CacheKey<W>>, vals: map<CacheKey<W>, P>, deleted: int)
    requires forall k | k in ks :: k in vals
    ensures forall k | k in ShiftEntries(ks, vals, deleted).vals ::
              UnshiftKey(k, deleted) in ks && UnshiftKey(k, deleted).0 != deleted
              && ShiftEntries(ks, vals, deleted).vals[k] == vals[UnshiftKey(k, deleted)]
  {
    if ks != [] {
      var init, k := ks[..|ks| - 1], ks[|ks| - 1];
      assert forall x | x in init :: x in ks;
      ShiftEntriesOrigin(init, vals, deleted);
      if k.0 != deleted {
        UnshiftShift(k, deleted);
      }
    }
  }

  /** Entries of other segments are never stored on top of each other, so the keys keep their order. */
  lemma {:induction false} ShiftEntriesKeys<W(!new), P>(ks: seq<CacheKey<W>>, vals: map<CacheKey<W>, P>, deleted: int)
    requires forall k | k in ks :: k in vals
    requires Distinct(ks)
    ensures ShiftEntries(ks, vals, deleted).keys == ShiftedKeys(ks, deleted)
  {
    if ks != [] {
      var init, k := ks[..|ks| - 1], ks[|ks| - 1];
      DistinctInit(ks);
      ShiftEntriesKeys(init, vals, deleted);
      if k.0 != deleted {
        ShiftEntriesOrigin(init, vals, deleted);
        UnshiftShift(k, deleted);
        assert ShiftKey(k, deleted) !in ShiftEntries(init, vals, deleted).vals;
      }
    }
  }

  /** The shift loses the deleted segment's entries and nothing else. */
  lemma {:induction false} ShiftEntriesValues<W(!new), P>(ks: seq<CacheKey<W>>, vals: map<CacheKey<W>, P>, deleted: int)
    requires forall k | k in ks :: k in vals
    requires Distinct(ks)
    ensures forall k | k in ks && k.0 != deleted ::
              ShiftKey(k, deleted) in ShiftEntries(ks, vals, deleted).vals
              && ShiftEntries(ks, vals, deleted).vals[ShiftKey(k, deleted)] == vals[k]
  {
    if ks != [] {
      var init, k := ks[..|ks| - 1], ks[|ks| - 1];
      assert ks == init + [k];
      DistinctInit(ks);
      ShiftEntriesValues(init, vals, deleted);
      if k.0 != deleted {
        forall k2 | k2 in init && k2.0 != deleted
          ensures ShiftKey(k2, deleted) != ShiftKey(k, deleted)
        {
          UnshiftShift(k2, deleted);
          UnshiftShift(k, deleted);
        }
      }
    }
  }

  /** The segment cache after the shift of `shift_cache_after_deletion`. */
  function Shifted<W(==,!new), P>(d: ODict<CacheKey<W>, P>, deleted: int): (r: ODict<CacheKey<W>, P>)
    requires OrderedDicts.Valid(d)
    ensures OrderedDicts.Valid(r) && |r.keys| <= |d.keys|
  {
    ShiftEntries(d.keys, d.vals, deleted)
  }

  /** The loop over `cache.items()` that rebuilds the cache under shifted keys. */
  method ShiftLoop<W(==,!new), P>(d: ODict<CacheKey<W>, P>, deleted: int) returns (r: ODict<CacheKey<W>, P>)
    requires OrderedDicts.Valid(d)
    ensures r == Shifted(d, deleted)
  {
    r := EmptyDict();
    var i := 0;
    while i < |d.keys|
      invariant 0 <= i <= |d.keys|
      invariant r == ShiftEntries(d.keys[..i], d.vals, deleted)
    {
      var k := d.keys[i];
      assert d.keys[..i + 1][..i] == d.keys[..i];
      if k.0 != deleted {
        r := Store(r, ShiftKey(k, deleted), d.vals[k]);
      }
      i := i + 1;
    }
    assert d.keys[..i] == d.keys;
  }

  /**
   * The highlight half of `shift_cache_after_deletion` as written: each key
   * is unpacked into three names, but `get_cached_highlight_pixmap` stores
   * four-part keys, so the first entry raises ValueError (None here) and only
   * an empty cache gets through.
   */
  function ShiftHighlightAsWritten<P>(h: ODict<CacheKey<int>, P>, deleted: int): (r: Option<ODict<CacheKey<int>, P>>)
    ensures r.Some? <==> h.keys == []
    ensures r.Some? ==> r.value.keys == []
  {
    if h.keys == [] then Some(EmptyDict()) else None
  }

  /**
   * An entry of a segment other than the deleted one makes the code as written
   * fail, while the four-part shift keeps it under its shifted key.
   */
  lemma HighlightShiftAsWrittenFails<P>(h: ODict<CacheKey<int>, P>, deleted: int, k: CacheKey<int>)
    requires OrderedDicts.Valid(h) && k in h.vals && k.0 != deleted
    ensures ShiftHighlightAsWritten(h, deleted).None?
    ensures ShiftKey(k, deleted) in Shifted(h, deleted).vals
    ensures Shifted(h, deleted).vals[ShiftKey(k, deleted)] == h.vals[k]
  {
    ShiftEntriesValues(h.keys, h.vals, deleted);
  }

  /** Every entry of the shifted cache comes from a surviving segment's entry with the same value. */
  lemma ShiftedOrigin<W(!new), P>(d: ODict<CacheKey<W>, P>, deleted: int)
    requires OrderedDicts.Valid(d)
    ensures forall k | k in Shifted(d, deleted).vals ::
              UnshiftKey(k, deleted) in d.vals && UnshiftKey(k, deleted).0 != deleted
              && Shifted(d, deleted).vals[k] == d.vals[UnshiftKey(k, deleted)]
  {
    ShiftEntriesOrigin(d.keys, d.vals, deleted);
  }

  /** Every entry of another segment survives the shift under its shifted key, in the same order. */
  lemma ShiftedKeeps<W(!new), P>(d: ODict<CacheKey<W>, P>, deleted: int)
    requires OrderedDicts.Valid(d)
    ensures Shifted(d, deleted).keys == ShiftedKeys(d.keys, deleted)
    ensures forall k | k in d.vals && k.0 != deleted ::
              ShiftKey(k, deleted) in Shifted(d, deleted).vals && Shifted(d, deleted).vals[ShiftKey(k, deleted)] == d.vals[k]
  {
    ShiftEntriesKeys(d.keys, d.vals, deleted);
    ShiftEntriesValues(d.keys, d.vals, deleted);
  }

  /** Keeps the entries of segments not listed in `indices`. */
  function Unlisted<W>(indices: seq<int>): CacheKey<W> -> bool
  {
    (k: CacheKey<W>) => k.0 !in indices
  }

  // ----- LRU bounds -----

  /**
   * A pixmap miss: after evicting below the maximum and storing the two new
   * entries, the cache holds both with the new pixmaps and at most one entry
   * over the maximum.
   */
  lemma PixmapMissBound<W(!new), P>(d: ODict<CacheKey<W>, P>, kd: CacheKey<W>, kh: CacheKey<W>, a: P, b: P)
    requires OrderedDicts.Valid(d) && kd.3 == DefaultAlpha && kh.3 == HoverAlpha
    ensures var r := Store(Store(Newest(d, SegmentCacheMax - 1), kd, a), kh, b);
            && |r.keys| <= SegmentCacheMax + 1
            && kd in r.vals && r.vals[kd] == a && kh in r.vals && r.vals[kh] == b
  {
    NewestKeys(d, SegmentCacheMax - 1);
  }

  /** A highlight miss leaves the new pixmap stored and the cache within its maximum. */
  lemma HighlightMissBound<P>(d: ODict<CacheKey<int>, P>, k: CacheKey<int>, p: P)
    requires OrderedDicts.Valid(d) && k !in d.vals
    ensures var r := Store(Newest(d, HighlightCacheMax - 1), k, p);
            |r.keys| <= HighlightCacheMax && k in r.vals && r.vals[k] == p && r.keys[|r.keys| - 1] == k
  {
    NewestKeys(d, HighlightCacheMax - 1);
    NewestValues(d, HighlightCacheMax - 1);
    assert k !in Newest(d, HighlightCacheMax - 1).vals;
  }

  class SegmentDisplayManager<P> {
    var segmentCache: ODict<CacheKey<Option<int>>, P>
    var segmentCacheValid: bool
    var highlightCache: ODict<CacheKey<int>, P>
    var classColorCache: map<int, ClassColor>
    /** `mask_to_pixmap(mask, color_rgb, alpha)` */
    const render: (Mask, Rgb, int) -> P
    /** The HSV colour of a class id (white when Qt finds it invalid). */
    const colorOf: int -> ClassColor

    ghost predicate Valid()
      reads this
    {
      && OrderedDicts.Valid(segmentCache) && |segmentCache.keys| <= SegmentCacheMax + 1
      && OrderedDicts.Valid(highlightCache) && |highlightCache.keys| <= HighlightCacheMax
      && forall c | c in classColorCache :: classColorCache[c] == colorOf(c)
    }

    constructor(render: (Mask, Rgb, int) -> P, colorOf: int -> ClassColor)
      ensures Valid() && segmentCache.keys == [] && highlightCache.keys == [] && classColorCache == map[]
      ensures segmentCacheValid
      ensures this.render == render && this.colorOf == colorOf
    {
      segmentCache := EmptyDict();
      segmentCacheValid := true;
      highlightCache := EmptyDict();
      classColorCache := map[];
      this.render := render;
      this.colorOf := colorOf;
    }

    /**
     * `get_cached_pixmaps`: a hit needs the valid flag and both the alpha-70 and
     * alpha-170 keys, returns the stored pair and makes both keys the most
     * recent; a miss renders both, evicts below the maximum and stores them.
     */
    method GetCachedPixmaps(segmentIndex: int, mask: Mask, color: Rgb, viewer: Option<int>)
      returns (normal: P, hover: P)
      requires Valid()
      modifies this
      ensures Valid()
      ensures var kd, kh := (segmentIndex, viewer, color, DefaultAlpha), (segmentIndex, viewer, color, HoverAlpha);
              if old(segmentCacheValid) && kd in old(segmentCache.vals) && kh in old(segmentCache.vals) then
                && normal == old(segmentCache.vals[kd]) && hover == old(segmentCache.vals[kh])
                && segmentCache == MoveToEnd(MoveToEnd(old(segmentCache), kd), kh)
              else
                && normal == render(mask, color, DefaultAlpha) && hover == render(mask, color, HoverAlpha)
                && segmentCache == Store(Store(Newest(old(segmentCache), SegmentCacheMax - 1), kd, normal), kh, hover)
      ensures highlightCache == old(highlightCache) && classColorCache == old(classColorCache)
      ensures segmentCacheValid == old(segmentCacheValid)
    {
      var kd, kh := (segmentIndex, viewer, color, DefaultAlpha), (segmentIndex, viewer, color, HoverAlpha);
      if segmentCacheValid && kd in segmentCache.vals && kh in segmentCache.vals {
        normal, hover := TouchPixmaps(kd, kh);
        return;
      }
      normal := render(mask, color, DefaultAlpha);
      hover := render(mask, color, HoverAlpha);
      StorePixmaps(kd, kh, normal, hover);
    }

    /** The hit path of `get_cached_pixmaps`: both keys become the most recent, the stored pair is returned. */
    method TouchPixmaps(kd: CacheKey<Option<int>>, kh: CacheKey<Option<int>>) returns (normal: P, hover: P)
      requires Valid() && kd in segmentCache.vals && kh in segmentCache.vals
      modifies this
      ensures Valid()
      ensures normal == old(segmentCache.vals[kd]) && hover == old(segmentCache.vals[kh])
      ensures segmentCache == MoveToEnd(MoveToEnd(old(segmentCache), kd), kh)
      ensures highlightCache == old(highlightCache) && classColorCache == old(classColorCache)
      ensures segmentCacheValid == old(segmentCacheValid)
    {
      segmentCache := MoveToEnd(segmentCache, kd);
      segmentCache := MoveToEnd(segmentCache, kh);
      normal, hover := segmentCache.vals[kd], segmentCache.vals[kh];
    }

    /** The miss path of `get_cached_pixmaps`: evict below the maximum, then store both pixmaps. */
    method StorePixmaps(kd: CacheKey<Option<int>>, kh: CacheKey<Option<int>>, normal: P, hover: P)
      requires Valid() && kd.3 == DefaultAlpha && kh.3 == HoverAlpha
      modifies this
      ensures Valid()
      ensures segmentCache == Store(Store(Newest(old(segmentCache), SegmentCacheMax - 1), kd, normal), kh, hover)
      ensures highlightCache == old(highlightCache) && classColorCache == old(classColorCache)
      ensures segmentCacheValid == old(segmentCacheValid)
    {
      var evicted := PopWhileFull(segmentCache, SegmentCacheMax);
      PixmapMissBound(segmentCache, kd, kh, normal, hover);
      segmentCache := Store(Store(evicted, kd, normal), kh, hover);
    }

    /** `get_cached_highlight_pixmap` with the same hit/miss discipline for one key. */
    method GetCachedHighlightPixmap(segmentIndex: int, mask: Mask, color: Rgb, alpha: int, viewer: int)
      returns (p: P)
      requires Valid()
      modifies this
      ensures Valid()
      ensures var k := (segmentIndex, viewer, color, alpha);
              if k in old(highlightCache.vals) then
                p == old(highlightCache.vals[k]) && highlightCache == MoveToEnd(old(highlightCache), k)
              else
                p == render(mask, color, alpha)
                && highlightCache == Store(Newest(old(highlightCache), HighlightCacheMax - 1), k, p)
      ensures segmentCache == old(segmentCache) && classColorCache == old(classColorCache)
      ensures segmentCacheValid == old(segmentCacheValid)
    {
      var k := (segmentIndex, viewer, color, alpha);
      if k in highlightCache.vals {
        highlightCache := MoveToEnd(highlightCache, k);
        return highlightCache.vals[k];
      }
      var evicted := PopWhileFull(highlightCache, HighlightCacheMax);
      p := render(mask, color, alpha);
      HighlightMissBound(highlightCache, k, p);
      highlightCache := Store(evicted, k, p);
    }

    /** `invalidate_cache`: None empties both pixmap caches, a list drops exactly the listed segments' entries. */
    method InvalidateCache(segmentIndices: Option<seq<int>>)
      requires Valid()
      modifies this
      ensures Valid()
      ensures segmentIndices.None? ==> segmentCache.keys == [] && highlightCache.keys == []
      ensures segmentIndices.Some? ==>
                && segmentCache == Restrict(old(segmentCache), Unlisted(segmentIndices.value))
                && highlightCache == Restrict(old(highlightCache), Unlisted(segmentIndices.value))
      ensures classColorCache == old(classColorCache) && segmentCacheValid == old(segmentCacheValid)
    {
      if segmentIndices.None? {
        segmentCache := EmptyDict();
        highlightCache := EmptyDict();
      } else {
        var indices := segmentIndices.value;
        segmentCache := Restrict(segmentCache, Unlisted(indices));
        highlightCache := Restrict(highlightCache, Unlisted(indices));
      }
    }

    /**
     * `shift_cache_after_deletion`, with the highlight half shifting the
     * four-part keys the highlight cache actually holds.
     */
    method ShiftCacheAfterDeletion(deletedIndex: int)
      requires Valid()
      modifies this
      ensures Valid()
      ensures segmentCache == Shifted(old(segmentCache), deletedIndex)
      ensures highlightCache == Shifted(old(highlightCache), deletedIndex)
      ensures classColorCache == old(classColorCache) && segmentCacheValid == old(segmentCacheValid)
    {
      segmentCache := ShiftLoop(segmentCache, deletedIndex);
      highlightCache := ShiftLoop(highlightCache, deletedIndex);
    }

    /** `get_color_for_class`: the memo never changes the answer. */
    method GetColorForClass(classId: Option<int>) returns (color: ClassColor)
      requires Valid()
      modifies this
      ensures Valid()
      ensures color == if classId.None? then NoClassColor else colorOf(classId.value)
      ensures classId.Some? ==> classColorCache == old(classColorCache)[classId.value := color]
      ensures classId.None? ==> classColorCache == old(classColorCache)
      ensures segmentCache == old(segmentCache) && highlightCache == old(highlightCache)
      ensures segmentCacheValid == old(segmentCacheValid)
    {
      if classId.None? {
        return NoClassColor;
      }
      var c := classId.value;
      if c in classColorCache {
        return classColorCache[c];
      }
      color := colorOf(c);
      classColorCache := classColorCache[c := color];
    }

    /** `clear_class_color_cache` */
    method ClearClassColorCache()
      requires Valid()
      modifies this
      ensures Valid() && classColorCache == map[]
      ensures segmentCache == old(segmentCache) && highlightCache == old(highlightCache)
      ensures segmentCacheValid == old(segmentCacheValid)
    {
      classColorCache := map[];
    }

    /** `clear_all_caches` */
    method ClearAllCaches()
      requires Valid()
      modifies this
      ensures Valid() && segmentCache.keys == [] && highlightCache.keys == [] && classColorCache == map[]
      ensures segmentCacheValid == old(segmentCacheValid)
    {
      segmentCache := EmptyDict();
      highlightCache := EmptyDict();
      classColorCache := map[];
    }

    /** `clear_pixmap_caches`: the class colours stay. */
    method ClearPixmapCaches()
      requires Valid()
      modifies this
      ensures Valid() && segmentCache.keys == [] && highlightCache.keys == []
      ensures classColorCache == old(classColorCache) && segmentCacheValid == old(segmentCacheValid)
    {
      segmentCache := EmptyDict();
      highlightCache := EmptyDict();
    }

    /** `set_cache_valid`: only the flag that gates pixmap hits changes. */
    method SetCacheValid(valid: bool)
      requires Valid()
      modifies this
      ensures Valid() && segmentCacheValid == valid
      ensures segmentCache == old(segmentCache) && highlightCache == old(highlightCache)
      ensures classColorCache == old(classColorCache)
    {
      segmentCacheValid := valid;
    }
  }
}
