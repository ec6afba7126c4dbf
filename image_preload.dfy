/**
 * The cache of decoded neighbour images for fast navigation
 * (`ImagePreloadManager` in ui/managers/image_preload_manager.py).  The worker
 * threads that decode the images are not modelled: the manager's part is which
 * paths it asks for, and what it does with an image once one arrives.
 */
module ImagePreload {
  import opened Wrappers
  import opened OrderedDicts

  /** `list.index`: the first position holding `x`, None (ValueError) when there is none. */
  function FirstIndex<T(==)>(s: seq<T>, x: T): (r: Option<nat>)
    ensures r.None? <==> x !in s
    ensures r.Some? ==> r.value < |s| && s[r.value] == x && forall j | 0 <= j < r.value :: s[j] != x
  {
    if s == [] then None
    else if s[0] == x then Some(0)
    else match FirstIndex(s[1..], x)
      case None => None
      case Some(i) => Some(i + 1)
  }

  /** Next, the one after it, previous. */
  const Offsets: seq<int> := [1, 2, -1]

  /** The path at `target` if it is inside the list and not cached yet. */
  function Candidate<T(==)>(paths: seq<T>, target: int, cached: set<T>): (r: seq<T>)
    ensures |r| <= 1
    ensures r != [] <==> 0 <= target < |paths| && paths[target] !in cached
    ensures r != [] ==> r[0] == paths[target]
  {
    if 0 <= target < |paths| && paths[target] !in cached then [paths[target]] else []
  }

  function Candidates<T(==)>(paths: seq<T>, i: int, cached: set<T>): seq<T>
  {
    Candidate(paths, i + Offsets[0], cached) + Candidate(paths, i + Offsets[1], cached)
      + Candidate(paths, i + Offsets[2], cached)
  }

  /**
   * `preload_adjacent_images`: the uncached paths at offsets +1, +2 and -1 from
   * the current image, in that order.  `current` is None when there is no
   * current path (None or the empty string).  Nothing is selected for an empty
   * list or a current path that is not in the list.
   */
  function AdjacentToPreload<T(==)>(paths: seq<T>, current: Option<T>, cached: set<T>): (r: seq<T>)
    ensures |r| <= 3
    ensures forall p | p in r :: p in paths && p !in cached
    ensures paths == [] || current.None? || current.value !in paths ==> r == []
  {
    if paths == [] || current.None? then []
    else match FirstIndex(paths, current.value)
      case None => []
      case Some(i) => Candidates(paths, i, cached)
  }

  /** Every in-range, uncached neighbour at one of the three offsets is selected. */
  lemma AdjacentComplete<T>(paths: seq<T>, current: T, cached: set<T>, i: nat)
    requires i < |paths| && paths[i] == current
    requires forall j | 0 <= j < i :: paths[j] != current
    ensures var r := AdjacentToPreload(paths, Some(current), cached);
            && (i + 1 < |paths| && paths[i + 1] !in cached ==> paths[i + 1] in r)
            && (i + 2 < |paths| && paths[i + 2] !in cached ==> paths[i + 2] in r)
            && (1 <= i && paths[i - 1] !in cached ==> paths[i - 1] in r)
  {
    assert FirstIndex(paths, current) == Some(i);
    assert Offsets[0] == 1 && Offsets[1] == 2 && Offsets[2] == -1;
    var c0, c1, c2 := Candidate(paths, i + 1, cached), Candidate(paths, i + 2, cached), Candidate(paths, i - 1, cached);
    assert AdjacentToPreload(paths, Some(current), cached) == c0 + c1 + c2;
  }

  /** Only such neighbours are selected. */
  lemma AdjacentSound<T>(paths: seq<T>, current: T, cached: set<T>, i: nat)
    requires i < |paths| && paths[i] == current
    requires forall j | 0 <= j < i :: paths[j] != current
    ensures var r := AdjacentToPreload(paths, Some(current), cached);
            forall p | p in r :: exists k | 0 <= k < |Offsets| ::
              0 <= i + Offsets[k] < |paths| && paths[i + Offsets[k]] == p && p !in cached
  {
    assert FirstIndex(paths, current) == Some(i);
    var c0, c1, c2 := Candidate(paths, i + Offsets[0], cached), Candidate(paths, i + Offsets[1], cached),
                      Candidate(paths, i + Offsets[2], cached);
    forall p | p in c0 + c1 + c2
      ensures exists k | 0 <= k < |Offsets| :: 0 <= i + Offsets[k] < |paths| && paths[i + Offsets[k]] == p && p !in cached
    {
      if p in c0 {
        assert 0 < |Offsets|;
      } else if p in c1 {
        assert 1 < |Offsets|;
      } else {
        assert p in c2;
        assert 2 < |Offsets|;
      }
    }
  }

  /** The +1 neighbour, when selected, comes first; the -1 neighbour, when selected, comes last. */
  lemma AdjacentOrder<T>(paths: seq<T>, current: T, cached: set<T>, i: nat)
    requires i < |paths| && paths[i] == current
    requires forall j | 0 <= j < i :: paths[j] != current
    ensures var r := AdjacentToPreload(paths, Some(current), cached);
            && (i + 1 < |paths| && paths[i + 1] !in cached ==> |r| > 0 && r[0] == paths[i + 1])
            && (1 <= i && paths[i - 1] !in cached ==> |r| > 0 && r[|r| - 1] == paths[i - 1])
  {
    assert FirstIndex(paths, current) == Some(i);
    assert Offsets[0] == 1 && Offsets[1] == 2 && Offsets[2] == -1;
    var c0, c1, c2 := Candidate(paths, i + 1, cached), Candidate(paths, i + 2, cached), Candidate(paths, i - 1, cached);
    var r := c0 + c1 + c2;
    assert AdjacentToPreload(paths, Some(current), cached) == r;
    if i + 1 < |paths| && paths[i + 1] !in cached {
      assert r[0] == c0[0];
    }
    if 1 <= i && paths[i - 1] !in cached {
      assert r[|r| - 1] == c2[0];
    }
  }

  class ImagePreloadManager<P> {
    var cache: ODict<string, P>
    const maxCacheSize: nat

    ghost predicate Valid()
      reads this
    {
      OrderedDicts.Valid(cache) && 0 < maxCacheSize && |cache.keys| <= maxCacheSize
    }

    constructor(maxCacheSize: nat)
      requires maxCacheSize > 0
      ensures Valid() && cache.keys == [] && this.maxCacheSize == maxCacheSize
    {
      cache := EmptyDict();
      this.maxCacheSize := maxCacheSize;
    }

    /** The paths `preload_adjacent_images` would hand to the workers. */
    function PathsToPreload(paths: seq<string>, current: string): seq<string>
      reads this
    {
      AdjacentToPreload(paths, if current == "" then None else Some(current), cache.vals.Keys)
    }

    /**
     * `_on_image_preloaded`: drop the least recent entries while the cache is
     * full, then store the image.
     */
    method OnImagePreloaded(path: string, pixmap: P)
      requires Valid()
      modifies this
      ensures Valid()
      ensures cache == Store(Newest(old(cache), maxCacheSize - 1), path, pixmap)
      ensures path in cache.vals && cache.vals[path] == pixmap
    {
      var evicted := PopWhileFull(cache, maxCacheSize);
      NewestKeys(cache, maxCacheSize - 1);
      cache := Store(evicted, path, pixmap);
    }

    /** `get_preloaded_pixmap`: None on a miss; a hit becomes the most recent entry. */
    method GetPreloadedPixmap(path: string) returns (r: Option<P>)
      requires Valid()
      modifies this
      ensures Valid()
      ensures path !in old(cache.vals) ==> r.None? && cache == old(cache)
      ensures path in old(cache.vals) ==> r == Some(old(cache.vals[path])) && cache == MoveToEnd(old(cache), path)
    {
      if path in cache.vals {
        cache := MoveToEnd(cache, path);
        return Some(cache.vals[path]);
      }
      return None;
    }

    /** `clear_cache` */
    method ClearCache()
      requires Valid()
      modifies this
      ensures Valid() && cache.keys == [] && forall k :: k !in cache.vals
    {
      cache := EmptyDict();
    }

    /** `path in manager` */
    predicate Contains(path: string)
      reads this
    {
      path in cache.vals
    }
  }

  /** An image arriving for a path not yet cached becomes the most recent entry, and the size stays within the bound. */
  lemma PreloadedIsNewest<K(!new), P>(d: ODict<K, P>, maxCacheSize: nat, path: K, pixmap: P)
    requires OrderedDicts.Valid(d) && 0 < maxCacheSize && |d.keys| <= maxCacheSize && path !in d.vals
    ensures var r := Store(Newest(d, maxCacheSize - 1), path, pixmap);
            && |r.keys| <= maxCacheSize && r.keys[|r.keys| - 1] == path
            && r.keys[..|r.keys| - 1] == d.keys[|d.keys| - (|r.keys| - 1)..]
  {
    var e := Newest(d, maxCacheSize - 1);
    NewestKeys(d, maxCacheSize - 1);
    NewestValues(d, maxCacheSize - 1);
    assert path !in e.vals;
    var r := Store(e, path, pixmap);
    assert r.keys == e.keys + [path];
    assert r.keys[..|r.keys| - 1] == e.keys;
  }
}
