/**
 * The LRU cache of SAM image embeddings (`EmbeddingCacheManager` in
 * ui/managers/embedding_cache_manager.py), keyed by image hash.  An embedding
 * is opaque here; `None` is an absent embedding.
 */
module EmbeddingCache {
  import opened Wrappers
  import opened OrderedDicts

  class EmbeddingCacheManager<E> {
    var cache: ODict<string, E>
    const maxSize: nat

    ghost predicate Valid()
      reads this
    {
      OrderedDicts.Valid(cache) && |cache.keys| <= maxSize
    }

    constructor(maxSize: nat)
      ensures Valid() && cache.keys == [] && this.maxSize == maxSize
    {
      cache := EmptyDict();
      this.maxSize := maxSize;
    }

    /** `key in cache` */
    predicate Contains(key: string)
      reads this
    {
      key in cache.vals
    }

    /** `len(cache)` */
    function Len(): nat
      reads this
    {
      |cache.keys|
    }

    /** `get`: a miss returns None and changes nothing; a hit may make the key the most recent. */
    method Get(key: string, updateLru: bool) returns (r: Option<E>)
      requires Valid()
      modifies this
      ensures Valid()
      ensures key !in old(cache.vals) ==> r.None? && cache == old(cache)
      ensures key in old(cache.vals) ==>
                && r == Some(old(cache.vals[key]))
                && cache == (if updateLru then MoveToEnd(old(cache), key) else old(cache))
    {
      if key !in cache.vals {
        return None;
      }
      if updateLru {
        cache := MoveToEnd(cache, key);
      }
      r := Some(cache.vals[key]);
    }

    /** `put`: store, then drop the least recent entries while over `max_size`; `None` is ignored. */
    method Put(key: string, embeddings: Option<E>)
      requires Valid()
      modifies this
      ensures Valid()
      ensures embeddings.None? ==> cache == old(cache)
      ensures embeddings.Some? ==> cache == Newest(Store(old(cache), key, embeddings.value), maxSize)
      ensures embeddings.Some? && maxSize > 0 ==> Contains(key) && cache.vals[key] == embeddings.value
      ensures embeddings.Some? && key in old(cache.vals) ==> cache.keys == old(cache.keys)
    {
      if embeddings.None? {
        return;
      }
      var before := cache;
      var stored := Store(cache, key, embeddings.value);
      cache := PopWhileOver(stored, maxSize);
      NewestKeys(stored, maxSize);
      if maxSize > 0 {
        StoreThenNewest(before, key, embeddings.value, maxSize);
      }
      if key in before.vals {
        StoreExistingKeepsOrder(before, key, embeddings.value, maxSize);
      }
    }

    /** `clear` */
    method Clear()
      modifies this
      ensures Valid() && cache.keys == [] && forall k :: k !in cache.vals
      ensures Len() == 0 && forall k :: !Contains(k)
    {
      cache := EmptyDict();
    }

    /** `invalidate`: true exactly when the key was present, and only that key goes. */
    method Invalidate(key: string) returns (found: bool)
      requires Valid()
      modifies this
      ensures Valid()
      ensures found == (key in old(cache.vals))
      ensures cache == if found then Delete(old(cache), key) else old(cache)
    {
      found := key in cache.vals;
      if found {
        cache := Delete(cache, key);
      }
    }
  }
}
