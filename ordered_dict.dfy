/**
 * Python's `OrderedDict` as the caches use it: keys in order from least to
 * most recently inserted (or moved to the end), and a value per key.
 */
module OrderedDicts {
  import opened Seqs

  datatype ODict<K(==,!new), V> = ODict(keys: seq<K>, vals: map<K, V>)

  /** Each key is listed once, and exactly the listed keys have values. */
  ghost predicate Valid<K(!new), V>(d: ODict<K, V>)
  {
    Distinct(d.keys) && forall k :: k in d.vals <==> k in d.keys
  }

  function EmptyDict<K(==,!new), V>(): (r: ODict<K, V>)
    ensures Valid(r) && |r.keys| == 0 && forall k :: k !in r.vals
  {
    ODict([], map[])
  }

  lemma DistinctCons<K>(x: K, t: seq<K>, when: bool)
    requires when ==> Distinct(t) && x !in t
    ensures when ==> Distinct([x] + t)
  {
    if when {
      forall i, j | 0 <= i < j < |[x] + t|
        ensures ([x] + t)[i] != ([x] + t)[j]
      {
        if i == 0 {
          assert ([x] + t)[j] == t[j - 1];
        }
      }
    }
  }

  /** The keys other than `k`, in order. */
  function Without<K(==,!new)>(s: seq<K>, k: K): (r: seq<K>)
    ensures forall x :: x in r <==> x in s && x != k
    ensures Distinct(s) ==> Distinct(r)
    ensures Distinct(s) && k in s ==> |r| == |s| - 1
    ensures k !in s ==> r == s
  {
    if s == [] then []
    else if s[0] == k then
      var t := Without(s[1..], k);
      assert Distinct(s) ==> k !in s[1..];
      t
    else
      var t := Without(s[1..], k);
      assert s == [s[0]] + s[1..];
      assert Distinct(s) ==> s[0] !in s[1..];
      DistinctCons(s[0], t, Distinct(s));
      [s[0]] + t
  }

  /** The keys satisfying `keep`, in order. */
  function Filter<K(==,!new)>(s: seq<K>, keep: K -> bool): (r: seq<K>)
    ensures forall x :: x in r <==> x in s && keep(x)
    ensures Distinct(s) ==> Distinct(r)
    ensures |r| <= |s|
  {
    if s == [] then []
    else
      var t := Filter(s[1..], keep);
      assert s == [s[0]] + s[1..];
      assert Distinct(s) ==> s[0] !in s[1..];
      DistinctCons(s[0], t, Distinct(s));
      if keep(s[0]) then [s[0]] + t else t
  }

  /** `d[k] = v`: a new key goes last, a key already present keeps its place. */
  function Store<K(==,!new), V>(d: ODict<K, V>, k: K, v: V): (r: ODict<K, V>)
    requires Valid(d)
    ensures Valid(r)
    ensures r.vals == d.vals[k := v]
    ensures k in d.vals ==> r.keys == d.keys
    ensures k !in d.vals ==> r.keys == d.keys + [k]
  {
    if k in d.vals then ODict(d.keys, d.vals[k := v]) else ODict(d.keys + [k], d.vals[k := v])
  }

  /** `move_to_end(k)`: `k` becomes the most recent key; values are untouched. */
  function MoveToEnd<K(==,!new), V>(d: ODict<K, V>, k: K): (r: ODict<K, V>)
    requires Valid(d) && k in d.vals
    ensures Valid(r) && r.vals == d.vals
    ensures |r.keys| == |d.keys| && r.keys[|r.keys| - 1] == k
    ensures r.keys[..|r.keys| - 1] == Without(d.keys, k)
  {
    var r := ODict(Without(d.keys, k) + [k], d.vals);
    assert r.keys[..|r.keys| - 1] == Without(d.keys, k);
    r
  }

  /** `popitem(last=False)`: the least recent entry goes. */
  function PopOldest<K(==,!new), V>(d: ODict<K, V>): (r: ODict<K, V>)
    requires Valid(d) && d.keys != []
    ensures Valid(r)
    ensures r.keys == d.keys[1..] && r.vals == d.vals - {d.keys[0]}
  {
    assert d.keys == [d.keys[0]] + d.keys[1..];
    ODict(d.keys[1..], d.vals - {d.keys[0]})
  }

  /** `del d[k]` */
  function Delete<K(==,!new), V>(d: ODict<K, V>, k: K): (r: ODict<K, V>)
    requires Valid(d) && k in d.vals
    ensures Valid(r)
    ensures r.keys == Without(d.keys, k) && r.vals == d.vals - {k}
  {
    ODict(Without(d.keys, k), d.vals - {k})
  }

  /** The entries of the `n` most recent keys (all of them when there are no more than `n`). */
  function Newest<K(==,!new), V>(d: ODict<K, V>, n: nat): (r: ODict<K, V>)
    requires Valid(d)
    decreases |d.keys|
    ensures Valid(r)
  {
    if |d.keys| <= n then d else Newest(PopOldest(d), n)
  }

  /** Only the newest `n` keys stay, in their order. */
  lemma {:induction false} NewestKeys<K(!new), V>(d: ODict<K, V>, n: nat)
    requires Valid(d)
    decreases |d.keys|
    ensures |Newest(d, n).keys| == if |d.keys| <= n then |d.keys| else n
    ensures Newest(d, n).keys == d.keys[|d.keys| - (if |d.keys| <= n then |d.keys| else n)..]
  {
    if |d.keys| > n {
      var p := PopOldest(d);
      assert Newest(d, n) == Newest(p, n);
      assert p.keys == d.keys[1..];
      NewestKeys(p, n);
      if |p.keys| <= n {
        assert d.keys[|d.keys| - n..] == d.keys[1..];
      } else {
        DropDrop(d.keys, 1, |p.keys| - n);
      }
    } else {
      assert d.keys[0..] == d.keys;
    }
  }

  lemma DropDrop<T>(s: seq<T>, i: nat, j: nat)
    requires i + j <= |s|
    ensures s[i..][j..] == s[i + j..]
  {
  }

  /** The entries that stay keep their values. */
  lemma {:induction false} NewestValues<K(!new), V>(d: ODict<K, V>, n: nat)
    requires Valid(d)
    decreases |d.keys|
    ensures forall k | k in Newest(d, n).vals :: k in d.vals && Newest(d, n).vals[k] == d.vals[k]
  {
    if |d.keys| > n {
      var p := PopOldest(d);
      NewestValues(p, n);
    }
  }

  /** The entries whose key satisfies `keep`, in their order. */
  function Restrict<K(==,!new), V>(d: ODict<K, V>, keep: K -> bool): (r: ODict<K, V>)
    requires Valid(d)
    ensures Valid(r)
    ensures forall k :: k in r.vals <==> k in d.vals && keep(k)
    ensures forall k | k in r.vals :: r.vals[k] == d.vals[k]
    ensures r.keys == Filter(d.keys, keep)
  {
    ODict(Filter(d.keys, keep), map k | k in d.vals && keep(k) :: d.vals[k])
  }

  /** `while len(d) > limit: d.popitem(last=False)` */
  method PopWhileOver<K(==,!new), V>(d: ODict<K, V>, limit: nat) returns (r: ODict<K, V>)
    requires Valid(d)
    ensures r == Newest(d, limit)
  {
    r := d;
    while |r.keys| > limit
      invariant Valid(r)
      invariant Newest(r, limit) == Newest(d, limit)
      decreases |r.keys|
    {
      r := PopOldest(r);
    }
  }

  /**
   * `while len(d) >= limit: d.popitem(last=False)`.  With `limit == 0` the loop
   * would pop from an empty dict (KeyError), so a positive limit is required.
   */
  method PopWhileFull<K(==,!new), V>(d: ODict<K, V>, limit: nat) returns (r: ODict<K, V>)
    requires Valid(d) && limit > 0
    ensures r == Newest(d, limit - 1)
  {
    r := PopWhileOver(d, limit - 1);
  }

  /** Storing under a key already present changes neither the order nor the size. */
  lemma StoreExistingKeepsOrder<K(!new), V>(d: ODict<K, V>, k: K, v: V, n: nat)
    requires Valid(d) && |d.keys| <= n && k in d.vals
    ensures Newest(Store(d, k, v), n).keys == d.keys
    ensures Newest(Store(d, k, v), n).vals == d.vals[k := v]
  {
  }

  /** Storing a key when at most `n` keys are present and then keeping the `n` newest keeps that key. */
  lemma StoreThenNewest<K(!new), V>(d: ODict<K, V>, k: K, v: V, n: nat)
    requires Valid(d) && |d.keys| <= n && n > 0
    ensures var r := Newest(Store(d, k, v), n);
            k in r.vals && r.vals[k] == v && |r.keys| <= n
            && (k !in d.vals ==> r.keys[|r.keys| - 1] == k)
  {
    var s := Store(d, k, v);
    NewestKeys(s, n);
    NewestValues(s, n);
    if k in d.vals || |d.keys| < n {
      assert s.keys[|s.keys| - |s.keys|..] == s.keys;
    } else {
      var r := Newest(s, n);
      assert r.keys == s.keys[1..];
      assert k == s.keys[|s.keys| - 1] == r.keys[|r.keys| - 1];
    }
  }
}
