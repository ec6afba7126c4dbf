/**
 * Sequence helpers shared by the list-manipulating code: Python's list
 * indexing, deletion by index, descending sorts and index filters.
 */
module Seqs {
  import opened Wrappers

  predicate Distinct<T(==)>(s: seq<T>)
  {
    forall i, j | 0 <= i < j < |s| :: s[i] != s[j]
  }

  /**
   * Python list indexing: `xs[i]` for `-n <= i < n` addresses position `i mod n`;
   * any other `i` raises IndexError (here: None).
   */
  function PyIndex(i: int, n: nat): (r: Option<nat>)
    ensures r.Some? <==> 0 <= i + n && i < n
    ensures r.Some? ==> r.value < n && (r.value == i || r.value == i + n)
  {
    if 0 <= i < n then Some(i) else if 0 <= i + n && i < 0 then Some(i + n) else None
  }

  /** `del xs[i]` */
  function DelAt<T>(s: seq<T>, i: nat): (r: seq<T>)
    requires i < |s|
    ensures |r| == |s| - 1
    ensures forall k | 0 <= k < i :: r[k] == s[k]
    ensures forall k | i <= k < |r| :: r[k] == s[k + 1]
  {
    s[..i] + s[i + 1..]
  }

  /** The elements of `s` whose positions are not in `d`, in their original order. */
  function KeepIdx<T>(s: seq<T>, d: set<int>): (r: seq<T>)
    ensures |r| <= |s|
  {
    if s == [] then []
    else KeepIdx(s[..|s| - 1], d) + (if |s| - 1 in d then [] else [s[|s| - 1]])
  }

  /** The positions of `s` that are not in `d`, ascending. */
  function KeptPositions(n: nat, d: set<int>): (r: seq<nat>)
    ensures forall k | 0 <= k < |r| :: r[k] < n && r[k] !in d
    ensures forall k, l | 0 <= k < l < |r| :: r[k] < r[l]
    ensures forall x :: 0 <= x < n && x !in d ==> x in r
  {
    if n == 0 then [] else KeptPositions(n - 1, d) + (if n - 1 in d then [] else [n - 1])
  }

  /** `KeepIdx` is `s` read at the kept positions. */
  lemma {:induction false} KeepIdxAt<T>(s: seq<T>, d: set<int>)
    ensures |KeepIdx(s, d)| == |KeptPositions(|s|, d)|
    ensures forall k | 0 <= k < |KeepIdx(s, d)| :: KeepIdx(s, d)[k] == s[KeptPositions(|s|, d)[k]]
  {
    if s != [] {
      var init := s[..|s| - 1];
      KeepIdxAt(init, d);
      assert |init| == |s| - 1;
      forall k | 0 <= k < |KeepIdx(init, d)|
        ensures KeepIdx(init, d)[k] == s[KeptPositions(|s| - 1, d)[k]]
      {
        assert KeptPositions(|s| - 1, d)[k] < |s| - 1;
      }
    }
  }

  /** An element survives the filter exactly when some kept position holds it. */
  lemma KeepIdxMembers<T>(s: seq<T>, d: set<int>, x: T)
    ensures x in KeepIdx(s, d) <==> exists k :: 0 <= k < |s| && k !in d && s[k] == x
  {
    KeepIdxAt(s, d);
    var r, ps := KeepIdx(s, d), KeptPositions(|s|, d);
    if x in r {
      var j :| 0 <= j < |r| && r[j] == x;
      assert s[ps[j]] == x && ps[j] !in d;
    }
    if exists k :: 0 <= k < |s| && k !in d && s[k] == x {
      var k :| 0 <= k < |s| && k !in d && s[k] == x;
      assert k in ps;
      var j :| 0 <= j < |ps| && ps[j] == k;
      assert r[j] == x;
    }
  }

  /** Positions at or beyond the end of `a` do not matter to the filter. */
  lemma {:induction false} KeepIdxBeyond<T>(a: seq<T>, d: set<int>, e: set<int>)
    requires forall x :: 0 <= x < |a| ==> (x in d <==> x in e)
    ensures KeepIdx(a, d) == KeepIdx(a, e)
  {
    if a != [] {
      KeepIdxBeyond(a[..|a| - 1], d, e);
    }
  }

  /** A suffix that the filter does not touch is kept whole. */
  lemma {:induction false} KeepIdxAppendFree<T>(a: seq<T>, t: seq<T>, d: set<int>)
    requires forall x | x in d :: x < |a|
    ensures KeepIdx(a + t, d) == KeepIdx(a, d) + t
  {
    if t == [] {
      assert a + t == a;
    } else {
      var t' := t[..|t| - 1];
      assert (a + t)[..|a + t| - 1] == a + t';
      assert |a + t| - 1 !in d;
      assert (a + t)[|a + t| - 1] == t[|t| - 1];
      KeepIdxAppendFree(a, t', d);
      assert t == t' + [t[|t| - 1]];
    }
  }

  /** Deleting position `i` first and then positions all below `i` is one filter. */
  lemma KeepIdxDelAt<T>(s: seq<T>, i: nat, d: set<int>)
    requires i < |s|
    requires forall x | x in d :: x < i
    ensures KeepIdx(DelAt(s, i), d) == KeepIdx(s, d + {i})
  {
    var pre, post := s[..i], s[i + 1..];
    assert DelAt(s, i) == pre + post;
    KeepIdxAppendFree(pre, post, d);
    assert s == s[..i + 1] + post;
    KeepIdxAppendFree(s[..i + 1], post, d + {i});
    assert s[..i + 1][..i] == pre;
    KeepIdxBeyond(pre, d + {i}, d);
  }

  /** A list is in non-increasing order. */
  predicate NonIncreasing(s: seq<int>)
  {
    forall i, j | 0 <= i < j < |s| :: s[i] >= s[j]
  }

  function InsertDesc(x: int, s: seq<int>): seq<int>
  {
    if s == [] then [x]
    else if x >= s[0] then [x] + s
    else [s[0]] + InsertDesc(x, s[1..])
  }

  lemma {:induction false} InsertDescCount(x: int, s: seq<int>)
    ensures multiset(InsertDesc(x, s)) == multiset(s) + multiset{x}
  {
    if s != [] && x < s[0] {
      assert s == [s[0]] + s[1..];
      InsertDescCount(x, s[1..]);
    }
  }

  lemma {:induction false} InsertDescMembers(x: int, s: seq<int>)
    ensures forall y | y in InsertDesc(x, s) :: y == x || y in s
  {
    if s != [] && x < s[0] {
      InsertDescMembers(x, s[1..]);
    }
  }

  lemma {:induction false} InsertDescSorted(x: int, s: seq<int>)
    requires NonIncreasing(s)
    ensures NonIncreasing(InsertDesc(x, s))
  {
    if s != [] && x < s[0] {
      var t := s[1..];
      InsertDescSorted(x, t);
      InsertDescMembers(x, t);
      var r' := InsertDesc(x, t);
      assert forall y | y in r' :: y <= s[0];
      var r := [s[0]] + r';
      forall i, j | 0 <= i < j < |r| ensures r[i] >= r[j] {
        if i == 0 {
          assert r[j] in r';
        } else {
          assert r[i] == r'[i - 1] && r[j] == r'[j - 1];
        }
      }
    }
  }

  /** `sorted(xs, reverse=True)` */
  function SortDesc(s: seq<int>): (r: seq<int>)
    ensures NonIncreasing(r)
    ensures multiset(r) == multiset(s)
  {
    if s == [] then []
    else
      assert s == [s[0]] + s[1..];
      var rest := SortDesc(s[1..]);
      InsertDescSorted(s[0], rest);
      InsertDescCount(s[0], rest);
      InsertDesc(s[0], rest)
  }

  /**
   * The effect of `for i in order: if 0 <= i < len(xs): del xs[i]`.
   */
  function DeleteEach<T>(s: seq<T>, order: seq<int>): seq<T>
  {
    if order == [] then s
    else if 0 <= order[0] < |s| then DeleteEach(DelAt(s, order[0]), order[1..])
    else DeleteEach(s, order[1..])
  }

  /** In-range positions of a list of indices. */
  function InRange(order: seq<int>, n: nat): set<int>
  {
    set i | i in order && 0 <= i < n
  }

  /**
   * Deleting distinct indices in descending order removes exactly the
   * in-range ones and keeps the survivors in order.
   */
  lemma {:induction false} DeleteEachDescending<T>(s: seq<T>, order: seq<int>)
    requires forall i, j | 0 <= i < j < |order| :: order[i] > order[j]
    ensures DeleteEach(s, order) == KeepIdx(s, InRange(order, |s|))
  {
    if order == [] {
      assert KeepIdx(s, {}) == s by { KeepIdxAppendFree([], s, {}); assert [] + s == s; }
      assert InRange(order, |s|) == {};
    } else {
      var i, rest := order[0], order[1..];
      if 0 <= i < |s| {
        var s' := DelAt(s, i);
        DeleteEachDescending(s', rest);
        var d := InRange(rest, |s'|);
        assert forall x | x in d :: x < i by {
          forall x | x in d ensures x < i {
            var k :| 0 <= k < |rest| && rest[k] == x;
            assert order[k + 1] == x;
          }
        }
        KeepIdxDelAt(s, i, d);
        var full := InRange(order, |s|);
        forall x | 0 <= x < |s| ensures x in d + {i} <==> x in full {
          if x in full && x != i {
            var k :| 0 <= k < |order| && order[k] == x;
            assert k > 0;
            assert rest[k - 1] == x;
            assert x < i;
          }
        }
        KeepIdxBeyond(s, d + {i}, full);
      } else {
        DeleteEachDescending(s, rest);
        KeepIdxBeyond(s, InRange(rest, |s|), InRange(order, |s|));
      }
    }
  }

  /** Sorting distinct integers in descending order makes them strictly descending. */
  lemma SortDescStrict(s: seq<int>)
    requires Distinct(s)
    ensures forall i, j | 0 <= i < j < |SortDesc(s)| :: SortDesc(s)[i] > SortDesc(s)[j]
  {
    var r := SortDesc(s);
    forall i, j | 0 <= i < j < |r| ensures r[i] > r[j] {
      if r[i] == r[j] {
        TwoEqualCount(r, i, j);
        DistinctCount(s, r[i]);
        assert false;
      }
    }
  }

  lemma TwoEqualCount(r: seq<int>, i: nat, j: nat)
    requires i < j < |r| && r[i] == r[j]
    ensures multiset(r)[r[i]] >= 2
  {
    var x := r[i];
    var a, b := r[..i + 1], r[i + 1..];
    assert r == a + b;
    assert a[i] == x;
    assert x in multiset(a);
    assert b[j - i - 1] == x;
    assert x in multiset(b);
    assert multiset(r) == multiset(a) + multiset(b);
  }

  lemma {:induction false} DistinctCount(s: seq<int>, x: int)
    requires Distinct(s)
    ensures multiset(s)[x] <= 1
  {
    if s != [] {
      assert s == [s[0]] + s[1..];
      DistinctCount(s[1..], x);
      if s[0] == x {
        assert x !in s[1..];
      }
    }
  }

  /** Descending deletion of a duplicate-free index list filters exactly the in-range positions. */
  lemma DeleteSortedDistinct<T>(s: seq<T>, indices: seq<int>)
    requires Distinct(indices)
    ensures DeleteEach(s, SortDesc(indices)) == KeepIdx(s, InRange(indices, |s|))
  {
    SortDescStrict(indices);
    DeleteEachDescending(s, SortDesc(indices));
    var r := SortDesc(indices);
    forall x ensures x in r <==> x in indices {
      assert x in r <==> x in multiset(r);
      assert x in indices <==> x in multiset(indices);
    }
    assert InRange(r, |s|) == InRange(indices, |s|);
  }

  predicate Increasing(s: seq<int>)
  {
    forall i, j | 0 <= i < j < |s| :: s[i] < s[j]
  }

  /** Inserts `x` into an increasing list unless it is already there. */
  function InsertUnique(x: int, s: seq<int>): (r: seq<int>)
    requires Increasing(s)
    ensures Increasing(r)
    ensures forall y :: y in r <==> y == x || y in s
  {
    if s == [] then [x]
    else if x == s[0] then s
    else if x < s[0] then [x] + s
    else
      var t := InsertUnique(x, s[1..]);
      assert forall y | y in t :: y > s[0];
      ConsIncreasing(s[0], t);
      [s[0]] + t
  }

  lemma ConsIncreasing(a: int, t: seq<int>)
    requires Increasing(t) && forall y | y in t :: y > a
    ensures Increasing([a] + t)
  {
    var r := [a] + t;
    forall i, j | 0 <= i < j < |r| ensures r[i] < r[j] {
      assert r[j] == t[j - 1];
      if i > 0 {
        assert r[i] == t[i - 1];
      } else {
        assert t[j - 1] in t;
      }
    }
  }

  function SortedUnique(ids: seq<int>): (r: seq<int>)
    ensures Increasing(r)
    ensures forall y :: y in r <==> y in ids
  {
    if ids == [] then []
    else
      var init, last := ids[..|ids| - 1], ids[|ids| - 1];
      var r := SortedUnique(init);
      assert forall y :: y in ids <==> y in init || y == last by {
        assert ids == init + [last];
      }
      InsertUnique(last, r)
  }

  predicate IsMinOf(m: int, s: set<int>)
  {
    m in s && forall x | x in s :: m <= x
  }

  lemma {:induction false} SetHasMin(s: set<int>)
    requires s != {}
    ensures exists m :: IsMinOf(m, s)
    decreases |s|
  {
    assert exists y :: y in s by {
      if forall y :: y !in s {
        assert false;
      }
    }
    var y :| y in s;
    if s != {y} {
      var rest := s - {y};
      SetHasMin(rest);
      var m :| IsMinOf(m, rest);
      assert forall x | x in s :: x == y || x in rest;
      if y < m {
        assert IsMinOf(y, s);
      } else {
        assert IsMinOf(m, s);
      }
    } else {
      assert IsMinOf(y, s);
    }
  }

  /** The least element of a non-empty finite set. */
  function SetMin(s: set<int>): (m: int)
    requires s != {}
    ensures IsMinOf(m, s)
  {
    SetHasMin(s);
    var m :| IsMinOf(m, s);
    m
  }

  /** `sorted(s)` for a set of ints. */
  function SortedSet(s: set<int>): (r: seq<int>)
    ensures Increasing(r)
    ensures forall x :: x in r <==> x in s
    ensures |r| == |s|
    decreases |s|
  {
    if s == {} then []
    else
      var m := SetMin(s);
      var t := SortedSet(s - {m});
      assert forall k | 0 <= k < |t| :: m < t[k] by {
        forall k | 0 <= k < |t| ensures m < t[k] {
          assert t[k] in t;
        }
      }
      [m] + t
  }

  /** The greatest element of a non-empty finite set. */
  function SetMax(s: set<int>): (m: int)
    requires s != {}
    ensures m in s && forall x | x in s :: x <= m
  {
    var r := SortedSet(s);
    assert forall x | x in s :: x <= r[|r| - 1] by {
      forall x | x in s ensures x <= r[|r| - 1] {
        var j :| 0 <= j < |r| && r[j] == x;
        assert j == |r| - 1 || r[j] < r[|r| - 1];
      }
    }
    r[|r| - 1]
  }

  /** `list(range(lo, hi))` */
  function Range(lo: int, hi: int): (r: seq<int>)
    ensures |r| == if hi <= lo then 0 else hi - lo
    ensures forall k | 0 <= k < |r| :: r[k] == lo + k
  {
    if hi <= lo then [] else seq(hi - lo, k requires 0 <= k < hi - lo => lo + k)
  }

  /** Filtering with no listed position keeps everything. */
  lemma {:induction false} KeepIdxNone<T>(s: seq<T>, d: set<int>)
    requires forall x | 0 <= x < |s| :: x !in d
    ensures KeepIdx(s, d) == s
  {
    if s != [] {
      var init := s[..|s| - 1];
      KeepIdxNone(init, d);
      assert init + [s[|s| - 1]] == s;
    }
  }

  /** Filtering out exactly the positions from `m` on leaves the prefix of length `m`. */
  lemma {:induction false} KeepIdxTail<T>(s: seq<T>, m: nat, d: set<int>)
    requires m <= |s|
    requires forall x | 0 <= x < m :: x !in d
    requires forall x | m <= x < |s| :: x in d
    ensures KeepIdx(s, d) == s[..m]
  {
    if |s| == m {
      KeepIdxNone(s, d);
      assert s[..m] == s;
    } else {
      var init := s[..|s| - 1];
      KeepIdxTail(init, m, d);
      assert init[..m] == s[..m];
    }
  }

  /** `delete_segments([i])` on an in-range `i` is `del xs[i]`. */
  lemma DeleteOne<T>(s: seq<T>, i: nat)
    requires i < |s|
    ensures DeleteEach(s, SortDesc([i])) == DelAt(s, i)
  {
    assert SortDesc([i]) == [i];
  }

  /** The in-range members of `range(lo, n)` are the positions from `max(lo, 0)` on. */
  lemma RangeInRange(lo: int, n: nat)
    ensures Distinct(Range(lo, n))
    ensures forall x | 0 <= x < n :: x in InRange(Range(lo, n), n) <==> lo <= x
  {
    var r := Range(lo, n);
    forall i, j | 0 <= i < j < |r| ensures r[i] != r[j] {
      assert r[i] == lo + i && r[j] == lo + j;
    }
    forall x | 0 <= x < n ensures x in InRange(r, n) <==> lo <= x {
      if x in r {
        var k :| 0 <= k < |r| && r[k] == x;
      }
      if lo <= x {
        assert r[x - lo] == x;
      }
    }
  }

  /** Deleting the indices `range(len - count, len)` cuts the last `count` elements (all of them when `count >= len`). */
  lemma DeleteLast<T>(s: seq<T>, count: nat)
    ensures DeleteEach(s, SortDesc(Range(|s| - count, |s|))) == s[..if count <= |s| then |s| - count else 0]
  {
    var m := if count <= |s| then |s| - count else 0;
    var r := Range(|s| - count, |s|);
    var d := InRange(r, |s|);
    RangeInRange(|s| - count, |s|);
    assert forall x | 0 <= x < m :: x !in d;
    assert forall x | m <= x < |s| :: x in d;
    DeleteSortedDistinct(s, r);
    KeepIdxTail(s, m, d);
  }
}
