/**
 * The file list's table model (`FastFileModel` in utils/fast_file_manager.py):
 * the list of files with its path-to-row index, drag-and-drop row moves, the
 * column layout (names, visibility, moves and the visible/logical index
 * conversions) and the highlighted frame range of a sequence.
 *
 * Qt signals, repaint requests and the background scanner are not modelled;
 * the scanner's batches arrive as `OnFilesFound` calls.
 */
module FileModel {
  import opened Wrappers
  import opened Seqs

  /** `FileInfo` without its lazily loaded thumbnail. */
  datatype FileInfo = FileInfo(path: string, name: string, size: int, modified: real, hasNpz: bool, hasTxt: bool)

  // ---------------------------------------------------------------- row moves

  /** `sum(1 for r in source_rows if r < dest_row)` */
  function CountBelow(src: seq<int>, dest: int): nat
  {
    if src == [] then 0
    else CountBelow(src[..|src| - 1], dest) + (if src[|src| - 1] < dest then 1 else 0)
  }

  /** What the drop handler passes: distinct rows of the list and a drop row from 0 to the row count. */
  predicate MoveOk(files: seq<FileInfo>, src: seq<int>, dest: int)
  {
    Distinct(src) && (forall i | 0 <= i < |src| :: 0 <= src[i] < |files|) && 0 <= dest <= |files|
  }

  /** `[self._files[r] for r in sorted(source_rows)]` */
  function Moved(files: seq<FileInfo>, src: seq<int>): seq<FileInfo>
    requires forall i | 0 <= i < |src| :: 0 <= src[i] < |files|
  {
    var order := SortedSet(set r | r in src);
    assert forall k | 0 <= k < |order| :: 0 <= order[k] < |files| by {
      forall k | 0 <= k < |order| ensures 0 <= order[k] < |files| {
        assert order[k] in order;
        var i :| 0 <= i < |src| && src[i] == order[k];
      }
    }
    seq(|order|, k requires 0 <= k < |order| => files[order[k]])
  }

  /**
   * `moveFileRows`: the rows that stay, cut at the drop row shifted down by
   * the moved rows above it, with the moved rows spliced in between.
   */
  function MoveRows(files: seq<FileInfo>, src: seq<int>, dest: int): seq<FileInfo>
    requires MoveOk(files, src, dest)
  {
    var d := set r | r in src;
    var remaining := KeepIdx(files, d);
    var adjusted := dest - CountBelow(src, dest);
    AdjustedDestBounds(files, src, dest);
    remaining[..adjusted] + Moved(files, src) + remaining[adjusted..]
  }

  /** How many positions below `m` lie in `d`. */
  function CountIn(m: nat, d: set<int>): nat
  {
    if m == 0 then 0 else CountIn(m - 1, d) + (if m - 1 in d then 1 else 0)
  }

  lemma {:induction false} CountInAdd(m: nat, d: set<int>, x: int)
    requires x !in d
    ensures CountIn(m, d + {x}) == CountIn(m, d) + (if 0 <= x < m then 1 else 0)
  {
    if m > 0 {
      CountInAdd(m - 1, d, x);
    }
  }

  /** For distinct rows, counting the list entries below `m` counts the rows below `m`. */
  lemma {:induction false} CountBelowCard(src: seq<int>, m: nat)
    requires Distinct(src) && forall i | 0 <= i < |src| :: 0 <= src[i]
    ensures CountBelow(src, m) == CountIn(m, set r | r in src)
  {
    if src != [] {
      var n := |src| - 1;
      var init, x := src[..n], src[n];
      CountBelowCard(init, m);
      assert src == init + [x];
      assert x !in init by {
        forall i | 0 <= i < n ensures init[i] != x {
          assert init[i] == src[i];
        }
      }
      var d0 := set r | r in init;
      assert (set r | r in src) == d0 + {x};
      CountInAdd(m, d0, x);
    } else {
      assert (set r | r in src) == {};
      CountInEmpty(m);
    }
  }

  lemma {:induction false} CountInEmpty(m: nat)
    ensures CountIn(m, {}) == 0
  {
    if m > 0 {
      CountInEmpty(m - 1);
    }
  }

  lemma {:induction false} CountBelowAll(src: seq<int>, m: int)
    requires forall i | 0 <= i < |src| :: src[i] < m
    ensures CountBelow(src, m) == |src|
  {
    if src != [] {
      CountBelowAll(src[..|src| - 1], m);
    }
  }

  /** Below `m`, every position is either kept or in `d`. */
  lemma {:induction false} KeptCount(m: nat, d: set<int>)
    ensures |KeptPositions(m, d)| + CountIn(m, d) == m
  {
    if m > 0 {
      KeptCount(m - 1, d);
    }
  }

  /** Keeping from a prefix gives a prefix of keeping from the whole. */
  lemma {:induction false} KeepIdxPrefix<T>(s: seq<T>, m: nat, d: set<int>)
    requires m <= |s|
    ensures |KeepIdx(s[..m], d)| <= |KeepIdx(s, d)|
    ensures KeepIdx(s, d)[..|KeepIdx(s[..m], d)|] == KeepIdx(s[..m], d)
    decreases |s|
  {
    if m == |s| {
      assert s[..m] == s;
    } else {
      var n := |s| - 1;
      KeepIdxPrefix(s[..n], m, d);
      assert s[..n][..m] == s[..m];
    }
  }

  /** The rows that stay and lie above the drop row number exactly the adjusted drop row. */
  lemma AdjustedDestBounds(files: seq<FileInfo>, src: seq<int>, dest: int)
    requires MoveOk(files, src, dest)
    ensures var d := set r | r in src;
            var adjusted := dest - CountBelow(src, dest);
            && adjusted == |KeepIdx(files[..dest], d)|
            && 0 <= adjusted <= |KeepIdx(files, d)|
            && KeepIdx(files, d)[..adjusted] == KeepIdx(files[..dest], d)
  {
    var d := set r | r in src;
    CountBelowCard(src, dest);
    KeptCount(dest, d);
    KeepIdxAt(files[..dest], d);
    KeepIdxPrefix(files, dest, d);
  }

  /** The elements of an increasing list after the first are the others. */
  lemma IncreasingTail(a: seq<int>)
    requires Increasing(a) && a != []
    ensures forall x | x in a :: a[0] <= x
    ensures forall x :: x in a[1..] <==> x in a && x != a[0]
  {
    forall x | x in a ensures a[0] <= x {
      var k :| 0 <= k < |a| && a[k] == x;
    }
    forall x ensures x in a[1..] <==> x in a && x != a[0] {
      if x in a && x != a[0] {
        var k :| 0 <= k < |a| && a[k] == x;
        assert a[1..][k - 1] == x;
      }
    }
  }

  /** Two increasing lists with the same elements are equal. */
  lemma {:induction false} IncreasingEqual(a: seq<int>, b: seq<int>)
    requires Increasing(a) && Increasing(b)
    requires forall x :: x in a <==> x in b
    ensures a == b
    decreases |a|
  {
    assert a != [] ==> a[0] in a;
    assert b != [] ==> b[0] in b;
    if a != [] && b != [] {
      IncreasingTail(a);
      IncreasingTail(b);
      assert a[0] in a && b[0] in b;
      assert a[0] == b[0];
      IncreasingEqual(a[1..], b[1..]);
      assert a == [a[0]] + a[1..] && b == [b[0]] + b[1..];
    }
  }

  /** The positions below `n` outside `d`. */
  function Complement(n: nat, d: set<int>): set<int>
  {
    set i | 0 <= i < n && i !in d
  }

  /** Positions split between `d` and `e` split the list's elements between the two kept lists. */
  lemma {:induction false} KeepIdxSplit<T>(s: seq<T>, d: set<int>, e: set<int>)
    requires forall i | 0 <= i < |s| :: i in d <==> i !in e
    ensures multiset(s) == multiset(KeepIdx(s, d)) + multiset(KeepIdx(s, e))
  {
    if s != [] {
      var n := |s| - 1;
      var init := s[..n];
      KeepIdxSplit(init, d, e);
      assert multiset(s) == multiset(init) + multiset{s[n]} by {
        assert s == init + [s[n]];
      }
      assert multiset(KeepIdx(s, d)) + multiset(KeepIdx(s, e)) ==
             multiset(KeepIdx(init, d)) + multiset(KeepIdx(init, e)) + multiset{s[n]} by {
        if n in d {
          assert KeepIdx(s, d) == KeepIdx(init, d);
          assert KeepIdx(s, e) == KeepIdx(init, e) + [s[n]];
        } else {
          assert KeepIdx(s, d) == KeepIdx(init, d) + [s[n]];
          assert KeepIdx(s, e) == KeepIdx(init, e);
        }
      }
    }
  }

  /** The moved rows are the rows kept when every other position is dropped. */
  lemma MovedIsKept(files: seq<FileInfo>, src: seq<int>)
    requires forall i | 0 <= i < |src| :: 0 <= src[i] < |files|
    ensures var d := set r | r in src;
            Moved(files, src) == KeepIdx(files, Complement(|files|, d))
  {
    var d := set r | r in src;
    var e := Complement(|files|, d);
    var order := SortedSet(d);
    var pos := KeptPositions(|files|, e);
    SameMembers(files, src, order, pos);
    IncreasingEqual(order, pos);
    KeepIdxAt(files, e);
    var moved, kept := Moved(files, src), KeepIdx(files, e);
    assert |moved| == |kept|;
    forall k | 0 <= k < |moved| ensures moved[k] == kept[k] {
    }
  }

  lemma SameMembers(files: seq<FileInfo>, src: seq<int>, order: seq<int>, pos: seq<int>)
    requires forall i | 0 <= i < |src| :: 0 <= src[i] < |files|
    requires order == SortedSet(set r | r in src)
    requires pos == KeptPositions(|files|, Complement(|files|, set r | r in src))
    ensures forall x :: x in order <==> x in pos
  {
    var d := set r | r in src;
    forall x ensures x in order <==> x in pos {
      if x in d {
        var i :| 0 <= i < |src| && src[i] == x;
      }
      if x in pos {
        var k :| 0 <= k < |pos| && pos[k] == x;
      }
    }
  }

  /** As many rows move as were named. */
  lemma MovedLength(files: seq<FileInfo>, src: seq<int>)
    requires MoveOk(files, src, 0)
    ensures |Moved(files, src)| == |src| == |SortedSet(set r | r in src)|
    ensures |KeepIdx(files, set r | r in src)| == |files| - |src|
    ensures multiset(files) == multiset(KeepIdx(files, set r | r in src)) + multiset(Moved(files, src))
  {
    var d := set r | r in src;
    var e := Complement(|files|, d);
    CountBelowCard(src, |files|);
    CountBelowAll(src, |files|);
    KeptCount(|files|, d);
    KeepIdxAt(files, d);
    MovedIsKept(files, src);
    KeepIdxSplit(files, d, e);
    assert |multiset(files)| == |files|;
  }

  /** `moveFileRows` rearranges the list without changing it. */
  lemma MoveRowsPermutes(files: seq<FileInfo>, src: seq<int>, dest: int)
    requires MoveOk(files, src, dest)
    ensures |MoveRows(files, src, dest)| == |files|
    ensures multiset(MoveRows(files, src, dest)) == multiset(files)
  {
    var d := set x | x in src;
    var adjusted := dest - CountBelow(src, dest);
    var remaining := KeepIdx(files, d);
    var moved := Moved(files, src);
    AdjustedDestBounds(files, src, dest);
    MovedLength(files, src);
    assert MoveRows(files, src, dest) == remaining[..adjusted] + moved + remaining[adjusted..];
    Splice(remaining, moved, adjusted);
  }

  /**
   * `moveFileRows`: the moved rows sit together at the adjusted drop row in
   * their original order; the rows above the drop row stay above them; all
   * other rows keep their order.
   */
  lemma MoveRowsLayout(files: seq<FileInfo>, src: seq<int>, dest: int)
    requires MoveOk(files, src, dest)
    ensures var r := MoveRows(files, src, dest);
            var d := set x | x in src;
            var adjusted := dest - CountBelow(src, dest);
            var order := SortedSet(d);
            && 0 <= adjusted && adjusted + |src| <= |r| && |order| == |src|
            && (forall k | 0 <= k < |src| :: 0 <= order[k] < |files| && r[adjusted + k] == files[order[k]])
            && r[..adjusted] == KeepIdx(files[..dest], d)
            && r[..adjusted] + r[adjusted + |src|..] == KeepIdx(files, d)
  {
    var d := set x | x in src;
    var adjusted := dest - CountBelow(src, dest);
    var remaining := KeepIdx(files, d);
    var moved := Moved(files, src);
    var order := SortedSet(d);
    var r := MoveRows(files, src, dest);
    AdjustedDestBounds(files, src, dest);
    assert |src| == |order| by {
      MovedLength(files, src);
    }
    assert r == remaining[..adjusted] + moved + remaining[adjusted..];
    MovedAt(files, src);
    assert |r| == |remaining| + |moved| && r[..adjusted] == remaining[..adjusted] && r[..adjusted] + r[adjusted + |moved|..] == remaining
           && forall k | 0 <= k < |moved| :: r[adjusted + k] == moved[k] by {
      Splice(remaining, moved, adjusted);
    }
    forall k | 0 <= k < |src| ensures 0 <= order[k] < |files| && r[adjusted + k] == files[order[k]] {
      assert r[adjusted + k] == moved[k];
    }
  }

  /** The moved rows are read off at the sorted source rows. */
  lemma MovedAt(files: seq<FileInfo>, src: seq<int>)
    requires forall i | 0 <= i < |src| :: 0 <= src[i] < |files|
    ensures var order := SortedSet(set x | x in src);
            && |Moved(files, src)| == |order|
            && forall k | 0 <= k < |order| :: 0 <= order[k] < |files| && Moved(files, src)[k] == files[order[k]]
  {
    var order := SortedSet(set x | x in src);
    forall k | 0 <= k < |order| ensures 0 <= order[k] < |files| {
      assert order[k] in order;
      var i :| 0 <= i < |src| && src[i] == order[k];
    }
  }

  /** Splicing a block into a list at `at`: the block sits at `at`, the list around it. */
  lemma Splice<T>(s: seq<T>, block: seq<T>, at: nat)
    requires at <= |s|
    ensures var r := s[..at] + block + s[at..];
            && |r| == |s| + |block| && multiset(r) == multiset(s) + multiset(block)
            && r[..at] == s[..at] && r[..at] + r[at + |block|..] == s
            && forall k | 0 <= k < |block| :: r[at + k] == block[k]
  {
    var r := s[..at] + block + s[at..];
    assert s == s[..at] + s[at..];
    assert r[at + |block|..] == s[at..];
  }

  // -------------------------------------------------------------- path index

  /** `{str(f.path): i for i, f in enumerate(files)}`: a later row overwrites an earlier one with the same path. */
  function PathIndex(files: seq<FileInfo>): map<string, int>
  {
    if files == [] then map[]
    else PathIndex(files[..|files| - 1])[files[|files| - 1].path := |files| - 1]
  }

  /** The index knows exactly the listed paths and sends each to the last row holding it. */
  lemma {:induction false} PathIndexSpec(files: seq<FileInfo>)
    ensures forall p :: p in PathIndex(files) <==> exists i :: 0 <= i < |files| && files[i].path == p
    ensures forall p | p in PathIndex(files) :: 0 <= PathIndex(files)[p] < |files| && files[PathIndex(files)[p]].path == p
    ensures forall i | 0 <= i < |files| :: files[i].path in PathIndex(files) && PathIndex(files)[files[i].path] >= i
  {
    if files != [] {
      var n := |files| - 1;
      var init := files[..n];
      var prev, m := PathIndex(init), PathIndex(files);
      PathIndexSpec(init);
      assert m == prev[files[n].path := n];
      forall p ensures p in m <==> exists i :: 0 <= i < |files| && files[i].path == p {
        if p in m && p != files[n].path {
          var i :| 0 <= i < n && init[i].path == p;
          assert files[i].path == p;
        }
        if exists i :: 0 <= i < |files| && files[i].path == p {
          var i :| 0 <= i < |files| && files[i].path == p;
          if i < n {
            assert init[i].path == p;
          }
        }
      }
      forall p | p in m ensures 0 <= m[p] < |files| && files[m[p]].path == p {
        if p != files[n].path {
          assert init[prev[p]] == files[prev[p]];
        }
      }
      forall i | 0 <= i < |files| ensures files[i].path in m && m[files[i].path] >= i {
        if i < n {
          assert init[i] == files[i];
        }
      }
    }
  }

  /** With distinct paths the index is exact: every row's path maps back to that row. */
  lemma PathIndexExact(files: seq<FileInfo>)
    requires forall i, j | 0 <= i < j < |files| :: files[i].path != files[j].path
    ensures forall i | 0 <= i < |files| :: files[i].path in PathIndex(files) && PathIndex(files)[files[i].path] == i
  {
    PathIndexSpec(files);
  }

  // ----------------------------------------------------------------- columns

  /** `sum(visible_columns)` */
  function CountTrue(s: seq<bool>): nat
  {
    if s == [] then 0 else CountTrue(s[..|s| - 1]) + (if s[|s| - 1] then 1 else 0)
  }

  /** `columnCount` is the number of visible columns. */
  lemma {:induction false} CountTrueCard(s: seq<bool>)
    ensures CountTrue(s) == |set i | 0 <= i < |s| && s[i]|
    ensures CountTrue(s) <= |s|
  {
    if s != [] {
      var n := |s| - 1;
      CountTrueCard(s[..n]);
      var a, b := set i | 0 <= i < n && s[..n][i], set i | 0 <= i < |s| && s[i];
      if s[n] {
        assert b == a + {n};
      } else {
        assert b == a;
      }
    }
  }

  lemma {:induction false} CountTrueGrows(s: seq<bool>, i: nat, j: nat)
    requires i < j <= |s|
    ensures CountTrue(s[..j]) >= CountTrue(s[..i]) + (if s[i] then 1 else 0)
    decreases j - i
  {
    assert s[..j][..j - 1] == s[..j - 1];
    if j - 1 > i {
      CountTrueGrows(s, i, j - 1);
    } else {
      assert s[..j][j - 1] == s[i];
    }
  }

  /**
   * `getVisibleColumnIndex` as intended: -1 for a hidden column or one
   * outside the list, otherwise how many visible columns precede it.
   */
  function VisibleIndex(vis: seq<bool>, c: int): int
  {
    if c < 0 || c >= |vis| || !vis[c] then -1 else CountTrue(vis[..c])
  }

  /**
   * `getVisibleColumnIndex` as written: only `c >= len` is rejected up
   * front, so a negative `c` reads Python's `vis[c]` from the end (None
   * stands for the IndexError below `-len`) and an empty `range(c)` then
   * gives 0.
   */
  function VisibleIndexAsWritten(vis: seq<bool>, c: int): Option<int>
  {
    if c >= |vis| then Some(-1)
    else match PyIndex(c, |vis|)
      case None => None
      case Some(k) => if !vis[k] then Some(-1) else Some(CountTrue(vis[..if c < 0 then 0 else c]))
  }

  /** The two agree on every column index from 0 up. */
  lemma VisibleIndexAgrees(vis: seq<bool>, c: int)
    requires c >= 0
    ensures VisibleIndexAsWritten(vis, c) == Some(VisibleIndex(vis, c))
  {
  }

  /** The default layout shows all five columns, and column -1 is then reported as visible column 0 instead of -1. */
  lemma NegativeColumnAsWritten()
    ensures VisibleIndexAsWritten([true, true, true, true, true], -1) == Some(0)
    ensures VisibleIndex([true, true, true, true, true], -1) == -1
    ensures LogicalIndex([true, true, true, true, true], 0) == 0
  {
    var vis := [true, true, true, true, true];
    assert vis[..0] == [];
    ColumnIndexRoundTrip(vis, 0, 0);
  }

  /** `getLogicalColumnIndex`: the position of the visible column numbered `v`, or -1. */
  function LogicalIndex(vis: seq<bool>, v: int): int
  {
    if vis == [] then -1
    else
      var n := |vis| - 1;
      var init := LogicalIndex(vis[..n], v);
      if init != -1 then init
      else if vis[n] && CountTrue(vis[..n]) == v then n
      else -1
  }

  lemma {:induction false} LogicalIndexSpec(vis: seq<bool>, v: int)
    ensures LogicalIndex(vis, v) == -1 <==> !(0 <= v < CountTrue(vis))
    ensures LogicalIndex(vis, v) != -1 ==>
              var i := LogicalIndex(vis, v);
              0 <= i < |vis| && vis[i] && CountTrue(vis[..i]) == v
  {
    if vis != [] {
      var n := |vis| - 1;
      LogicalIndexSpec(vis[..n], v);
      assert vis[..n] == vis[..|vis| - 1];
      var init := LogicalIndex(vis[..n], v);
      if init != -1 {
        assert vis[..n][init] == vis[init];
        assert vis[..n][..init] == vis[..init];
      }
    }
  }

  /**
   * The two conversions are inverse: a visible column's visible index leads
   * back to it, and a visible index in range leads to a column that reports
   * it.  Anything else gives -1 both ways.
   */
  lemma ColumnIndexRoundTrip(vis: seq<bool>, c: int, v: int)
    ensures 0 <= c < |vis| && vis[c] ==> LogicalIndex(vis, VisibleIndex(vis, c)) == c
    ensures 0 <= v < CountTrue(vis) ==> VisibleIndex(vis, LogicalIndex(vis, v)) == v
    ensures !(0 <= c < |vis| && vis[c]) ==> VisibleIndex(vis, c) == -1
    ensures !(0 <= v < CountTrue(vis)) ==> LogicalIndex(vis, v) == -1
  {
    LogicalIndexSpec(vis, v);
    if 0 <= c < |vis| && vis[c] {
      var w := CountTrue(vis[..c]);
      CountTrueGrows(vis, c, |vis|);
      assert vis[..|vis|] == vis;
      LogicalIndexSpec(vis, w);
      var i := LogicalIndex(vis, w);
      if i < c {
        CountTrueGrows(vis, i, c);
      } else if i > c {
        CountTrueGrows(vis, c, i);
      }
    }
  }

  /** `list.insert(i, x)` for an index within the list. */
  function InsertAt<T>(s: seq<T>, i: nat, x: T): (r: seq<T>)
    requires i <= |s|
  {
    s[..i] + [x] + s[i..]
  }

  /** `s.insert(to, s.pop(from))` */
  function MoveItem<T>(s: seq<T>, from: nat, to: nat): seq<T>
    requires from < |s| && to < |s|
  {
    InsertAt(DelAt(s, from), to, s[from])
  }

  /** Where position `i` of a list after `MoveItem(_, from, to)` came from. */
  function MovedFrom(from: int, to: int, i: int): int
  {
    if i == to then from
    else if from < to && from <= i < to then i + 1
    else if to < from && to < i <= from then i - 1
    else i
  }

  /**
   * The item at `from` lands at `to`, the items between shift by one toward
   * the gap, the rest stay.  Any two lists moved alike stay aligned.
   */
  lemma MoveItemSpec<T>(s: seq<T>, from: nat, to: nat)
    requires from < |s| && to < |s|
    ensures |MoveItem(s, from, to)| == |s|
    ensures forall i | 0 <= i < |s| :: 0 <= MovedFrom(from, to, i) < |s| && MoveItem(s, from, to)[i] == s[MovedFrom(from, to, i)]
  {
  }

  /** Moving back undoes a move. */
  lemma MoveItemBack<T>(s: seq<T>, from: nat, to: nat)
    requires from < |s| && to < |s|
    ensures MoveItem(MoveItem(s, from, to), to, from) == s
  {
    MoveItemSpec(s, from, to);
    MoveItemSpec(MoveItem(s, from, to), to, from);
  }

  // ---------------------------------------------------------- highlighting

  /** `set(range(lo, hi + 1))` */
  function Span(lo: int, hi: int): set<int>
  {
    var r := Range(lo, hi + 1);
    set i | i in r
  }

  lemma SpanSpec(lo: int, hi: int)
    ensures forall i :: i in Span(lo, hi) <==> lo <= i <= hi
  {
    var r := Range(lo, hi + 1);
    forall i ensures i in Span(lo, hi) <==> lo <= i <= hi {
      if lo <= i <= hi {
        assert r[i - lo] == i;
      }
    }
  }

  /** The least and greatest highlighted rows of a span are its ends. */
  lemma SpanBounds(lo: int, hi: int)
    requires lo <= hi
    ensures Span(lo, hi) != {} && SetMin(Span(lo, hi)) == lo && SetMax(Span(lo, hi)) == hi
  {
    SpanSpec(lo, hi);
    assert lo in Span(lo, hi) && hi in Span(lo, hi);
  }

  /** The rows from the lower of `a` and `b` to the higher. */
  function SpanBetween(a: int, b: int): set<int>
  {
    Span(if a <= b then a else b, if a <= b then b else a)
  }

  /** The rows `setHighlightedRange` highlights, with the least and the greatest of them. */
  method HighlightSpan(a: int, b: int) returns (lo: int, hi: int, rows: set<int>)
    ensures lo == (if a <= b then a else b) && hi == (if a <= b then b else a)
    ensures rows == SpanBetween(a, b)
    ensures rows != {} && SetMin(rows) == lo && SetMax(rows) == hi
  {
    lo, hi := a, b;
    if lo > hi {
      lo, hi := hi, lo;
    }
    SpanBounds(lo, hi);
    rows := Span(lo, hi);
  }

  /** The layout `__init__` sets up: Name, NPZ, TXT, Modified, Size, all visible. */
  const DefaultColumns: seq<string> := ["Name", "NPZ", "TXT", "Modified", "Size"]

  class FastFileModel {
    var files: seq<FileInfo>
    var pathToIndex: map<string, int>
    var allColumns: seq<string>
    var visibleColumns: seq<bool>
    var highlightedRows: set<int>
    var startRow: Option<int>
    var endRow: Option<int>

    /** The path index always describes the current list; names and visibility are parallel lists. */
    ghost predicate Valid()
      reads this
    {
      pathToIndex == PathIndex(files) && |allColumns| == |visibleColumns|
    }

    constructor()
      ensures Valid()
      ensures files == [] && pathToIndex == map[]
      ensures allColumns == DefaultColumns && visibleColumns == [true, true, true, true, true]
      ensures highlightedRows == {} && startRow.None? && endRow.None?
    {
      files := [];
      pathToIndex := map[];
      allColumns := DefaultColumns;
      visibleColumns := [true, true, true, true, true];
      highlightedRows := {};
      startRow := None;
      endRow := None;
    }

    /** `rowCount` */
    function RowCount(): nat
      reads this`files
    {
      |files|
    }

    /** `getFileInfo`: None outside the list. */
    function GetFileInfo(index: int): (r: Option<FileInfo>)
      reads this`files
      ensures r.Some? <==> 0 <= index < |files|
      ensures r.Some? ==> r.value == files[index]
    {
      if 0 <= index < |files| then Some(files[index]) else None
    }

    /** `getFileIndex`: the path's row, or -1. */
    function GetFileIndex(path: string): (r: int)
      requires Valid()
      reads this
      ensures r == -1 || (0 <= r < |files| && files[r].path == path)
      ensures r == -1 <==> forall i | 0 <= i < |files| :: files[i].path != path
    {
      PathIndexSpec(files);
      if path in pathToIndex then pathToIndex[path] else -1
    }

    /** `moveFileRows` followed by `_rebuild_path_index`. */
    method MoveFileRows(src: seq<int>, dest: int)
      requires Valid() && MoveOk(files, src, dest)
      modifies this`files, this`pathToIndex
      ensures Valid()
      ensures files == MoveRows(old(files), src, dest)
    {
      var moved := MoveRows(files, src, dest);
      files, pathToIndex := moved, PathIndex(moved);
    }

    /** `_on_files_found`: the batch is appended row by row, each path indexed at its new row. */
    method OnFilesFound(batch: seq<FileInfo>)
      requires Valid()
      modifies this`files, this`pathToIndex
      ensures Valid()
      ensures files == old(files) + batch
    {
      ghost var f0 := files;
      var fs, index := files, pathToIndex;
      var startRow := |fs|;
      for i := 0 to |batch|
        invariant fs == f0 + batch[..i] && index == PathIndex(fs) && startRow == |f0|
      {
        var idx := startRow + i;
        assert (fs + [batch[i]])[..|fs|] == fs;
        fs := fs + [batch[i]];
        index := index[batch[i].path := idx];
        assert batch[..i + 1] == batch[..i] + [batch[i]];
      }
      assert batch[..|batch|] == batch;
      files, pathToIndex := fs, index;
    }

    /** `columnCount` */
    function ColumnCount(): nat
      reads this`visibleColumns
    {
      CountTrue(visibleColumns)
    }

    /** `getVisibleColumnIndex`, with negative columns rejected (see `VisibleIndexAsWritten`). */
    method GetVisibleColumnIndex(c: int) returns (r: int)
      ensures r == VisibleIndex(visibleColumns, c)
    {
      if c < 0 || c >= |visibleColumns| || !visibleColumns[c] {
        return -1;
      }
      r := 0;
      for i := 0 to c
        invariant r == CountTrue(visibleColumns[..i])
      {
        assert visibleColumns[..i + 1][..i] == visibleColumns[..i];
        if visibleColumns[i] {
          r := r + 1;
        }
      }
    }

    /** `getLogicalColumnIndex`: counts visible columns until the one numbered `v`. */
    method GetLogicalColumnIndex(v: int) returns (r: int)
      ensures r == LogicalIndex(visibleColumns, v)
    {
      var vis := visibleColumns;
      var count := 0;
      for i := 0 to |vis|
        invariant count == CountTrue(vis[..i])
        invariant LogicalIndex(vis[..i], v) == -1
      {
        assert vis[..i + 1][..i] == vis[..i];
        if vis[i] {
          if count == v {
            LogicalIndexExtend(vis, i + 1, v);
            return i;
          }
          count := count + 1;
        }
      }
      assert vis[..|vis|] == vis;
      r := -1;
    }

    /** `setColumnVisible`: an index outside the list is ignored. */
    method SetColumnVisible(c: int, visible: bool)
      modifies this`visibleColumns
      ensures visibleColumns == if 0 <= c < |old(visibleColumns)| then old(visibleColumns)[c := visible] else old(visibleColumns)
    {
      if 0 <= c < |visibleColumns| && visibleColumns[c] != visible {
        visibleColumns := visibleColumns[c := visible];
      }
    }

    /** `isColumnVisible`: false outside the list. */
    function IsColumnVisible(c: int): (r: bool)
      reads this`visibleColumns
      ensures r <==> 0 <= c < |visibleColumns| && visibleColumns[c]
    {
      if 0 <= c < |visibleColumns| then visibleColumns[c] else false
    }

    /** `moveColumn`: name and visibility move together; invalid or equal indices change nothing. */
    method MoveColumn(from: int, to: int)
      requires Valid()
      modifies this`allColumns, this`visibleColumns
      ensures Valid()
      ensures if 0 <= from < |old(allColumns)| && 0 <= to < |old(allColumns)| && from != to then
                allColumns == MoveItem(old(allColumns), from, to) && visibleColumns == MoveItem(old(visibleColumns), from, to)
              else
                allColumns == old(allColumns) && visibleColumns == old(visibleColumns)
    {
      if 0 <= from < |allColumns| && 0 <= to < |allColumns| && from != to {
        allColumns, visibleColumns := MoveItem(allColumns, from, to), MoveItem(visibleColumns, from, to);
      }
    }

    /** `setHighlightedRange`: the span between the two rows, whichever comes first; the ends are kept as given. */
    method SetHighlightedRange(a: int, b: int)
      modifies this`highlightedRows, this`startRow, this`endRow
      ensures highlightedRows == SpanBetween(a, b)
      ensures startRow == Some(a) && endRow == Some(b)
      ensures GetHighlightedRange() == Some((if a <= b then a else b, if a <= b then b else a))
    {
      var lo, hi, rows := HighlightSpan(a, b);
      startRow, endRow := Some(a), Some(b);
      highlightedRows := rows;
    }

    /** `clearHighlightedRange` */
    method ClearHighlightedRange()
      modifies this`highlightedRows, this`startRow, this`endRow
      ensures highlightedRows == {} && startRow.None? && endRow.None?
      ensures GetHighlightedRange().None?
    {
      highlightedRows, startRow, endRow := {}, None, None;
    }

    /** `getHighlightedRange`: the least and greatest highlighted rows, or None. */
    function GetHighlightedRange(): (r: Option<(int, int)>)
      reads this`highlightedRows
      ensures r.None? <==> highlightedRows == {}
      ensures r.Some? ==> IsMinOf(r.value.0, highlightedRows) && r.value.1 in highlightedRows
      ensures r.Some? ==> forall x | x in highlightedRows :: r.value.0 <= x <= r.value.1
    {
      if highlightedRows != {} then Some((SetMin(highlightedRows), SetMax(highlightedRows))) else None
    }
  }

  /** A prefix with no visible column numbered `v` extends by one position as `LogicalIndex` says. */
  lemma LogicalIndexExtend(vis: seq<bool>, m: nat, v: int)
    requires 0 < m <= |vis|
    requires LogicalIndex(vis[..m - 1], v) == -1 && vis[m - 1] && CountTrue(vis[..m - 1]) == v
    ensures LogicalIndex(vis, v) == m - 1
  {
    LogicalIndexSpec(vis[..m], v);
    LogicalIndexFirst(vis, m, v);
  }

  /** Once a prefix finds the visible column numbered `v`, the whole list finds the same one. */
  lemma {:induction false} LogicalIndexFirst(vis: seq<bool>, m: nat, v: int)
    requires 0 < m <= |vis|
    requires LogicalIndex(vis[..m - 1], v) == -1 && vis[m - 1] && CountTrue(vis[..m - 1]) == v
    ensures LogicalIndex(vis[..m], v) == m - 1
    ensures LogicalIndex(vis, v) == m - 1
    decreases |vis|
  {
    assert vis[..m][..m - 1] == vis[..m - 1];
    if m < |vis| {
      var n := |vis| - 1;
      assert vis[..n][..m] == vis[..m];
      assert vis[..n][..m - 1] == vis[..m - 1];
      LogicalIndexFirst(vis[..n], m, v);
    } else {
      assert vis[..m] == vis;
    }
  }
}
