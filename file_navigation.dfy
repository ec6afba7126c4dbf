/**
 * The file list as the user sees it: the sort/filter proxy's hidden rows
 * (`FileSortProxyModel`) and the pair and range navigation of
 * `FastFileManager` over the proxy's row order (utils/fast_file_manager.py).
 *
 * The proxy's current order is `View.proxyRows`: proxy row `k` shows source
 * row `proxyRows[k]`, and a source row the proxy filters out is absent.  How
 * the proxy sorts (`lessThan`) and Qt's own filter are not modelled; the
 * latter is the `baseAccepts` argument of `FilterAcceptsRow`.
 */
module FileNavigation {
  import opened Wrappers
  import opened Seqs
  import opened FileModel

  class FileSortProxyModel {
    var customOrder: bool
    var hiddenSourceRows: set<int>

    constructor()
      ensures !customOrder && hiddenSourceRows == {}
    {
      customOrder := false;
      hiddenSourceRows := {};
    }

    /** `setCustomOrder` */
    method SetCustomOrder(enabled: bool)
      modifies this`customOrder
      ensures customOrder == enabled
    {
      customOrder := enabled;
    }

    /** `hideSourceRows`: the rows join those already hidden. */
    method HideSourceRows(rows: set<int>)
      modifies this`hiddenSourceRows
      ensures hiddenSourceRows == old(hiddenSourceRows) + rows
    {
      hiddenSourceRows := hiddenSourceRows + rows;
    }

    /** `showAllRows` */
    method ShowAllRows()
      modifies this`hiddenSourceRows
      ensures hiddenSourceRows == {}
    {
      if hiddenSourceRows != {} {
        hiddenSourceRows := {};
      }
    }

    /** `isCustomOrder` */
    function IsCustomOrder(): (r: bool)
      reads this`customOrder
      ensures r == customOrder
    {
      customOrder
    }

    /** `hasHiddenRows`: some row is hidden exactly when the hidden count is positive. */
    function HasHiddenRows(): (r: bool)
      reads this`hiddenSourceRows
      ensures r <==> HiddenCount() > 0
    {
      hiddenSourceRows != {}
    }

    /** `hiddenCount` */
    function HiddenCount(): nat
      reads this`hiddenSourceRows
    {
      |hiddenSourceRows|
    }

    /** `filterAcceptsRow`: a hidden row is rejected, any other is left to the base filter. */
    function FilterAcceptsRow(row: int, baseAccepts: bool): (r: bool)
      reads this`hiddenSourceRows
      ensures r <==> row !in hiddenSourceRows && baseAccepts
    {
      if row in hiddenSourceRows then false else baseAccepts
    }
  }

  /** The source rows the file list shows, in display order, with the model's files and path index. */
  datatype View = View(files: seq<FileInfo>, pathIndex: map<string, int>, proxyRows: seq<int>)

  /** The proxy shows each source row at most once and only rows that exist; the index is the model's. */
  predicate ViewOk(v: View)
  {
    Distinct(v.proxyRows)
    && (forall k | 0 <= k < |v.proxyRows| :: 0 <= v.proxyRows[k] < |v.files|)
    && v.pathIndex == PathIndex(v.files)
  }

  /** `mapFromSource`: the first proxy row showing `x`, or -1. */
  function IndexOf(s: seq<int>, x: int): (r: int)
    ensures r == -1 <==> x !in s
    ensures r != -1 ==> 0 <= r < |s| && s[r] == x && forall k | 0 <= k < r :: s[k] != x
  {
    if s == [] then -1
    else if s[0] == x then 0
    else
      var t := IndexOf(s[1..], x);
      if t == -1 then -1 else t + 1
  }

  /** In a list without repeats, the position of an entry is where it sits. */
  lemma IndexOfDistinct(s: seq<int>, k: nat)
    requires Distinct(s) && k < |s|
    ensures IndexOf(s, s[k]) == k
  {
    assert s[k] in s;
  }

  /** `_get_proxy_row_for_path`: -1 for an unknown path or a row the proxy does not show. */
  function ProxyRowFor(v: View, path: string): int
  {
    var source := if path in v.pathIndex then v.pathIndex[path] else -1;
    if source < 0 then -1 else IndexOf(v.proxyRows, source)
  }

  /** The path shown at proxy row `k`, or None outside the view or for a source row the model lacks. */
  function FileAt(v: View, k: int): Option<string>
  {
    if 0 <= k < |v.proxyRows| && 0 <= v.proxyRows[k] < |v.files| then Some(v.files[v.proxyRows[k]].path) else None
  }

  /** A proxy row found for a path does show that path. */
  lemma ProxyRowForSpec(v: View, path: string)
    requires ViewOk(v)
    ensures ProxyRowFor(v, path) == -1 || (0 <= ProxyRowFor(v, path) < |v.proxyRows| && FileAt(v, ProxyRowFor(v, path)) == Some(path))
  {
    PathIndexSpec(v.files);
  }

  /** With distinct paths, the path shown at a proxy row leads back to that row. */
  lemma ProxyRowOfFileAt(v: View, k: int)
    requires ViewOk(v) && 0 <= k < |v.proxyRows|
    requires forall i, j | 0 <= i < j < |v.files| :: v.files[i].path != v.files[j].path
    ensures FileAt(v, k).Some? && ProxyRowFor(v, FileAt(v, k).value) == k
  {
    PathIndexExact(v.files);
    IndexOfDistinct(v.proxyRows, k);
  }

  /** `getFilePairAtIndex`: the rows at `start` and `start + 1`, nothing when `start` is outside the view. */
  function GetFilePairAtIndex(v: View, start: int): (r: (Option<string>, Option<string>))
    ensures r.0.Some? || r.1.Some? ==> 0 <= start < |v.proxyRows|
    ensures r.1.Some? ==> start + 1 < |v.proxyRows|
  {
    if start < 0 || start >= |v.proxyRows| then (None, None)
    else (FileAt(v, start), if start + 1 < |v.proxyRows| then FileAt(v, start + 1) else None)
  }

  /** `getNextFilePair`: the two rows after the current pair, None past the end. */
  function GetNextFilePair(v: View, path: string): (r: (Option<string>, Option<string>))
    ensures ProxyRowFor(v, path) == -1 ==> r == (None, None)
    ensures r.1.Some? ==> r.0.Some? || ProxyRowFor(v, path) + 2 < |v.proxyRows|
  {
    var cur := ProxyRowFor(v, path);
    if cur == -1 then (None, None)
    else
      var next := cur + 2;
      var total := |v.proxyRows|;
      if next >= total then (None, None)
      else (FileAt(v, next), if next + 1 < total then FileAt(v, next + 1) else None)
  }

  /** `getPreviousFilePair`: the two rows before the current pair, nothing when fewer than two precede it. */
  function GetPreviousFilePair(v: View, path: string): (r: (Option<string>, Option<string>))
    ensures ProxyRowFor(v, path) < 2 ==> r == (None, None)
  {
    var cur := ProxyRowFor(v, path);
    if cur == -1 then (None, None)
    else
      var prev := cur - 2;
      if prev < 0 then (None, None)
      else (FileAt(v, prev), if prev + 1 < |v.proxyRows| then FileAt(v, prev + 1) else None)
  }

  /**
   * The next pair is the pair two rows after the current one and the previous
   * pair the one two rows before it, each read as `getFilePairAtIndex` reads
   * a pair; an unknown path gives no pair either way.
   */
  lemma PairsAreShiftedWindows(v: View, path: string)
    ensures var cur := ProxyRowFor(v, path);
            && (cur == -1 ==> GetNextFilePair(v, path) == (None, None) && GetPreviousFilePair(v, path) == (None, None))
            && (cur != -1 ==> GetNextFilePair(v, path) == GetFilePairAtIndex(v, cur + 2))
            && (cur != -1 ==> GetPreviousFilePair(v, path) == GetFilePairAtIndex(v, cur - 2))
  {
  }

  /**
   * Going one pair forward and one pair back returns to the pair started
   * from: the first file of the next pair leads back to the current path and
   * the row after it.
   */
  lemma NextThenPrevious(v: View, path: string)
    requires ViewOk(v)
    requires forall i, j | 0 <= i < j < |v.files| :: v.files[i].path != v.files[j].path
    requires GetNextFilePair(v, path).0.Some?
    ensures var cur := ProxyRowFor(v, path);
            && 0 <= cur && cur + 2 < |v.proxyRows|
            && GetPreviousFilePair(v, GetNextFilePair(v, path).0.value) == (Some(path), FileAt(v, cur + 1))
  {
    var cur := ProxyRowFor(v, path);
    ProxyRowForSpec(v, path);
    ProxyRowOfFileAt(v, cur + 2);
  }

  /** The paths of proxy rows `lo..hi`, skipping rows the model lacks. */
  function FilesBetween(v: View, lo: int, hi: int): seq<string>
    decreases hi - lo + 1
  {
    if hi < lo then []
    else FilesBetween(v, lo, hi - 1) + (match FileAt(v, hi) case Some(p) => [p] case None => [])
  }

  /** `getFilesInRange` as a value: nothing when either path is not shown, otherwise the span between them. */
  function FilesInRange(v: View, startPath: string, endPath: string): seq<string>
  {
    var a, b := ProxyRowFor(v, startPath), ProxyRowFor(v, endPath);
    if a == -1 || b == -1 then [] else if a <= b then FilesBetween(v, a, b) else FilesBetween(v, b, a)
  }

  /** In a well-formed view every row of a span within the view contributes its path. */
  lemma {:induction false} FilesBetweenSpec(v: View, lo: int, hi: int)
    requires ViewOk(v) && 0 <= lo && hi < |v.proxyRows|
    ensures |FilesBetween(v, lo, hi)| == if hi < lo then 0 else hi - lo + 1
    ensures forall k | 0 <= k < |FilesBetween(v, lo, hi)| :: FileAt(v, lo + k) == Some(FilesBetween(v, lo, hi)[k])
    decreases hi - lo + 1
  {
    if hi >= lo {
      FilesBetweenSpec(v, lo, hi - 1);
    }
  }

  /**
   * `getFilesInRange` does not care which end comes first, and for two
   * shown paths it returns the inclusive span from one to the other.
   */
  lemma FilesInRangeSpec(v: View, startPath: string, endPath: string)
    requires ViewOk(v)
    ensures FilesInRange(v, startPath, endPath) == FilesInRange(v, endPath, startPath)
    ensures var a, b := ProxyRowFor(v, startPath), ProxyRowFor(v, endPath);
            a != -1 && b != -1 ==>
              var lo, hi := if a <= b then a else b, if a <= b then b else a;
              && |FilesInRange(v, startPath, endPath)| == hi - lo + 1
              && FilesInRange(v, startPath, endPath)[a - lo] == startPath
              && FilesInRange(v, startPath, endPath)[b - lo] == endPath
  {
    var a, b := ProxyRowFor(v, startPath), ProxyRowFor(v, endPath);
    ProxyRowForSpec(v, startPath);
    ProxyRowForSpec(v, endPath);
    if a != -1 && b != -1 {
      var lo, hi := if a <= b then a else b, if a <= b then b else a;
      FilesBetweenSpec(v, lo, hi);
      assert FileAt(v, lo + (a - lo)) == Some(startPath);
      assert FileAt(v, lo + (b - lo)) == Some(endPath);
    }
  }

  /** `getFilesInRange`: walks the proxy rows of the span and collects the paths of those the model holds. */
  method GetFilesInRange(v: View, startPath: string, endPath: string) returns (files: seq<string>)
    ensures files == FilesInRange(v, startPath, endPath)
  {
    var a := ProxyRowFor(v, startPath);
    var b := ProxyRowFor(v, endPath);
    if a == -1 || b == -1 {
      return [];
    }
    if a > b {
      a, b := b, a;
    }
    files := [];
    var row := a;
    while row <= b
      invariant a <= row <= b + 1
      invariant files == FilesBetween(v, a, row - 1)
      decreases b - row
    {
      var info := FileAt(v, row);
      if info.Some? {
        files := files + [info.value];
      }
      row := row + 1;
    }
  }
}
