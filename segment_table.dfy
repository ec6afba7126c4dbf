/**
 * The segment table's index bookkeeping (ui/managers/segment_table_manager.py):
 * the class filter the combo box text selects, which segments pass it, and
 * how stored segment indices are renumbered when a segment is deleted, both in
 * the table's rows and in the scene items keyed by segment index.
 */
module SegmentTable {
  import opened Wrappers
  import opened Seqs
  import opened Text
  import opened Segments

  const AllClasses: string := "All Classes"

  /** The trailing run of non-spaces of a text whose last character is no space. */
  function TrailingWord(t: string): (r: string)
    ensures |r| <= |t| && r == t[|t| - |r|..]
    ensures forall k | 0 <= k < |r| :: !IsSpace(r[k])
    ensures |r| < |t| ==> IsSpace(t[|t| - |r| - 1])
  {
    if t == [] || IsSpace(t[|t| - 1]) then []
    else TrailingWord(t[..|t| - 1]) + [t[|t| - 1]]
  }

  /** `text.split()[-1]`: the last whitespace-separated word, None (IndexError) when there is none. */
  function LastWord(text: string): (r: Option<string>)
    ensures r.Some? ==> |r.value| > 0 && forall k | 0 <= k < |r.value| :: !IsSpace(r.value[k])
  {
    var t := StripRight(text);
    if t == [] then None else Some(TrailingWord(t))
  }

  /** The class id the text of a combo entry names, None where `int` or the indexing fails. */
  function FilterId(text: string): Option<int>
  {
    if ':' in text then ParseInt(AfterLast(text, ':'))
    else match LastWord(text) case None => None case Some(w) => ParseInt(w)
  }

  /**
   * `get_current_table_filter`: ("All Classes") shows every class; any other
   * text names the class id after its last colon, or in its last word; text
   * that names none falls back to showing every class, with id -1.
   */
  function CurrentTableFilter(text: string): (r: (bool, int))
    ensures text == AllClasses ==> r == (true, -1)
    ensures r.0 <==> text == AllClasses || FilterId(text).None?
    ensures r.0 ==> r.1 == -1
    ensures !r.0 ==> FilterId(text) == Some(r.1)
  {
    if text == AllClasses then (true, -1)
    else match FilterId(text) case None => (true, -1) case Some(id) => (false, id)
  }

  /** The text `update_class_filter` puts in the combo box for a class. */
  function FilterEntry(alias: string, classId: int): string
  {
    if alias != "" then alias + ": " + IntToString(classId) else "Class " + IntToString(classId)
  }

  lemma NoColonInInt(i: int)
    ensures ':' !in IntToString(i)
  {
    var s := IntToString(i);
    assert forall k | 0 <= k < |s| :: s[k] != ':';
  }

  /**
   * Choosing a class's entry in the filter combo box selects exactly that
   * class, whatever its alias (colons in the alias included).
   */
  lemma FilterEntryRoundTrip(alias: string, classId: int)
    ensures CurrentTableFilter(FilterEntry(alias, classId)) == (false, classId)
  {
    if alias != "" {
      AliasEntryRoundTrip(alias, classId);
    } else {
      ClassEntryRoundTrip(classId);
    }
  }

  /** The entry of an aliased class names its id after the colon `update_class_filter` puts there. */
  lemma AliasEntryRoundTrip(alias: string, classId: int)
    requires alias != ""
    ensures FilterId(alias + ": " + IntToString(classId)) == Some(classId)
    ensures alias + ": " + IntToString(classId) != AllClasses
  {
    var tail := " " + IntToString(classId);
    SpacedNumber(classId);
    ColonEntry(alias + ":", tail);
    ColonSpaceSplit(alias, IntToString(classId));
  }

  lemma ColonSpaceSplit(alias: string, digits: string)
    ensures alias + ": " + digits == (alias + ":") + (" " + digits)
  {
    var a := alias + ": " + digits;
    var b := (alias + ":") + (" " + digits);
    assert |a| == |b|;
    forall k | 0 <= k < |a| ensures a[k] == b[k] {
      if k < |alias| {
      } else if k == |alias| {
      } else if k == |alias| + 1 {
      } else {
        assert a[k] == digits[k - |alias| - 2];
      }
    }
  }

  /** A number after a space has no colon and parses back to the number. */
  lemma SpacedNumber(classId: int)
    ensures ':' !in " " + IntToString(classId)
    ensures ParseInt(" " + IntToString(classId)) == Some(classId)
  {
    var digits := IntToString(classId);
    var tail := " " + digits;
    NoColonInInt(classId);
    assert forall k | 1 <= k < |tail| :: tail[k] == digits[k - 1];
    IntToStringPadded(classId, " ", "");
    assert " " + digits + "" == tail;
  }

  /** Text made of a part ending in a colon and a colon-free rest names what the rest names. */
  lemma ColonEntry(pre: string, tail: string)
    requires |pre| > 0 && pre[|pre| - 1] == ':' && ':' !in tail
    ensures FilterId(pre + tail) == ParseInt(tail)
    ensures pre + tail != AllClasses
  {
    var text := pre + tail;
    AfterLastSuffix(pre, tail, ':');
    assert text[|pre| - 1] == ':';
    assert ':' !in AllClasses;
  }

  /** The entry of a class without alias names its id in its last word. */
  lemma ClassEntryRoundTrip(classId: int)
    ensures FilterId("Class " + IntToString(classId)) == Some(classId)
    ensures "Class " + IntToString(classId) != AllClasses
  {
    var digits := IntToString(classId);
    NoColonInInt(classId);
    var text := "Class " + digits;
    assert text[0] != AllClasses[0];
    assert forall k | 6 <= k < |text| :: text[k] == digits[k - 6];
    assert ':' !in text;
    ClassWord(digits);
    IntToStringRoundTrip(classId);
  }

  /** The last word of "Class " followed by a number is the number. */
  lemma ClassWord(digits: string)
    requires |digits| > 0 && forall k | 0 <= k < |digits| :: IsDigit(digits[k]) || (k == 0 && digits[k] == '-')
    ensures LastWord("Class " + digits) == Some(digits)
  {
    var text := "Class " + digits;
    assert !IsSpace(text[|text| - 1]);
    assert forall k | 0 <= k < |digits| :: !IsSpace(digits[k]);
    WordAfterSpace("Class", digits);
    assert text == "Class" + " " + digits;
  }

  lemma {:induction false} WordAfterSpace(pre: string, w: string)
    requires forall k | 0 <= k < |w| :: !IsSpace(w[k])
    ensures TrailingWord(pre + " " + w) == w
    decreases |w|
  {
    var t := pre + " " + w;
    if w == [] {
      assert t == pre + " ";
    } else {
      var init := w[..|w| - 1];
      assert t[..|t| - 1] == pre + " " + init;
      WordAfterSpace(pre, init);
      assert w == init + [w[|w| - 1]];
    }
  }

  /** `segment_passes_filter`: every segment when showing all, otherwise those of the chosen class. */
  function SegmentPassesFilter(seg: Segment, showAll: bool, filterClassId: int): (r: bool)
    ensures r <==> showAll || seg.classId == Some(filterClassId)
  {
    if showAll then true else seg.classId == Some(filterClassId)
  }

  /**
   * With the filter an entry selects, the segments that pass are exactly those
   * of that class; with "All Classes" every segment passes.
   */
  lemma FilterSelectsClass(alias: string, classId: int, seg: Segment)
    ensures var f := CurrentTableFilter(FilterEntry(alias, classId));
            SegmentPassesFilter(seg, f.0, f.1) <==> seg.classId == Some(classId)
    ensures var f := CurrentTableFilter(AllClasses);
            SegmentPassesFilter(seg, f.0, f.1)
  {
    FilterEntryRoundTrip(alias, classId);
  }

  /**
   * A scene item drawn for a segment; `hasInfo` says whether it has
   * `set_segment_info`, through which it learns its segment's index.
   */
  datatype SceneItem = SceneItem(segmentIndex: int, hasInfo: bool)

  function Retag(items: seq<SceneItem>, index: int): (r: seq<SceneItem>)
    ensures |r| == |items|
    ensures forall k | 0 <= k < |r| :: r[k] == if items[k].hasInfo then SceneItem(index, true) else items[k]
  {
    seq(|items|, k requires 0 <= k < |items| => if items[k].hasInfo then SceneItem(index, true) else items[k])
  }

  /** The old key whose items end up under key `k` once segment `d` is deleted. */
  function OldKey(k: int, d: int): int
  {
    if k < d then k else k + 1
  }

  /** Each key lowered by one. */
  function Lowered(keys: set<int>): set<int>
  {
    set j | j in keys :: j - 1
  }

  lemma LoweredHas(keys: set<int>, k: int)
    requires k + 1 in keys
    ensures k in Lowered(keys)
  {
    var j := k + 1;
    assert j in keys && j - 1 == k;
  }

  /**
   * The single-view `segment_items` after `shift_segment_items_after_deletion(d)`:
   * the items of `d` are dropped, those of a later segment move down one key
   * and are re-tagged with their new index, the earlier ones stay.
   */
  function ShiftedItems(items: map<int, seq<SceneItem>>, d: int): map<int, seq<SceneItem>>
  {
    var candidates := items.Keys + Lowered(items.Keys);
    map k | k in candidates && OldKey(k, d) in items :: if k < d then items[k] else Retag(items[k + 1], k)
  }

  /** Which keys the shift keeps, and what each one holds. */
  lemma ShiftedItemsSpec(items: map<int, seq<SceneItem>>, d: int)
    ensures forall k :: k in ShiftedItems(items, d) <==> OldKey(k, d) in items
    ensures forall k | k in ShiftedItems(items, d) ::
              ShiftedItems(items, d)[k] == if k < d then items[OldKey(k, d)] else Retag(items[OldKey(k, d)], k)
  {
    forall k | OldKey(k, d) in items ensures k in ShiftedItems(items, d) {
      if k >= d {
        LoweredHas(items.Keys, k);
      }
    }
  }

  /** Every item that can learn its index carries the key it is filed under. */
  predicate ItemsTagged(items: map<int, seq<SceneItem>>)
  {
    forall k, j | k in items && 0 <= j < |items[k]| :: items[k][j].hasInfo ==> items[k][j].segmentIndex == k
  }

  /**
   * The shift keeps items filed under their segment's current index: if the
   * keys were segment indices below `n` and every item knew its key, then
   * after deleting segment `d < n` the keys are below `n - 1` and every item
   * still knows its key.
   */
  lemma ShiftKeepsTags(items: map<int, seq<SceneItem>>, d: int, n: int)
    requires ItemsTagged(items)
    requires forall k | k in items :: 0 <= k < n
    requires 0 <= d < n
    ensures ItemsTagged(ShiftedItems(items, d))
    ensures forall k | k in ShiftedItems(items, d) :: 0 <= k < n - 1
  {
    ShiftedItemsSpec(items, d);
  }

  /** The entries of `items` under the keys in `keys`. */
  function Restrict(items: map<int, seq<SceneItem>>, keys: set<int>): map<int, seq<SceneItem>>
  {
    map j | j in items && j in keys :: items[j]
  }

  /** The key the items of old key `k` move to when segment `d` is deleted. */
  function NewKey(k: int, d: int): int
  {
    if k > d then k - 1 else k
  }

  /** Whether the shift keeps key `m`, one key at a time. */
  lemma ShiftedItemsHas(items: map<int, seq<SceneItem>>, d: int, m: int)
    ensures m in ShiftedItems(items, d) <==> OldKey(m, d) in items
  {
    if OldKey(m, d) in items && m >= d {
      LoweredHas(items.Keys, m);
    }
  }

  /** Handling one more old key adds its new key, unless it is the deleted segment's. */
  lemma ShiftStepKeys(items: map<int, seq<SceneItem>>, done: set<int>, k: int, d: int)
    requires k in items && k !in done
    ensures forall m :: m in ShiftedItems(Restrict(items, done + {k}), d) <==>
              m in ShiftedItems(Restrict(items, done), d) || (k != d && m == NewKey(k, d))
  {
    forall m ensures m in ShiftedItems(Restrict(items, done + {k}), d) <==>
                     m in ShiftedItems(Restrict(items, done), d) || (k != d && m == NewKey(k, d)) {
      ShiftedItemsHas(Restrict(items, done), d, m);
      ShiftedItemsHas(Restrict(items, done + {k}), d, m);
      var j := OldKey(m, d);
      assert j in Restrict(items, done + {k}) <==> j in items && (j in done || j == k);
      assert j in Restrict(items, done) <==> j in items && j in done;
      if j == k {
        assert k != d && m == NewKey(k, d);
      }
      if k != d && m == NewKey(k, d) {
        assert j == k;
      }
    }
  }

  /** Handling one more old key leaves the entries already built as they were. */
  lemma ShiftStepValues(items: map<int, seq<SceneItem>>, done: set<int>, k: int, d: int)
    requires k in items && k !in done
    ensures forall m | m in ShiftedItems(Restrict(items, done + {k}), d) ::
              if k != d && m == NewKey(k, d)
              then ShiftedItems(Restrict(items, done + {k}), d)[m] == (if k > d then Retag(items[k], m) else items[k])
              else m in ShiftedItems(Restrict(items, done), d) &&
                   ShiftedItems(Restrict(items, done + {k}), d)[m] == ShiftedItems(Restrict(items, done), d)[m]
  {
    forall m | m in ShiftedItems(Restrict(items, done + {k}), d)
      ensures if k != d && m == NewKey(k, d)
              then ShiftedItems(Restrict(items, done + {k}), d)[m] == (if k > d then Retag(items[k], m) else items[k])
              else m in ShiftedItems(Restrict(items, done), d) &&
                   ShiftedItems(Restrict(items, done + {k}), d)[m] == ShiftedItems(Restrict(items, done), d)[m]
    {
      ShiftStepValueAt(items, done, k, d, m);
    }
  }

  /** `ShiftStepValues` for one key of the result. */
  lemma ShiftStepValueAt(items: map<int, seq<SceneItem>>, done: set<int>, k: int, d: int, m: int)
    requires k in items && k !in done
    requires m in ShiftedItems(Restrict(items, done + {k}), d)
    ensures if k != d && m == NewKey(k, d)
            then ShiftedItems(Restrict(items, done + {k}), d)[m] == (if k > d then Retag(items[k], m) else items[k])
            else m in ShiftedItems(Restrict(items, done), d) &&
                 ShiftedItems(Restrict(items, done + {k}), d)[m] == ShiftedItems(Restrict(items, done), d)[m]
  {
    var after := Restrict(items, done + {k});
    var before := Restrict(items, done);
    var j := OldKey(m, d);
    ShiftedItemsHas(after, d, m);
    assert j in after;
    assert ShiftedItems(after, d)[m] == if m < d then after[j] else Retag(after[j], m);
    if j == k {
      assert k != d && m == NewKey(k, d);
      assert after[j] == items[k];
    } else {
      assert !(k != d && m == NewKey(k, d));
      assert j in before && before[j] == after[j];
      ShiftedItemsHas(before, d, m);
      assert ShiftedItems(before, d)[m] == if m < d then before[j] else Retag(before[j], m);
    }
  }

  /** Handling one more old key adds its entry, under its new key, to the shifted part. */
  lemma ShiftStep(items: map<int, seq<SceneItem>>, done: set<int>, k: int, d: int)
    requires k in items && k !in done
    ensures var before := ShiftedItems(Restrict(items, done), d);
            ShiftedItems(Restrict(items, done + {k}), d) ==
              if k > d then before[k - 1 := Retag(items[k], k - 1)]
              else if k < d then before[k := items[k]]
              else before
  {
    ShiftStepKeys(items, done, k, d);
    ShiftStepValues(items, done, k, d);
  }

  lemma PickKey(s: set<int>)
    requires s != {}
    ensures exists x :: x in s
  {
    if forall y :: y !in s {
      assert false;
    }
  }

  /** `shift_segment_items_after_deletion`, single view: rebuilds the dict one old key at a time. */
  method ShiftSegmentItems(items: map<int, seq<SceneItem>>, d: int) returns (r: map<int, seq<SceneItem>>)
    ensures r == ShiftedItems(items, d)
  {
    r := map[];
    var rest := items.Keys;
    assert Restrict(items, {}) == map[];
    assert ShiftedItems(map[], d) == map[] by {
      ShiftedItemsSpec(map[], d);
    }
    while rest != {}
      invariant rest <= items.Keys
      invariant r == ShiftedItems(Restrict(items, items.Keys - rest), d)
      decreases |rest|
    {
      assert exists x :: x in rest by { PickKey(rest); }
      var k :| k in rest;
      r := ShiftOne(items, items.Keys - rest, k, d, r);
      assert (items.Keys - rest) + {k} == items.Keys - (rest - {k});
      rest := rest - {k};
    }
    assert Restrict(items, items.Keys - rest) == items;
  }

  /** One pass of the loop of `ShiftSegmentItems`: files the items of old key `k`. */
  method ShiftOne(items: map<int, seq<SceneItem>>, done: set<int>, k: int, d: int, r: map<int, seq<SceneItem>>)
    returns (r': map<int, seq<SceneItem>>)
    requires k in items && k !in done
    requires r == ShiftedItems(Restrict(items, done), d)
    ensures r' == ShiftedItems(Restrict(items, done + {k}), d)
  {
    ShiftStep(items, done, k, d);
    if k > d {
      r' := r[k - 1 := Retag(items[k], k - 1)];
    } else if k < d {
      r' := r[k := items[k]];
    } else {
      r' := r;
    }
  }

  /** A table row's first cell: the segment index it stores (`UserRole`) and the text it shows. */
  datatype Cell = Cell(stored: Option<int>, text: string)

  /** The first row whose cell stores `index` (the loop that finds `row_to_remove`). */
  function RowFor(rows: seq<Option<Cell>>, index: int): (r: Option<nat>)
    ensures r.Some? ==> r.value < |rows| && StoresIndex(rows[r.value], index)
    ensures r.Some? ==> forall k | 0 <= k < r.value :: !StoresIndex(rows[k], index)
    ensures r.None? ==> forall k | 0 <= k < |rows| :: !StoresIndex(rows[k], index)
  {
    if rows == [] then None
    else
      var init := rows[..|rows| - 1];
      match RowFor(init, index)
      case Some(i) => Some(i)
      case None => if StoresIndex(rows[|rows| - 1], index) then Some(|rows| - 1) else None
  }

  predicate StoresIndex(row: Option<Cell>, index: int)
  {
    row.Some? && row.value.stored == Some(index)
  }

  /** A cell after the removal of segment `d`: an index above `d` moves down and shows its new 1-based number. */
  function ShiftCell(row: Option<Cell>, d: int): Option<Cell>
  {
    match row
    case Some(Cell(Some(i), _)) => if i > d then Some(Cell(Some(i - 1), IntToString(i))) else row
    case _ => row
  }

  function ShiftCells(rows: seq<Option<Cell>>, d: int): (r: seq<Option<Cell>>)
    ensures |r| == |rows| && forall k | 0 <= k < |r| :: r[k] == ShiftCell(rows[k], d)
  {
    seq(|rows|, k requires 0 <= k < |rows| => ShiftCell(rows[k], d))
  }

  /** The rows left once the row of `d`, if any, is taken out. */
  function KeptRows(rows: seq<Option<Cell>>, d: int): (r: seq<Option<Cell>>)
    ensures |r| == if RowFor(rows, d).Some? then |rows| - 1 else |rows|
  {
    match RowFor(rows, d) case Some(i) => DelAt(rows, i) case None => rows
  }

  /** The rows after `remove_row_from_segment_table(d)`: the row of `d` goes, later indices move down. */
  function RemovedRows(rows: seq<Option<Cell>>, d: int): seq<Option<Cell>>
  {
    ShiftCells(KeptRows(rows, d), d)
  }

  /** Each cell shows its stored index as a 1-based row number. */
  predicate Labelled(rows: seq<Option<Cell>>)
  {
    forall k | 0 <= k < |rows| && rows[k].Some? && rows[k].value.stored.Some? ::
      rows[k].value.text == IntToString(rows[k].value.stored.value + 1)
  }

  /** No two rows store the same index. */
  predicate UniqueIndices(rows: seq<Option<Cell>>)
  {
    forall i, j | 0 <= i < j < |rows| && rows[i].Some? && rows[j].Some? && rows[i].value.stored.Some? ::
      rows[i].value.stored != rows[j].value.stored
  }

  /** Where a segment's row ends up: gone for `d`, one lower above `d`. */
  function ShiftIndex(i: int, d: int): Option<int>
  {
    if i == d then None else if i > d then Some(i - 1) else Some(i)
  }

  /** Taking out the row of `d` takes out every row of `d`, and each remaining row is an old one. */
  lemma KeptRowsSpec(rows: seq<Option<Cell>>, d: int)
    requires Labelled(rows) && UniqueIndices(rows)
    ensures Labelled(KeptRows(rows, d)) && UniqueIndices(KeptRows(rows, d))
    ensures forall k | 0 <= k < |KeptRows(rows, d)| :: !StoresIndex(KeptRows(rows, d)[k], d)
    ensures forall k | 0 <= k < |KeptRows(rows, d)| ::
              exists j | k <= j <= k + 1 && j < |rows| :: KeptRows(rows, d)[k] == rows[j]
  {
    var kept := KeptRows(rows, d);
    match RowFor(rows, d)
    case None =>
      assert kept == rows;
      forall k | 0 <= k < |kept| ensures exists j | k <= j <= k + 1 && j < |rows| :: kept[k] == rows[j] {
        assert kept[k] == rows[k];
      }
    case Some(i) =>
      assert kept == DelAt(rows, i);
      forall k | 0 <= k < |kept|
        ensures kept[k] == rows[KeptSource(k, i)] && !StoresIndex(kept[k], d)
      {
        if k >= i {
          assert kept[k] == rows[k + 1];
          assert StoresIndex(rows[i], d);
        }
      }
      forall a, b | 0 <= a < b < |kept| && kept[a].Some? && kept[b].Some? && kept[a].value.stored.Some?
        ensures kept[a].value.stored != kept[b].value.stored
      {
        assert KeptSource(a, i) < KeptSource(b, i);
      }
      forall k | 0 <= k < |kept|
        ensures exists j | k <= j <= k + 1 && j < |rows| :: kept[k] == rows[j]
      {
        var j := KeptSource(k, i);
        assert kept[k] == rows[j];
      }
  }

  /** The old row that row `k` was before row `i` was taken out. */
  function KeptSource(k: int, i: int): int
  {
    if k < i then k else k + 1
  }

  /** Renumbering the rows of a table without `d` keeps it consistent. */
  lemma ShiftCellsSpec(rows: seq<Option<Cell>>, d: int)
    requires Labelled(rows) && UniqueIndices(rows)
    requires forall k | 0 <= k < |rows| :: !StoresIndex(rows[k], d)
    ensures Labelled(ShiftCells(rows, d)) && UniqueIndices(ShiftCells(rows, d))
  {
    var r := ShiftCells(rows, d);
    forall k | 0 <= k < |r| && r[k].Some? && r[k].value.stored.Some?
      ensures r[k].value.text == IntToString(r[k].value.stored.value + 1)
    {
      ShiftCellAt(rows[k], d);
    }
    forall i, j | 0 <= i < j < |r| && r[i].Some? && r[j].Some? && r[i].value.stored.Some?
      ensures r[i].value.stored != r[j].value.stored
    {
      ShiftCellAt(rows[i], d);
      ShiftCellAt(rows[j], d);
    }
  }

  /** One cell of `ShiftCells`: it keeps its label and stores the shifted index of the old one. */
  lemma ShiftCellAt(row: Option<Cell>, d: int)
    requires !StoresIndex(row, d)
    requires row.Some? && row.value.stored.Some? ==> row.value.text == IntToString(row.value.stored.value + 1)
    ensures ShiftCell(row, d).Some? <==> row.Some?
    ensures row.Some? ==> (ShiftCell(row, d).value.stored.Some? <==> row.value.stored.Some?)
    ensures row.Some? && row.value.stored.Some? ==>
              var c := ShiftCell(row, d).value;
              Some(c.stored.value) == ShiftIndex(row.value.stored.value, d) &&
              c.text == IntToString(c.stored.value + 1)
  {
  }

  /**
   * Removing the row of segment `d` from a consistent table leaves a
   * consistent table: the row of `d` is gone, each other row is an old row
   * renumbered, showing its new number, and no index is stored twice.
   */
  lemma RemovedRowsSpec(rows: seq<Option<Cell>>, d: int)
    requires Labelled(rows) && UniqueIndices(rows)
    ensures Labelled(RemovedRows(rows, d))
    ensures UniqueIndices(RemovedRows(rows, d))
    ensures forall k | 0 <= k < |RemovedRows(rows, d)| ::
              exists j | k <= j <= k + 1 && j < |rows| :: !StoresIndex(rows[j], d) && RemovedRows(rows, d)[k] == ShiftCell(rows[j], d)
    ensures |RemovedRows(rows, d)| == if RowFor(rows, d).Some? then |rows| - 1 else |rows|
  {
    var kept := KeptRows(rows, d);
    KeptRowsSpec(rows, d);
    ShiftCellsSpec(kept, d);
    var r := RemovedRows(rows, d);
    forall k | 0 <= k < |r|
      ensures exists j | k <= j <= k + 1 && j < |rows| :: !StoresIndex(rows[j], d) && r[k] == ShiftCell(rows[j], d)
    {
      var j :| k <= j <= k + 1 && j < |rows| && kept[k] == rows[j];
      assert !StoresIndex(rows[j], d) && r[k] == ShiftCell(rows[j], d);
    }
  }

  /** Applying the per-deletion renumbering for each removed index in turn; None once the segment was removed. */
  function ShiftThrough(i: Option<int>, ds: seq<int>): Option<int>
    decreases |ds|
  {
    if ds == [] then i
    else match i case None => None case Some(j) => ShiftThrough(ShiftIndex(j, ds[0]), ds[1..])
  }

  /** How many of `ds` lie below `i`. */
  function CountLess(ds: seq<int>, i: int): nat
  {
    if ds == [] then 0 else (if ds[0] < i then 1 else 0) + CountLess(ds[1..], i)
  }

  predicate StrictlyDecreasing(ds: seq<int>)
  {
    forall a, b | 0 <= a < b < |ds| :: ds[a] > ds[b]
  }

  lemma {:induction false} CountLessAll(ds: seq<int>, i: int)
    requires forall k | 0 <= k < |ds| :: ds[k] < i
    ensures CountLess(ds, i) == |ds|
  {
    if ds != [] {
      CountLessAll(ds[1..], i);
    }
  }

  /**
   * Why `update_lists_incremental` removes rows in descending index order:
   * then every surviving segment's stored index ends up lowered by exactly
   * the number of removed segments before it, and the removed ones are the
   * ones that go.
   */
  lemma {:induction false} DescendingRemovals(i: int, ds: seq<int>)
    requires StrictlyDecreasing(ds)
    ensures ShiftThrough(Some(i), ds) == if i in ds then None else Some(i - CountLess(ds, i))
    decreases |ds|
  {
    if ds != [] {
      var tail := ds[1..];
      assert StrictlyDecreasing(tail);
      assert forall k | 0 <= k < |tail| :: tail[k] < ds[0];
      if i == ds[0] {
        assert ShiftThrough(None, tail) == None;
      } else if i > ds[0] {
        assert i - 1 !in tail;
        DescendingRemovals(i - 1, tail);
        CountLessAll(tail, i - 1);
        CountLessAll(ds, i);
        assert i !in tail;
      } else {
        DescendingRemovals(i, tail);
      }
    }
  }

  /** In ascending order the same rule would delete the wrong rows: with removals 1 then 4, segment 5 would go. */
  lemma AscendingRemovalsGoWrong()
    ensures ShiftThrough(Some(5), [1, 4]) == None
    ensures 5 !in [1, 4]
  {
    assert [1, 4][1..] == [4];
  }

  /** The table view whose rows and scene items the manager renumbers. */
  class SegmentTableState {
    var rows: seq<Option<Cell>>
    var segmentItems: map<int, seq<SceneItem>>

    constructor()
      ensures rows == [] && segmentItems == map[]
    {
      rows := [];
      segmentItems := map[];
    }

    /** `remove_row_from_segment_table` */
    method RemoveRowFromTable(d: int)
      modifies this`rows
      ensures rows == RemovedRows(old(rows), d)
    {
      rows := RemoveRowLoops(rows, d);
    }

    /** `shift_segment_items_after_deletion` in single view */
    method ShiftSegmentItemsAfterDeletion(d: int)
      modifies this`segmentItems
      ensures segmentItems == ShiftedItems(old(segmentItems), d)
    {
      segmentItems := ShiftSegmentItems(segmentItems, d);
    }
  }

  /** The two loops of `remove_row_from_segment_table` over the rows as a value. */
  method RemoveRowLoops(rows: seq<Option<Cell>>, d: int) returns (r: seq<Option<Cell>>)
    ensures r == RemovedRows(rows, d)
  {
    var rowToRemove := FindRow(rows, d);
    var kept := if rowToRemove.Some? then DelAt(rows, rowToRemove.value) else rows;
    r := ShiftRows(kept, d);
  }

  /** The first loop: the row storing `index`, if any. */
  method FindRow(rows: seq<Option<Cell>>, index: int) returns (found: Option<nat>)
    ensures found == RowFor(rows, index)
  {
    found := None;
    var row := 0;
    while row < |rows|
      invariant 0 <= row <= |rows|
      invariant RowFor(rows[..row], index).None?
    {
      assert rows[..row + 1][..row] == rows[..row];
      if StoresIndex(rows[row], index) {
        found := Some(row);
        RowForPrefix(rows, row + 1, index);
        return;
      }
      row := row + 1;
    }
    assert rows[..row] == rows;
  }

  /** The second loop: lowers every stored index above `d` and shows the new number. */
  method ShiftRows(rows: seq<Option<Cell>>, d: int) returns (r: seq<Option<Cell>>)
    ensures r == ShiftCells(rows, d)
  {
    r := rows;
    var k := 0;
    while k < |r|
      invariant 0 <= k <= |r| == |rows|
      invariant forall i | 0 <= i < k :: r[i] == ShiftCell(rows[i], d)
      invariant forall i | k <= i < |r| :: r[i] == rows[i]
    {
      r := r[k := ShiftCell(r[k], d)];
      k := k + 1;
    }
  }

  /** Once found in a prefix, the first row for an index is found in the whole table. */
  lemma {:induction false} RowForPrefix(rows: seq<Option<Cell>>, n: nat, index: int)
    requires n <= |rows| && RowFor(rows[..n], index).Some?
    ensures RowFor(rows, index) == RowFor(rows[..n], index)
    decreases |rows| - n
  {
    if n < |rows| {
      assert rows[..n + 1][..n] == rows[..n];
      RowForPrefix(rows, n + 1, index);
    } else {
      assert rows[..n] == rows;
    }
  }
}
