/**
 * The state of the sequence timeline (`TimelineWidget` in
 * ui/widgets/timeline_widget.py) without its painting: the frame count, the
 * current frame, one status string per frame, and the display order that
 * "Sort" rearranges by status priority together with its reverse lookup.
 *
 * `frame_statuses` is a dict whose insertion order shows in the status
 * getters, so it is an `ODict`.  Confidence scores are reals.
 */
module Timeline {
  import opened Seqs
  import opened OrderedDicts

  /** `_STATUS_PRIORITY.get(status, 3)`: lower sorts further left. */
  function Priority(status: string): (r: int)
    ensures 0 <= r <= 5
    ensures r == 3 <== status == "pending"
  {
    if status == "reference" then 0
    else if status == "saved" then 1
    else if status == "propagated" then 2
    else if status == "pending" then 3
    else if status == "flagged" then 4
    else if status == "skipped" then 5
    else 3
  }

  /** The sort key's first part: a frame without a status counts as pending. */
  function PriorityOf(st: map<int, string>, idx: int): int
  {
    Priority(if idx in st then st[idx] else "pending")
  }

  /** `(priority, idx) < (priority', idx')`, the order `sorted` produces for the key. */
  predicate KeyBefore(st: map<int, string>, a: int, b: int)
  {
    PriorityOf(st, a) < PriorityOf(st, b) || (PriorityOf(st, a) == PriorityOf(st, b) && a < b)
  }

  predicate SortedByKey(st: map<int, string>, s: seq<int>)
  {
    forall i, j | 0 <= i < j < |s| :: KeyBefore(st, s[i], s[j])
  }

  /** The frames below `n` whose priority is `p`, in index order. */
  function WithPriority(st: map<int, string>, n: nat, p: int): seq<int>
  {
    if n == 0 then []
    else WithPriority(st, n - 1, p) + (if PriorityOf(st, n - 1) == p then [n - 1] else [])
  }

  /** The frames of priority below `k`, priority by priority. */
  function Buckets(st: map<int, string>, n: nat, k: nat): seq<int>
  {
    if k == 0 then [] else Buckets(st, n, k - 1) + WithPriority(st, n, k - 1)
  }

  /** The display order `sort_by_status` computes: every priority from 0 to 5 in turn. */
  function StatusOrder(st: map<int, string>, n: nat): seq<int>
  {
    Buckets(st, n, 6)
  }

  lemma {:induction false} WithPrioritySpec(st: map<int, string>, n: nat, p: int)
    ensures forall x :: x in WithPriority(st, n, p) <==> 0 <= x < n && PriorityOf(st, x) == p
    ensures Increasing(WithPriority(st, n, p))
  {
    if n > 0 {
      WithPrioritySpec(st, n - 1, p);
      var a := WithPriority(st, n - 1, p);
      if PriorityOf(st, n - 1) == p {
        var s := a + [n - 1];
        forall i, j | 0 <= i < j < |s| ensures s[i] < s[j] {
          if j == |a| {
            assert s[i] == a[i] && a[i] in a;
          }
        }
      }
    }
  }

  lemma {:induction false} BucketsSpec(st: map<int, string>, n: nat, k: nat)
    ensures forall x :: x in Buckets(st, n, k) <==> 0 <= x < n && PriorityOf(st, x) < k
    ensures SortedByKey(st, Buckets(st, n, k))
  {
    if k > 0 {
      var a, b := Buckets(st, n, k - 1), WithPriority(st, n, k - 1);
      BucketsSpec(st, n, k - 1);
      WithPrioritySpec(st, n, k - 1);
      assert Buckets(st, n, k) == a + b;
      forall x ensures x in a + b <==> 0 <= x < n && PriorityOf(st, x) < k {
        assert x in a + b <==> x in a || x in b;
      }
      forall i, j | 0 <= i < j < |b| ensures KeyBefore(st, b[i], b[j]) {
        assert b[i] in b && b[j] in b;
      }
      SortedConcat(st, a, b);
    }
  }

  /** Two lists sorted by the key stay sorted one after the other when every frame of the first comes before every frame of the second. */
  lemma SortedConcat(st: map<int, string>, a: seq<int>, b: seq<int>)
    requires SortedByKey(st, a) && SortedByKey(st, b)
    requires forall x, y | x in a && y in b :: KeyBefore(st, x, y)
    ensures SortedByKey(st, a + b)
  {
    var s := a + b;
    forall i, j | 0 <= i < j < |s| ensures KeyBefore(st, s[i], s[j]) {
      if j < |a| {
        assert s[i] == a[i] && s[j] == a[j];
      } else if i >= |a| {
        assert s[i] == b[i - |a|] && s[j] == b[j - |a|];
      } else {
        assert s[i] == a[i] && a[i] in a;
        assert s[j] == b[j - |a|] && b[j - |a|] in b;
      }
    }
  }

  /** Adding frame `n - 1` puts it into the bucket of its priority and leaves the rest as they were. */
  lemma {:induction false} BucketsGrow(st: map<int, string>, n: nat, k: nat)
    requires n > 0
    ensures multiset(Buckets(st, n, k))
            == multiset(Buckets(st, n - 1, k)) + (if PriorityOf(st, n - 1) < k then multiset{n - 1} else multiset{})
  {
    if k > 0 {
      BucketsGrow(st, n, k - 1);
    }
  }

  /** Once every priority is included, the buckets hold each frame exactly once. */
  lemma {:induction false} BucketsPermute(st: map<int, string>, n: nat, k: nat)
    requires k >= 6
    ensures multiset(Buckets(st, n, k)) == multiset(Range(0, n))
  {
    if n > 0 {
      BucketsPermute(st, n - 1, k);
      BucketsGrow(st, n, k);
      assert PriorityOf(st, n - 1) < k;
      RangeSnoc(n);
    } else {
      BucketsEmpty(st, k);
    }
  }

  lemma RangeSnoc(n: nat)
    requires n > 0
    ensures multiset(Range(0, n)) == multiset(Range(0, n - 1)) + multiset{n - 1}
  {
    assert Range(0, n) == Range(0, n - 1) + [n - 1];
  }

  lemma {:induction false} BucketsEmpty(st: map<int, string>, k: nat)
    ensures Buckets(st, 0, k) == []
  {
    if k > 0 {
      BucketsEmpty(st, k - 1);
    }
  }

  /**
   * `sort_by_status`: the display order lists every frame exactly once,
   * ordered by status priority and then by index.
   */
  lemma StatusOrderSpec(st: map<int, string>, n: nat)
    ensures multiset(StatusOrder(st, n)) == multiset(Range(0, n))
    ensures |StatusOrder(st, n)| == n && Distinct(StatusOrder(st, n))
    ensures forall x :: x in StatusOrder(st, n) <==> 0 <= x < n
    ensures SortedByKey(st, StatusOrder(st, n))
  {
    BucketsPermute(st, n, 6);
    BucketsSpec(st, n, 6);
    assert |multiset(StatusOrder(st, n))| == |multiset(Range(0, n))|;
  }

  /** Without any status every frame is pending, so the sort keeps the natural order. */
  lemma {:induction false} StatusOrderUnsorted(n: nat)
    ensures StatusOrder(map[], n) == Range(0, n)
  {
    var st: map<int, string> := map[];
    StatusOrderSpec(st, n);
    var r := StatusOrder(st, n);
    forall i | 0 <= i < n ensures r[i] == i {
      RankOfIndex(r, n, i);
    }
  }

  /** In an increasing list of `n` elements all within `[0, n)`, position `i` holds `i`. */
  lemma RankOfIndex(r: seq<int>, n: nat, i: nat)
    requires |r| == n && i < n
    requires forall a, b | 0 <= a < b < |r| :: r[a] < r[b]
    requires forall x :: x in r <==> 0 <= x < n
    ensures r[i] == i
  {
    var k := 0;
    assert r[0] in r;
    while k < i
      invariant k <= i && r[k] >= k
    {
      assert r[k] < r[k + 1];
      k := k + 1;
    }
    k := n - 1;
    assert r[n - 1] in r;
    while k > i
      invariant i <= k <= n - 1 && r[k] <= k
    {
      assert r[k - 1] < r[k];
      k := k - 1;
    }
  }

  /**
   * `{real_idx: display_pos for display_pos, real_idx in enumerate(order)}`:
   * a later position overwrites an earlier one.
   */
  function ReverseOf(order: seq<int>): map<int, int>
  {
    if order == [] then map[]
    else ReverseOf(order[..|order| - 1])[order[|order| - 1] := |order| - 1]
  }

  /** The reverse lookup knows exactly the listed frames and sends each back to a position holding it. */
  lemma {:induction false} ReverseOfSpec(order: seq<int>)
    ensures forall x :: x in ReverseOf(order) <==> x in order
    ensures forall x | x in ReverseOf(order) :: 0 <= ReverseOf(order)[x] < |order| && order[ReverseOf(order)[x]] == x
  {
    if order != [] {
      var n := |order| - 1;
      ReverseOfSpec(order[..n]);
      assert order == order[..n] + [order[n]];
    }
  }

  /** For a display order without repeats, the reverse lookup is its inverse. */
  lemma ReverseOfInverse(order: seq<int>)
    requires Distinct(order)
    ensures forall p | 0 <= p < |order| :: order[p] in ReverseOf(order) && ReverseOf(order)[order[p]] == p
  {
    ReverseOfSpec(order);
    forall p | 0 <= p < |order|
      ensures order[p] in ReverseOf(order) && ReverseOf(order)[order[p]] == p
    {
      assert order[p] in order;
      var q := ReverseOf(order)[order[p]];
      assert order[q] == order[p];
    }
  }

  /** `{i: i for i in range(n)}` is the reverse lookup of the natural order. */
  lemma IdentityIsReverse(n: nat)
    ensures ReverseOf(Range(0, n)) == map i | i in Range(0, n) :: i
  {
    var r := Range(0, n);
    ReverseOfInverse(r);
    ReverseOfSpec(r);
    var a, b := ReverseOf(r), map i | i in Range(0, n) :: i;
    assert forall x :: x in a <==> x in b by {
      forall x ensures x in a <==> x in b {
        if 0 <= x < n { assert r[x] == x; }
      }
    }
    forall x | x in a ensures a[x] == b[x] {
      assert r[x] == x;
    }
  }

  /** The indices whose status is `status`, in the order they were first given a status. */
  function FramesWith(d: ODict<int, string>, status: string): (r: seq<int>)
    requires Valid(d)
    ensures Distinct(r)
    ensures forall k :: k in r <==> k in d.vals && d.vals[k] == status
  {
    Filter(d.keys, k => k in d.vals && d.vals[k] == status)
  }

  /** The statuses of `batch` stored in its order, skipping frames outside `[0, total)`. */
  function StoreBatch(d: ODict<int, string>, batch: ODict<int, string>, n: nat, total: int): (r: ODict<int, string>)
    requires Valid(d) && Valid(batch) && n <= |batch.keys|
    ensures Valid(r)
  {
    if n == 0 then d
    else
      var init := StoreBatch(d, batch, n - 1, total);
      var k := batch.keys[n - 1];
      if 0 <= k < total then Store(init, k, batch.vals[k]) else init
  }

  /** After a batch, a frame's status is the batch's when the frame is in range, and the old one otherwise. */
  lemma {:induction false} StoreBatchSpec(d: ODict<int, string>, batch: ODict<int, string>, n: nat, total: int)
    requires Valid(d) && Valid(batch) && n <= |batch.keys|
    ensures var r := StoreBatch(d, batch, n, total);
            && (forall k :: k in r.vals <==> k in d.vals || (k in batch.keys[..n] && 0 <= k < total))
            && (forall k | k in r.vals :: r.vals[k] == if k in batch.keys[..n] && 0 <= k < total then batch.vals[k] else d.vals[k])
  {
    if n > 0 {
      StoreBatchSpec(d, batch, n - 1, total);
      assert batch.keys[..n] == batch.keys[..n - 1] + [batch.keys[n - 1]];
    }
  }

  /** Every status belongs to a frame of the timeline; the display order is a permutation of the frames with its inverse beside it. */
  ghost predicate TimelineInv(total: int, statuses: ODict<int, string>, order: seq<int>, reverse: map<int, int>)
  {
    && total >= 0
    && Valid(statuses)
    && (forall k | k in statuses.vals :: 0 <= k < total)
    && multiset(order) == multiset(Range(0, total))
    && reverse == ReverseOf(order)
  }

  class TimelineWidget {
    var totalFrames: int
    var currentFrame: int
    var frameStatuses: ODict<int, string>
    var frameNames: seq<string>
    var confidenceScores: map<int, real>
    var displayOrder: seq<int>
    var reverseOrder: map<int, int>
    var sorted: bool

    ghost predicate Valid()
      reads this
    {
      TimelineInv(totalFrames, frameStatuses, displayOrder, reverseOrder)
    }

    /** No frames, frame 0 current, nothing sorted. */
    constructor()
      ensures Valid()
      ensures totalFrames == 0 && currentFrame == 0 && frameStatuses.keys == [] && frameNames == []
      ensures confidenceScores == map[] && displayOrder == [] && reverseOrder == map[] && !sorted
    {
      totalFrames := 0;
      currentFrame := 0;
      frameStatuses := EmptyDict();
      frameNames := [];
      confidenceScores := map[];
      displayOrder := [];
      reverseOrder := map[];
      sorted := false;
    }

    /** `set_frame_count`: a negative count is 0; statuses, names and scores go, and the order is natural again. */
    method SetFrameCount(count: int)
      modifies this
      ensures Valid()
      ensures totalFrames == if count < 0 then 0 else count
      ensures frameStatuses.keys == [] && frameStatuses.vals == map[] && frameNames == [] && confidenceScores == map[]
      ensures displayOrder == Range(0, totalFrames) && reverseOrder == (map i | i in Range(0, totalFrames) :: i) && !sorted
      ensures currentFrame == old(currentFrame)
    {
      totalFrames := if count < 0 then 0 else count;
      frameStatuses := EmptyDict();
      frameNames := [];
      confidenceScores := map[];
      ResetDisplayOrder();
    }

    /** `_reset_display_order` */
    method ResetDisplayOrder()
      requires totalFrames >= 0 && OrderedDicts.Valid(frameStatuses)
      requires forall k | k in frameStatuses.vals :: 0 <= k < totalFrames
      modifies this`displayOrder, this`reverseOrder, this`sorted
      ensures Valid()
      ensures displayOrder == Range(0, totalFrames) && reverseOrder == (map i | i in Range(0, totalFrames) :: i) && !sorted
    {
      displayOrder := Range(0, totalFrames);
      reverseOrder := map i | i in Range(0, totalFrames) :: i;
      sorted := false;
      IdentityIsReverse(totalFrames);
    }

    /**
     * `sort_by_status`: every frame once, by status priority and then index,
     * with the reverse lookup rebuilt.
     */
    method SortByStatus()
      requires Valid()
      modifies this`displayOrder, this`reverseOrder, this`sorted
      ensures Valid() && sorted
      ensures displayOrder == StatusOrder(frameStatuses.vals, totalFrames)
      ensures forall p | 0 <= p < |displayOrder| :: displayOrder[p] in reverseOrder && reverseOrder[displayOrder[p]] == p
    {
      var order := StatusOrder(frameStatuses.vals, totalFrames);
      StatusOrderSpec(frameStatuses.vals, totalFrames);
      ReverseOfInverse(order);
      displayOrder, reverseOrder, sorted := order, ReverseOf(order), true;
    }

    /** `reset_sort` */
    method ResetSort()
      requires Valid()
      modifies this`displayOrder, this`reverseOrder, this`sorted
      ensures Valid()
      ensures displayOrder == Range(0, totalFrames) && reverseOrder == (map i | i in Range(0, totalFrames) :: i) && !sorted
    {
      ResetDisplayOrder();
    }

    /** `is_sorted` */
    function IsSorted(): bool
      reads this`sorted
    {
      sorted
    }

    /** `set_frame_names` */
    method SetFrameNames(names: seq<string>)
      modifies this`frameNames
      ensures frameNames == names
    {
      frameNames := names;
    }

    /** `set_confidence_scores` */
    method SetConfidenceScores(scores: map<int, real>)
      modifies this`confidenceScores
      ensures confidenceScores == scores
    {
      confidenceScores := scores;
    }

    /** `set_current_frame`: an index outside the timeline is ignored. */
    method SetCurrentFrame(idx: int)
      modifies this`currentFrame
      ensures currentFrame == if 0 <= idx < totalFrames then idx else old(currentFrame)
    {
      if 0 <= idx < totalFrames {
        currentFrame := idx;
      }
    }

    /** `set_frame_status`: an index outside the timeline is ignored; `immediate` only chooses how to repaint. */
    method SetFrameStatus(idx: int, status: string, immediate: bool)
      requires Valid()
      modifies this`frameStatuses
      ensures Valid()
      ensures frameStatuses == if 0 <= idx < totalFrames then Store(old(frameStatuses), idx, status) else old(frameStatuses)
    {
      if 0 <= idx < totalFrames {
        frameStatuses := Store(frameStatuses, idx, status);
      }
    }

    /** `set_batch_statuses`: the in-range entries of `statuses`, in its order. */
    method SetBatchStatuses(statuses: ODict<int, string>)
      requires Valid() && OrderedDicts.Valid(statuses)
      modifies this`frameStatuses
      ensures Valid()
      ensures frameStatuses == StoreBatch(old(frameStatuses), statuses, |statuses.keys|, totalFrames)
      ensures forall k :: k in frameStatuses.vals <==> k in old(frameStatuses).vals || (k in statuses.vals && 0 <= k < totalFrames)
      ensures forall k | k in frameStatuses.vals ::
                frameStatuses.vals[k] == if k in statuses.vals && 0 <= k < totalFrames then statuses.vals[k] else old(frameStatuses).vals[k]
    {
      ghost var d0 := frameStatuses;
      var d := frameStatuses;
      for i := 0 to |statuses.keys|
        invariant OrderedDicts.Valid(d) && d == StoreBatch(d0, statuses, i, totalFrames)
      {
        var idx := statuses.keys[i];
        if 0 <= idx < totalFrames {
          d := Store(d, idx, statuses.vals[idx]);
        }
      }
      StoreBatchSpec(d0, statuses, |statuses.keys|, totalFrames);
      assert statuses.keys[..|statuses.keys|] == statuses.keys;
      frameStatuses := d;
    }

    /** `clear_statuses` */
    method ClearStatuses()
      requires Valid()
      modifies this`frameStatuses
      ensures Valid() && frameStatuses.keys == [] && frameStatuses.vals == map[]
    {
      frameStatuses := EmptyDict();
    }

    /** `get_reference_frames`: the frames marked "reference", in insertion order. */
    function GetReferenceFrames(): (r: seq<int>)
      requires Valid()
      reads this
      ensures forall k :: k in r <==> k in frameStatuses.vals && frameStatuses.vals[k] == "reference"
      ensures forall k | k in r :: 0 <= k < totalFrames
    {
      FramesWith(frameStatuses, "reference")
    }

    /** `get_propagated_frames` */
    function GetPropagatedFrames(): (r: seq<int>)
      requires Valid()
      reads this
      ensures forall k :: k in r <==> k in frameStatuses.vals && frameStatuses.vals[k] == "propagated"
      ensures forall k | k in r :: 0 <= k < totalFrames
    {
      FramesWith(frameStatuses, "propagated")
    }

    /** `get_flagged_frames` */
    function GetFlaggedFrames(): (r: seq<int>)
      requires Valid()
      reads this
      ensures forall k :: k in r <==> k in frameStatuses.vals && frameStatuses.vals[k] == "flagged"
      ensures forall k | k in r :: 0 <= k < totalFrames
    {
      FramesWith(frameStatuses, "flagged")
    }
  }
}
