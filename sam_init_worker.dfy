/**
 * The model-type classifier of the multi-view SAM initialisation worker
 * (ui/workers/multi_view_sam_init_worker.py): which checkpoint files are SAM 2
 * models and which model type a checkpoint's file name selects, plus the
 * worker's stop flag.  Paths are POSIX paths; `str.lower` is modelled on ASCII
 * letters.
 */
module SamInitWorker {
  import opened Text

  /** `sub` occurs in `s` starting at position `i`. */
  predicate OccursAt(s: string, sub: string, i: int)
  {
    0 <= i && i + |sub| <= |s| && s[i..i + |sub|] == sub
  }

  /** `sub in s` for strings. */
  predicate Contains(s: string, sub: string)
  {
    exists i | 0 <= i <= |s| :: OccursAt(s, sub, i)
  }

  function LowerChar(c: char): char
  {
    if 'A' <= c <= 'Z' then (c as int + 32) as char else c
  }

  /** `s.lower()` */
  function Lower(s: string): (r: string)
    ensures |r| == |s| && forall k | 0 <= k < |s| :: r[k] == LowerChar(s[k])
  {
    seq(|s|, k requires 0 <= k < |s| => LowerChar(s[k]))
  }

  /** `os.path.basename(path).lower()` */
  function FileName(path: string): string
  {
    Lower(AfterLast(path, '/'))
  }

  const Sam2Indicators: seq<string> := ["sam2", "sam2.1", "hiera", "_t.", "_s.", "_b+.", "_l."]

  /** `any(indicator in s for indicator in subs)` */
  function AnyIn(subs: seq<string>, s: string): (r: bool)
    ensures r <==> exists k | 0 <= k < |subs| :: Contains(s, subs[k])
  {
    if subs == [] then false
    else
      var init := subs[..|subs| - 1];
      assert forall k | 0 <= k < |init| :: init[k] == subs[k];
      AnyIn(init, s) || Contains(s, subs[|subs| - 1])
  }

  /** Whether a lower-cased file name names a SAM 2 checkpoint. */
  function IsSam2Name(f: string): (r: bool)
    ensures r <==> exists k | 0 <= k < |Sam2Indicators| :: Contains(f, Sam2Indicators[k])
  {
    AnyIn(Sam2Indicators, f)
  }

  /** `_is_sam2_model`: the file name contains one of the SAM 2 indicators. */
  function IsSam2Model(path: string): bool
  {
    IsSam2Name(FileName(path))
  }

  const Sam2Types: set<string> := {"sam2_tiny", "sam2_small", "sam2_base_plus", "sam2_large"}
  const Sam1Types: set<string> := {"vit_l", "vit_b", "vit_h"}

  /**
   * The model type a lower-cased file name selects: for a SAM 2 checkpoint
   * the first of tiny, small, base_plus and large that it mentions, large by
   * default; for a SAM 1 checkpoint the first of vit_l, vit_b and vit_h,
   * vit_h by default.
   */
  function ModelTypeOf(f: string): (r: string)
    ensures r in Sam2Types + Sam1Types
    ensures r in Sam2Types <==> IsSam2Name(f)
    ensures IsSam2Name(f) && (Contains(f, "tiny") || Contains(f, "_t")) ==> r == "sam2_tiny"
    ensures !IsSam2Name(f) && (Contains(f, "vit_l") || Contains(f, "large")) ==> r == "vit_l"
  {
    if IsSam2Name(f) then
      if Contains(f, "tiny") || Contains(f, "_t") then "sam2_tiny"
      else if Contains(f, "small") || Contains(f, "_s") then "sam2_small"
      else if Contains(f, "base_plus") || Contains(f, "_b+") then "sam2_base_plus"
      else if Contains(f, "large") || Contains(f, "_l") then "sam2_large"
      else "sam2_large"
    else
      if Contains(f, "vit_l") || Contains(f, "large") then "vit_l"
      else if Contains(f, "vit_b") || Contains(f, "base") then "vit_b"
      else if Contains(f, "vit_h") || Contains(f, "huge") then "vit_h"
      else "vit_h"
  }

  /** `_detect_model_type`: the model type the checkpoint's file name selects. */
  function DetectModelType(path: string): (r: string)
    ensures r in Sam2Types + Sam1Types
    ensures r in Sam2Types <==> IsSam2Model(path)
  {
    ModelTypeOf(FileName(path))
  }

  /** The directory part of a path never changes the classification. */
  lemma OnlyBasenameMatters(dir: string, name: string)
    requires '/' !in name
    ensures FileName(dir + "/" + name) == FileName(name)
    ensures IsSam2Model(dir + "/" + name) == IsSam2Model(name)
    ensures DetectModelType(dir + "/" + name) == DetectModelType(name)
  {
    AfterLastSuffix(dir + "/", name, '/');
    assert dir + "/" + name == (dir + "/") + name;
  }

  lemma LowerAppend(a: string, c: char)
    ensures Lower(a + [c]) == Lower(a) + [LowerChar(c)]
  {
  }

  lemma {:induction false} LowerAfterLast(s: string)
    ensures Lower(AfterLast(s, '/')) == AfterLast(Lower(s), '/')
    decreases |s|
  {
    if s != [] {
      var init := s[..|s| - 1];
      var last := s[|s| - 1];
      var ls := Lower(s);
      assert ls[..|ls| - 1] == Lower(init);
      assert ls[|ls| - 1] == LowerChar(last);
      if last != '/' {
        LowerAfterLast(init);
        assert AfterLast(s, '/') == AfterLast(init, '/') + [last];
        LowerAppend(AfterLast(init, '/'), last);
        assert AfterLast(ls, '/') == AfterLast(Lower(init), '/') + [LowerChar(last)];
      } else {
        assert AfterLast(s, '/') == [];
        assert AfterLast(ls, '/') == [];
      }
    }
  }

  lemma LowerIdempotent(s: string)
    ensures Lower(Lower(s)) == Lower(s)
  {
  }

  /** Upper- and lower-case spellings of a path are classified alike. */
  lemma CaseInsensitive(path: string)
    ensures FileName(Lower(path)) == FileName(path)
    ensures IsSam2Model(Lower(path)) == IsSam2Model(path)
    ensures DetectModelType(Lower(path)) == DetectModelType(path)
  {
    LowerAfterLast(path);
    LowerIdempotent(AfterLast(path, '/'));
  }

  /** The worker thread's stop flag; loading the models is not modelled. */
  class MultiViewSamInitWorker {
    var numViewers: int
    var defaultModelType: string
    var shouldStop: bool

    constructor(numViewers: int, defaultModelType: string)
      ensures this.numViewers == numViewers && this.defaultModelType == defaultModelType
      ensures !shouldStop
    {
      this.numViewers := numViewers;
      this.defaultModelType := defaultModelType;
      shouldStop := false;
    }

    /** `stop`: asks the worker to stop at its next check. */
    method Stop()
      modifies this`shouldStop
      ensures shouldStop
    {
      shouldStop := true;
    }
  }
}
