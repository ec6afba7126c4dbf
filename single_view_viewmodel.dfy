/**
 * The single-view view model (viewmodels/single_view_viewmodel.py): the
 * current image path, the loading flag and the annotation mode with the mode
 * before it.  Qt signals are recorded in a ghost event log, so that "emits
 * only when the value changes" can be stated.  The file tree's `QModelIndex`
 * is a row number, None for an invalid index.
 */
module SingleViewViewModel {
  import opened Wrappers
  import opened Text

  datatype Event =
    | ImageChanged(path: string)
    | ImageCleared
    | ModeChanged(oldMode: string, newMode: string)
    | LoadingStarted
    | LoadingFinished

  const DefaultMode: string := "sam_points"

  /** The current and previous annotation modes. */
  datatype Modes = Modes(current: string, previous: string)

  /** `set_mode` on the mode pair: a new mode pushes the current one into `previous`. */
  function SetModes(m: Modes, mode: string): (r: Modes)
    ensures mode == m.current ==> r == m
    ensures mode != m.current ==> r.current == mode && r.previous == m.current
  {
    if mode == m.current then m else Modes(mode, m.current)
  }

  /** `toggle_mode` on the mode pair, with the mode it reports. */
  function ToggleModes(m: Modes, mode: string): (r: (Modes, string))
    ensures r.1 == r.0.current
    ensures m.current != mode ==> r.0 == Modes(mode, m.current)
    ensures m.current == mode ==> r.0 == SetModes(m, m.previous)
  {
    if m.current == mode then (SetModes(m, m.previous), SetModes(m, m.previous).current)
    else (SetModes(m, mode), mode)
  }

  /** Toggling the same mode twice, starting from another mode, comes back to the starting mode. */
  lemma ToggleTwice(m: Modes, mode: string)
    requires m.current != mode
    ensures var first := ToggleModes(m, mode);
            var second := ToggleModes(first.0, mode);
            first.1 == mode && second.1 == m.current && second.0 == Modes(m.current, mode)
  {
  }

  /** Toggling the mode already current to itself, when nothing else precedes it, changes nothing. */
  lemma ToggleFixedPoint(mode: string)
    ensures ToggleModes(Modes(mode, mode), mode) == (Modes(mode, mode), mode)
  {
  }

  /** `is_ai_mode` */
  predicate IsAiModeName(mode: string)
  {
    mode == "sam_points" || mode == "ai"
  }

  /** `is_drawing_mode` */
  predicate IsDrawingModeName(mode: string)
  {
    mode == "polygon" || mode == "bbox"
  }

  /** No mode is both an AI mode and a drawing mode; the default mode is an AI mode. */
  lemma ModeKindsDisjoint(mode: string)
    ensures !(IsAiModeName(mode) && IsDrawingModeName(mode))
    ensures IsAiModeName(DefaultMode)
  {
  }

  class SingleViewViewModel {
    var imagePath: Option<string>
    var isLoading: bool
    var currentMode: string
    var previousMode: string
    var fileIndex: Option<int>
    ghost var events: seq<Event>

    constructor()
      ensures imagePath == None && !isLoading
      ensures currentMode == DefaultMode && previousMode == DefaultMode
      ensures fileIndex == None && events == []
    {
      imagePath := None;
      isLoading := false;
      currentMode := DefaultMode;
      previousMode := DefaultMode;
      fileIndex := None;
      events := [];
    }

    /**
     * `set_image`: nothing happens for the current path; otherwise the path
     * is stored and `image_changed` is emitted for a non-empty path,
     * `image_cleared` for None or "".
     */
    method SetImage(path: Option<string>)
      modifies this`imagePath, this`events
      ensures path == old(imagePath) ==> imagePath == old(imagePath) && events == old(events)
      ensures path != old(imagePath) ==> imagePath == path
      ensures path != old(imagePath) && path.Some? && path.value != "" ==> events == old(events) + [ImageChanged(path.value)]
      ensures path != old(imagePath) && (path.None? || path.value == "") ==> events == old(events) + [ImageCleared]
    {
      if path == imagePath {
        return;
      }
      imagePath := path;
      if path.Some? && path.value != "" {
        events := events + [ImageChanged(path.value)];
      } else {
        events := events + [ImageCleared];
      }
    }

    /** `has_image`: any stored path counts, the empty one included. */
    function HasImage(): (r: bool)
      reads this`imagePath
      ensures r <==> imagePath.Some?
    {
      imagePath.Some?
    }

    /** `get_image_filename`: the last path component, None without a (non-empty) path. */
    function GetImageFilename(): (r: Option<string>)
      reads this`imagePath
      ensures r.None? <==> imagePath.None? || imagePath.value == ""
      ensures r.Some? ==> imagePath.Some? && '/' !in r.value && |r.value| <= |imagePath.value| && r.value == imagePath.value[|imagePath.value| - |r.value|..]
    {
      if imagePath.None? || imagePath.value == "" then None else Some(AfterLast(imagePath.value, '/'))
    }

    /** `set_loading`: emits `loading_started` or `loading_finished` only when the flag changes. */
    method SetLoading(loading: bool)
      modifies this`isLoading, this`events
      ensures isLoading == loading
      ensures loading == old(isLoading) ==> events == old(events)
      ensures loading != old(isLoading) ==> events == old(events) + [if loading then LoadingStarted else LoadingFinished]
    {
      if loading == isLoading {
        return;
      }
      isLoading := loading;
      if loading {
        events := events + [LoadingStarted];
      } else {
        events := events + [LoadingFinished];
      }
    }

    function ModePair(): Modes
      reads this`currentMode, this`previousMode
    {
      Modes(currentMode, previousMode)
    }

    /** `set_mode`: a new mode records the old one as previous and emits (old, new); the same mode does nothing. */
    method SetMode(mode: string)
      modifies this`currentMode, this`previousMode, this`events
      ensures ModePair() == SetModes(old(ModePair()), mode)
      ensures mode == old(currentMode) ==> events == old(events)
      ensures mode != old(currentMode) ==> events == old(events) + [ModeChanged(old(currentMode), mode)]
    {
      if mode == currentMode {
        return;
      }
      var oldMode := currentMode;
      previousMode := oldMode;
      currentMode := mode;
      events := events + [ModeChanged(oldMode, mode)];
    }

    /** `toggle_mode`: switches to `mode`, or back to the previous mode when `mode` is current. */
    method ToggleMode(mode: string) returns (result: string)
      modifies this`currentMode, this`previousMode, this`events
      ensures (ModePair(), result) == ToggleModes(old(ModePair()), mode)
    {
      if currentMode == mode {
        SetMode(previousMode);
        return currentMode;
      } else {
        SetMode(mode);
        return mode;
      }
    }

    /** `is_mode` */
    function IsMode(mode: string): (r: bool)
      reads this`currentMode
      ensures r <==> currentMode == mode
    {
      currentMode == mode
    }

    /** `is_ai_mode` */
    function IsAiMode(): (r: bool)
      reads this`currentMode
      ensures r <==> currentMode in ["sam_points", "ai"]
    {
      IsAiModeName(currentMode)
    }

    /** `is_drawing_mode` */
    function IsDrawingMode(): (r: bool)
      reads this`currentMode
      ensures r <==> currentMode in ["polygon", "bbox"]
    {
      IsDrawingModeName(currentMode)
    }

    /** `set_file_index` */
    method SetFileIndex(index: Option<int>)
      modifies this`fileIndex
      ensures fileIndex == index
    {
      fileIndex := index;
    }

    /** `reset`: back to the initial state, announcing that no image is shown. */
    method Reset()
      modifies this`imagePath, this`isLoading, this`currentMode, this`previousMode, this`fileIndex, this`events
      ensures imagePath == None && !isLoading
      ensures currentMode == DefaultMode && previousMode == DefaultMode
      ensures fileIndex == None
      ensures events == old(events) + [ImageCleared]
      ensures !HasImage() && IsAiMode()
    {
      imagePath := None;
      isLoading := false;
      currentMode := DefaultMode;
      previousMode := DefaultMode;
      fileIndex := None;
      events := events + [ImageCleared];
    }
  }
}
