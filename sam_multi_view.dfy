/**
 * Per-viewer SAM model state of the two-viewer mode (`SamMultiViewManager` in
 * ui/managers/sam_multi_view_manager.py): a model slot, a dirty flag and the
 * hash of the loaded image for each viewer, and the initialising / failed
 * flags of the background model loader.
 *
 * The md5 hex digest of an image path is the opaque function `keyOf`.  What a
 * model does when asked to load an image or to predict is a parameter: `None`
 * stands for a call that raised.  The loader thread itself is reduced to
 * whether a worker object is held.
 */
module SamMultiView {
  import opened Wrappers
  import opened Geometry

  /** A loaded or still-loading SAM model; only `is_loaded` is consulted. */
  datatype SamModel = SamModel(isLoaded: bool)

  /** The two viewer slots, `(0, 1)` in the source. */
  predicate IsViewer(i: int) { i == 0 || i == 1 }

  class SamMultiViewManager {
    var models: seq<Option<SamModel>>
    var dirty: seq<bool>
    var hashes: seq<Option<string>>
    var initializing: bool
    var initFailed: bool
    var workerHeld: bool
    const keyOf: string -> string

    ghost predicate Valid()
      reads this
    {
      |models| == 2 && |dirty| == 2 && |hashes| == 2
    }

    /** No models, both viewers dirty, no hashes, not initialising, not failed. */
    constructor(keyOf: string -> string)
      ensures Valid() && this.keyOf == keyOf
      ensures models == [None, None] && dirty == [true, true] && hashes == [None, None]
      ensures !initializing && !initFailed && !workerHeld
    {
      models := [None, None];
      dirty := [true, true];
      hashes := [None, None];
      initializing := false;
      initFailed := false;
      workerHeld := false;
      this.keyOf := keyOf;
    }

    /** `get_sam_is_dirty`: a viewer's flag, and true for any other index. */
    function SamIsDirty(i: int): (r: bool)
      requires Valid()
      reads this
      ensures !IsViewer(i) ==> r
      ensures IsViewer(i) ==> r == dirty[i]
    {
      if IsViewer(i) then dirty[i] else true
    }

    /** `set_sam_is_dirty`: ignores any index but 0 and 1. */
    method SetSamIsDirty(i: int, value: bool)
      requires Valid()
      modifies this
      ensures Valid()
      ensures dirty == if IsViewer(i) then old(dirty)[i := value] else old(dirty)
      ensures models == old(models) && hashes == old(hashes)
      ensures initializing == old(initializing) && initFailed == old(initFailed) && workerHeld == old(workerHeld)
    {
      if IsViewer(i) {
        dirty := dirty[i := value];
      }
    }

    /** `is_model_ready`: a valid viewer whose model exists and is loaded. */
    predicate IsModelReady(i: int)
      requires Valid()
      reads this
      ensures IsModelReady(i) <==> IsViewer(i) && models[i].Some? && models[i].value.isLoaded
    {
      IsViewer(i) && match models[i] case None => false case Some(m) => m.isLoaded
    }

    /** `are_all_models_ready` */
    predicate AreAllModelsReady()
      requires Valid()
      reads this
      ensures AreAllModelsReady() <==> forall i | IsViewer(i) :: IsModelReady(i)
    {
      IsModelReady(0) && IsModelReady(1)
    }

    /**
     * `start_initialization`: refused after a failure or while running;
     * otherwise the old worker is dropped, a new one is held and the
     * initialising flag is set.
     */
    method StartInitialization() returns (started: bool)
      requires Valid()
      modifies this
      ensures Valid()
      ensures started <==> !old(initFailed) && !old(initializing)
      ensures started ==> initializing && workerHeld
      ensures !started ==> initializing == old(initializing) && workerHeld == old(workerHeld)
      ensures initFailed == old(initFailed)
      ensures models == old(models) && dirty == old(dirty) && hashes == old(hashes)
    {
      if initFailed {
        return false;
      }
      if initializing {
        return false;
      }
      workerHeld := false;
      initializing := true;
      workerHeld := true;
      started := true;
    }

    /** `_on_model_initialized`: the worker reports one viewer's model, which then needs its image. */
    method OnModelInitialized(i: int, model: SamModel)
      requires Valid() && IsViewer(i)
      modifies this
      ensures Valid()
      ensures models == old(models)[i := Some(model)] && dirty == old(dirty)[i := true]
      ensures hashes == old(hashes)
      ensures initializing == old(initializing) && initFailed == old(initFailed) && workerHeld == old(workerHeld)
    {
      models := models[i := Some(model)];
      dirty := dirty[i := true];
    }

    /** `_on_all_models_initialized`: loading is over and the worker is released. */
    method OnAllModelsInitialized()
      requires Valid()
      modifies this
      ensures Valid()
      ensures !initializing && !workerHeld && initFailed == old(initFailed)
      ensures models == old(models) && dirty == old(dirty) && hashes == old(hashes)
    {
      initializing := false;
      workerHeld := false;
    }

    /** `_on_init_error`: marks the failure, which blocks restarts until `reset_init_failed`. */
    method OnInitError()
      requires Valid()
      modifies this
      ensures Valid()
      ensures !initializing && initFailed && !workerHeld
      ensures models == old(models) && dirty == old(dirty) && hashes == old(hashes)
    {
      initializing := false;
      initFailed := true;
      workerHeld := false;
    }

    /**
     * Whether `ensure_viewer_image_loaded` is answered True from the current
     * state: a ready viewer that is clean, or whose image path is non-empty and
     * either hashes to the stored key or loads.
     */
    predicate ImageReady(i: int, imagePaths: Option<seq<string>>, load: string -> Option<bool>)
      requires Valid()
      requires imagePaths.Some? ==> |imagePaths.value| >= 2
      reads this
    {
      IsModelReady(i) &&
      (!dirty[i] ||
       (imagePaths.Some? && imagePaths.value[i] != "" &&
        (Some(keyOf(imagePaths.value[i])) == hashes[i] || load(imagePaths.value[i]) == Some(true))))
    }

    /** The image key of viewer i after `ensure_viewer_image_loaded`: stored by a fresh load only. */
    function HashesAfterLoad(i: int, imagePaths: Option<seq<string>>, load: string -> Option<bool>): (r: seq<Option<string>>)
      requires Valid()
      requires imagePaths.Some? ==> |imagePaths.value| >= 2
      reads this
      ensures |r| == 2
    {
      if ImageReady(i, imagePaths, load) && dirty[i] && Some(keyOf(imagePaths.value[i])) != hashes[i]
      then hashes[i := Some(keyOf(imagePaths.value[i]))]
      else hashes
    }

    /** The dirty flags after `ensure_viewer_image_loaded`: viewer i is clean exactly when it was made ready. */
    function DirtyAfterLoad(i: int, imagePaths: Option<seq<string>>, load: string -> Option<bool>): (r: seq<bool>)
      requires Valid()
      requires imagePaths.Some? ==> |imagePaths.value| >= 2
      reads this
      ensures |r| == 2
      ensures ImageReady(i, imagePaths, load) ==> !r[i]
    {
      if ImageReady(i, imagePaths, load) then dirty[i := false] else dirty
    }

    /**
     * `ensure_viewer_image_loaded`.  `imagePaths` is the main window's
     * `multi_view_image_paths` (None when the attribute is missing) and
     * `load` is the model's `set_image_from_path`.  True means the viewer's
     * model holds the viewer's image: that happens without loading when the
     * viewer is clean or its path hashes to the stored key, and after a
     * successful load, which clears the flag and stores the key.
     */
    method EnsureViewerImageLoaded(i: int, imagePaths: Option<seq<string>>, load: string -> Option<bool>)
      returns (ok: bool)
      requires Valid()
      requires imagePaths.Some? ==> |imagePaths.value| >= 2
      modifies this
      ensures Valid()
      ensures ok ==> IsModelReady(i) && !dirty[i]
      ensures models == old(models) && initFailed == old(initFailed)
      ensures !IsViewer(i) ==> !ok && unchanged(this)
      ensures IsViewer(i) && !old(IsModelReady(i)) ==>
                && !ok && dirty == old(dirty) && hashes == old(hashes)
                && initializing == (old(initializing) || !old(initFailed))
      ensures old(IsModelReady(i)) && !old(dirty)[i] ==> ok && unchanged(this)
      ensures old(IsModelReady(i)) && old(dirty)[i] && (imagePaths.None? || imagePaths.value[i] == "") ==>
                !ok && unchanged(this)
      ensures old(IsModelReady(i)) && old(dirty)[i] && imagePaths.Some? && imagePaths.value[i] != "" ==>
                var p := imagePaths.value[i];
                if Some(keyOf(p)) == old(hashes)[i] then
                  ok && dirty == old(dirty)[i := false] && hashes == old(hashes)
                else if load(p) == Some(true) then
                  ok && dirty == old(dirty)[i := false] && hashes == old(hashes)[i := Some(keyOf(p))]
                else
                  !ok && dirty == old(dirty) && hashes == old(hashes)
      ensures IsViewer(i) && old(IsModelReady(i)) ==>
                initializing == old(initializing) && workerHeld == old(workerHeld)
      ensures ok == old(ImageReady(i, imagePaths, load))
      ensures dirty == old(DirtyAfterLoad(i, imagePaths, load)) && hashes == old(HashesAfterLoad(i, imagePaths, load))
    {
      if !IsViewer(i) {
        return false;
      }
      if !IsModelReady(i) {
        if !initializing && !initFailed {
          var _ := StartInitialization();
        }
        return false;
      }
      if !dirty[i] {
        return true;
      }
      if imagePaths.None? {
        return false;
      }
      var path := imagePaths.value[i];
      if path == "" {
        return false;
      }
      var key := keyOf(path);
      if Some(key) == hashes[i] {
        dirty := dirty[i := false];
        return true;
      }
      var success := load(path);
      if success == Some(true) {
        dirty := dirty[i := false];
        hashes := hashes[i := Some(key)];
        return true;
      }
      return false;
    }

    /**
     * `predict`: None for an invalid viewer, an image that cannot be made
     * ready, or no positive point; otherwise whatever the model returns
     * (None when it raised).
     */
    method Predict<R>(i: int, positivePoints: seq<Point>, negativePoints: seq<Point>,
                      imagePaths: Option<seq<string>>, load: string -> Option<bool>,
                      model: (seq<Point>, seq<Point>) -> Option<R>)
      returns (r: Option<R>)
      requires Valid()
      requires imagePaths.Some? ==> |imagePaths.value| >= 2
      modifies this
      ensures Valid()
      ensures !IsViewer(i) ==> r.None? && unchanged(this)
      ensures r.Some? ==> IsModelReady(i) && !dirty[i] && positivePoints != []
      ensures r == if old(ImageReady(i, imagePaths, load)) && positivePoints != [] then model(positivePoints, negativePoints) else None
      ensures dirty == old(DirtyAfterLoad(i, imagePaths, load)) && hashes == old(HashesAfterLoad(i, imagePaths, load))
      ensures IsViewer(i) && !old(IsModelReady(i)) ==> initializing == (old(initializing) || !old(initFailed))
      ensures models == old(models) && initFailed == old(initFailed)
    {
      if !IsViewer(i) {
        return None;
      }
      var ok := EnsureViewerImageLoaded(i, imagePaths, load);
      if !ok {
        return None;
      }
      if positivePoints == [] {
        return None;
      }
      r := model(positivePoints, negativePoints);
    }

    /** `predict_from_box`: the same guards except that no point is needed. */
    method PredictFromBox<B, R>(i: int, box: B, imagePaths: Option<seq<string>>, load: string -> Option<bool>,
                                model: B -> Option<R>)
      returns (r: Option<R>)
      requires Valid()
      requires imagePaths.Some? ==> |imagePaths.value| >= 2
      modifies this
      ensures Valid()
      ensures !IsViewer(i) ==> r.None? && unchanged(this)
      ensures r.Some? ==> IsModelReady(i) && !dirty[i] && r == model(box)
      ensures r == if old(ImageReady(i, imagePaths, load)) then model(box) else None
      ensures dirty == old(DirtyAfterLoad(i, imagePaths, load)) && hashes == old(HashesAfterLoad(i, imagePaths, load))
      ensures IsViewer(i) && !old(IsModelReady(i)) ==> initializing == (old(initializing) || !old(initFailed))
      ensures models == old(models) && initFailed == old(initFailed)
    {
      if !IsViewer(i) {
        return None;
      }
      var ok := EnsureViewerImageLoaded(i, imagePaths, load);
      if !ok {
        return None;
      }
      r := model(box);
    }

    /** `mark_all_dirty` */
    method MarkAllDirty()
      requires Valid()
      modifies this
      ensures Valid() && dirty == [true, true]
      ensures models == old(models) && hashes == old(hashes)
      ensures initializing == old(initializing) && initFailed == old(initFailed) && workerHeld == old(workerHeld)
    {
      dirty := [true, true];
    }

    /** `mark_viewer_dirty`: ignores any index but 0 and 1. */
    method MarkViewerDirty(i: int)
      requires Valid()
      modifies this
      ensures Valid()
      ensures dirty == if IsViewer(i) then old(dirty)[i := true] else old(dirty)
      ensures models == old(models) && hashes == old(hashes)
      ensures initializing == old(initializing) && initFailed == old(initFailed) && workerHeld == old(workerHeld)
    {
      if IsViewer(i) {
        dirty := dirty[i := true];
      }
    }

    /** `reset_init_failed`: lets a later `start_initialization` run again. */
    method ResetInitFailed()
      requires Valid()
      modifies this
      ensures Valid() && !initFailed
      ensures models == old(models) && dirty == old(dirty) && hashes == old(hashes)
      ensures initializing == old(initializing) && workerHeld == old(workerHeld)
    {
      initFailed := false;
    }

    /** `cleanup`: no worker, no models, both viewers dirty, no hashes, both flags false. */
    method Cleanup()
      requires Valid()
      modifies this
      ensures Valid()
      ensures models == [None, None] && dirty == [true, true] && hashes == [None, None]
      ensures !initializing && !initFailed && !workerHeld
    {
      workerHeld := false;
      for i := 0 to 2
        invariant |models| == 2 && !workerHeld
        invariant forall j | 0 <= j < i :: models[j].None?
      {
        if models[i].Some? {
          models := models[i := None];
        }
      }
      assert models == [None, None] by {
        assert models[0].None? && models[1].None?;
      }
      dirty := [true, true];
      hashes := [None, None];
      initializing := false;
      initFailed := false;
    }
  }
}
