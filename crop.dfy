/**
 * The single-view border crop (ui/managers/crop_manager.py): normalising
 * typed-in crop coordinates against the image size, the dark overlay bands
 * drawn over the cropped-away border, the crops remembered per image size, and
 * the manager's reset.
 *
 * Coordinates are integers.  A rectangle is `Rect(x, y, w, h)` and covers the
 * pixels `x <= px < x + w`, `y <= py < y + h`.  The image is described by the
 * size of its pixmap, None for a pixmap that failed to load.  Overlay items
 * are their rectangles; brushes, pens, z-values and the scene are not
 * modelled.
 */
module Crop {
  import opened Wrappers
  import opened Geometry

  datatype CropCoords = CropCoords(x1: int, y1: int, x2: int, y2: int)
  datatype Rect = Rect(x: int, y: int, w: int, h: int)
  type Size = (int, int)

  /** `max(lo, min(v, hi))` */
  function Clamp(v: int, lo: int, hi: int): int
  {
    if v < hi then (if v < lo then lo else v) else (if hi < lo then lo else hi)
  }

  function Min(a: int, b: int): int { if a <= b then a else b }
  function Max(a: int, b: int): int { if a <= b then b else a }

  /**
   * `_apply_single_view_crop_coordinates`, the arithmetic: each coordinate is
   * clamped into the image, then each axis is put in order.
   */
  function Normalize(x1: int, y1: int, x2: int, y2: int, w: int, h: int): (r: CropCoords)
    ensures r.x1 == Min(Clamp(x1, 0, w - 1), Clamp(x2, 0, w - 1)) && r.x2 == Max(Clamp(x1, 0, w - 1), Clamp(x2, 0, w - 1))
    ensures r.y1 == Min(Clamp(y1, 0, h - 1), Clamp(y2, 0, h - 1)) && r.y2 == Max(Clamp(y1, 0, h - 1), Clamp(y2, 0, h - 1))
  {
    var cx1, cx2 := Clamp(x1, 0, w - 1), Clamp(x2, 0, w - 1);
    var cy1, cy2 := Clamp(y1, 0, h - 1), Clamp(y2, 0, h - 1);
    var (ax1, ax2) := if cx1 > cx2 then (cx2, cx1) else (cx1, cx2);
    var (ay1, ay2) := if cy1 > cy2 then (cy2, cy1) else (cy1, cy2);
    CropCoords(ax1, ay1, ax2, ay2)
  }

  /** A crop inside a `w` by `h` image with its corners in order. */
  predicate InImage(c: CropCoords, w: int, h: int)
  {
    0 <= c.x1 <= c.x2 < w && 0 <= c.y1 <= c.y2 < h
  }

  /** For an image of at least one pixel, normalising always gives an ordered crop inside the image. */
  lemma NormalizeInImage(x1: int, y1: int, x2: int, y2: int, w: int, h: int)
    requires w >= 1 && h >= 1
    ensures InImage(Normalize(x1, y1, x2, y2, w, h), w, h)
  {
  }

  /** An ordered crop inside the image is kept as it is. */
  lemma NormalizeKeepsInImage(c: CropCoords, w: int, h: int)
    requires InImage(c, w, h)
    ensures Normalize(c.x1, c.y1, c.x2, c.y2, w, h) == c
  {
  }

  /** Normalising twice is normalising once. */
  lemma NormalizeIdempotent(x1: int, y1: int, x2: int, y2: int, w: int, h: int)
    requires w >= 1 && h >= 1
    ensures var c := Normalize(x1, y1, x2, y2, w, h);
            Normalize(c.x1, c.y1, c.x2, c.y2, w, h) == c
  {
    NormalizeInImage(x1, y1, x2, y2, w, h);
    NormalizeKeepsInImage(Normalize(x1, y1, x2, y2, w, h), w, h);
  }

  /** Which corners the user typed first does not matter. */
  lemma NormalizeCornerOrder(x1: int, y1: int, x2: int, y2: int, w: int, h: int)
    ensures Normalize(x2, y1, x1, y2, w, h) == Normalize(x1, y1, x2, y2, w, h)
    ensures Normalize(x1, y2, x2, y1, w, h) == Normalize(x1, y1, x2, y2, w, h)
  {
  }

  /** The four border bands of `add_crop_visual_overlays`, each drawn only when its guard holds. */
  function Bands(c: CropCoords, w: int, h: int): seq<Rect>
  {
    (if c.y1 > 0 then [Rect(0, 0, w, c.y1)] else [])
    + (if c.y2 < h then [Rect(0, c.y2, w, h - c.y2)] else [])
    + (if c.x1 > 0 then [Rect(0, c.y1, c.x1, c.y2 - c.y1)] else [])
    + (if c.x2 < w then [Rect(c.x2, c.y1, w - c.x2, c.y2 - c.y1)] else [])
  }

  /** The part of the image no band covers. */
  function Kept(c: CropCoords): Rect
  {
    Rect(c.x1, c.y1, c.x2 - c.x1, c.y2 - c.y1)
  }

  predicate Covers(r: Rect, px: int, py: int)
  {
    r.x <= px < r.x + r.w && r.y <= py < r.y + r.h
  }

  /** How many of the rectangles cover a pixel. */
  function CoverCount(rs: seq<Rect>, px: int, py: int): nat
  {
    if rs == [] then 0
    else CoverCount(rs[..|rs| - 1], px, py) + (if Covers(rs[|rs| - 1], px, py) then 1 else 0)
  }

  function Area(r: Rect): int { r.w * r.h }

  function AreaSum(rs: seq<Rect>): int
  {
    if rs == [] then 0 else AreaSum(rs[..|rs| - 1]) + Area(rs[|rs| - 1])
  }

  /**
   * For a normalised crop the bottom and the right band are always drawn:
   * the clamp leaves `y2 < h` and `x2 < w`.  The top band is drawn exactly
   * when `y1 > 0` and the left band exactly when `x1 > 0`.
   */
  lemma BandsPresent(c: CropCoords, w: int, h: int)
    requires InImage(c, w, h)
    ensures Bands(c, w, h) ==
              (if c.y1 > 0 then [Rect(0, 0, w, c.y1)] else [])
              + [Rect(0, c.y2, w, h - c.y2)]
              + (if c.x1 > 0 then [Rect(0, c.y1, c.x1, c.y2 - c.y1)] else [])
              + [Rect(c.x2, c.y1, w - c.x2, c.y2 - c.y1)]
    ensures |Bands(c, w, h)| == 2 + (if c.y1 > 0 then 1 else 0) + (if c.x1 > 0 then 1 else 0)
  {
  }

  lemma {:induction false} CoverCountAppend(rs: seq<Rect>, extra: seq<Rect>, px: int, py: int)
    ensures CoverCount(rs + extra, px, py) == CoverCount(rs, px, py) + CoverCount(extra, px, py)
    decreases |extra|
  {
    if extra != [] {
      assert (rs + extra)[..|rs + extra| - 1] == rs + extra[..|extra| - 1];
      assert (rs + extra)[|rs + extra| - 1] == extra[|extra| - 1];
      CoverCountAppend(rs, extra[..|extra| - 1], px, py);
    } else {
      assert rs + extra == rs;
    }
  }

  lemma {:induction false} AreaSumAppend(rs: seq<Rect>, extra: seq<Rect>)
    ensures AreaSum(rs + extra) == AreaSum(rs) + AreaSum(extra)
    decreases |extra|
  {
    if extra != [] {
      assert (rs + extra)[..|rs + extra| - 1] == rs + extra[..|extra| - 1];
      assert (rs + extra)[|rs + extra| - 1] == extra[|extra| - 1];
      AreaSumAppend(rs, extra[..|extra| - 1]);
    } else {
      assert rs + extra == rs;
    }
  }

  /** The bands and the kept rectangle, as one list. */
  function Tiles(c: CropCoords, w: int, h: int): seq<Rect>
  {
    Bands(c, w, h) + [Kept(c)]
  }

  /**
   * The bands and the kept rectangle tile the image: every pixel of the image
   * is covered exactly once, and no pixel outside it is covered.
   */
  lemma TilesPixel(c: CropCoords, w: int, h: int, px: int, py: int)
    requires InImage(c, w, h)
    ensures CoverCount(Tiles(c, w, h), px, py) == if 0 <= px < w && 0 <= py < h then 1 else 0
  {
    var top := if c.y1 > 0 then [Rect(0, 0, w, c.y1)] else [];
    var left := if c.x1 > 0 then [Rect(0, c.y1, c.x1, c.y2 - c.y1)] else [];
    BandsPresent(c, w, h);
    assert Tiles(c, w, h) == top + [Rect(0, c.y2, w, h - c.y2)] + left + [Rect(c.x2, c.y1, w - c.x2, c.y2 - c.y1)] + [Kept(c)];
    CoverCountAppend(top + [Rect(0, c.y2, w, h - c.y2)] + left + [Rect(c.x2, c.y1, w - c.x2, c.y2 - c.y1)], [Kept(c)], px, py);
    CoverCountAppend(top + [Rect(0, c.y2, w, h - c.y2)] + left, [Rect(c.x2, c.y1, w - c.x2, c.y2 - c.y1)], px, py);
    CoverCountAppend(top + [Rect(0, c.y2, w, h - c.y2)], left, px, py);
    CoverCountAppend(top, [Rect(0, c.y2, w, h - c.y2)], px, py);
  }

  lemma TilesCover(c: CropCoords, w: int, h: int)
    requires InImage(c, w, h)
    ensures forall px, py :: CoverCount(Tiles(c, w, h), px, py) == if 0 <= px < w && 0 <= py < h then 1 else 0
  {
    forall px, py
      ensures CoverCount(Tiles(c, w, h), px, py) == if 0 <= px < w && 0 <= py < h then 1 else 0
    {
      TilesPixel(c, w, h, px, py);
    }
  }

  /** The band areas and the kept area add up to the image area. */
  lemma TilesArea(c: CropCoords, w: int, h: int)
    requires InImage(c, w, h)
    ensures AreaSum(Bands(c, w, h)) + Area(Kept(c)) == w * h
  {
    var top := if c.y1 > 0 then [Rect(0, 0, w, c.y1)] else [];
    var left := if c.x1 > 0 then [Rect(0, c.y1, c.x1, c.y2 - c.y1)] else [];
    var bottom, right := Rect(0, c.y2, w, h - c.y2), Rect(c.x2, c.y1, w - c.x2, c.y2 - c.y1);
    BandsPresent(c, w, h);
    AreaSumAppend(top + [bottom] + left, [right]);
    AreaSumAppend(top + [bottom], left);
    AreaSumAppend(top, [bottom]);
    assert AreaSum(top) == w * c.y1;
    assert AreaSum(left) == c.x1 * (c.y2 - c.y1);
    var band := c.y2 - c.y1;
    calc {
      w * c.y1 + w * (h - c.y2) + c.x1 * band + (w - c.x2) * band + (c.x2 - c.x1) * band;
      w * c.y1 + w * (h - c.y2) + (c.x1 + (w - c.x2) + (c.x2 - c.x1)) * band;
      w * c.y1 + w * (h - c.y2) + w * band;
      w * (c.y1 + (h - c.y2) + band);
    }
  }

  /**
   * The clamp to `w - 1` and `h - 1` and the bands starting at `x2` and `y2`
   * together mean that the last pixel column and the last pixel row of the
   * image are never in the kept rectangle.
   */
  lemma LastColumnAndRowDarkened(c: CropCoords, w: int, h: int, p: int)
    requires InImage(c, w, h)
    ensures !Covers(Kept(c), w - 1, p) && !Covers(Kept(c), p, h - 1)
    ensures 0 <= p < h ==> CoverCount(Bands(c, w, h), w - 1, p) == 1
  {
    if 0 <= p < h {
      TilesPixel(c, w, h, w - 1, p);
      CoverCountAppend(Bands(c, w, h), [Kept(c)], w - 1, p);
    }
  }

  /** Builds the band list the way `add_crop_visual_overlays` does, one `append` per drawn band. */
  method AppendBands(c: CropCoords, w: int, h: int) returns (bands: seq<Rect>)
    ensures bands == Bands(c, w, h)
  {
    bands := [];
    if c.y1 > 0 {
      bands := bands + [Rect(0, 0, w, c.y1)];
    }
    if c.y2 < h {
      bands := bands + [Rect(0, c.y2, w, h - c.y2)];
    }
    if c.x1 > 0 {
      bands := bands + [Rect(0, c.y1, c.x1, c.y2 - c.y1)];
    }
    if c.x2 < w {
      bands := bands + [Rect(c.x2, c.y1, w - c.x2, c.y2 - c.y1)];
    }
  }

  class CropManager {
    var cropMode: bool
    var cropRectItem: Option<int>
    var cropStartPos: Option<Point>
    var cropCoordsBySize: map<Size, CropCoords>
    var currentCropCoords: Option<CropCoords>
    var cropVisualOverlays: seq<Rect>
    var cropHoverOverlays: seq<Rect>
    var cropHoverEffectItems: seq<Rect>
    var isHoveringCrop: bool
    var multiViewCropOverlays: map<int, seq<Rect>>
    var multiViewCropStartPos: seq<Option<Point>>
    var multiViewCropRectItems: seq<Option<int>>

    constructor()
      ensures !cropMode && cropRectItem == None && cropStartPos == None
      ensures cropCoordsBySize == map[] && currentCropCoords == None
      ensures cropVisualOverlays == [] && cropHoverOverlays == [] && cropHoverEffectItems == [] && !isHoveringCrop
      ensures multiViewCropOverlays == map[] && multiViewCropStartPos == [] && multiViewCropRectItems == []
    {
      cropMode, cropRectItem, cropStartPos := false, None, None;
      cropCoordsBySize, currentCropCoords := map[], None;
      cropVisualOverlays, cropHoverOverlays, cropHoverEffectItems, isHoveringCrop := [], [], [], false;
      multiViewCropOverlays, multiViewCropStartPos, multiViewCropRectItems := map[], [], [];
    }

    /**
     * `_apply_single_view_crop_coordinates`: without an image path or with a
     * pixmap that failed to load only a status is reported; otherwise the
     * normalised crop becomes current, is remembered for the image size, and
     * the overlays and hover overlays are rebuilt from it.
     */
    method ApplySingleViewCropCoordinates(x1: int, y1: int, x2: int, y2: int, hasImagePath: bool, pixmap: Option<Size>)
      returns (status: Option<string>)
      modifies this`currentCropCoords, this`cropCoordsBySize, this`cropVisualOverlays, this`cropHoverOverlays, this`isHoveringCrop
      ensures !hasImagePath ==> status == Some("No image loaded")
      ensures hasImagePath && pixmap.None? ==> status == Some("Invalid image")
      ensures status.Some? ==> currentCropCoords == old(currentCropCoords) && cropCoordsBySize == old(cropCoordsBySize)
                               && cropVisualOverlays == old(cropVisualOverlays) && cropHoverOverlays == old(cropHoverOverlays)
                               && isHoveringCrop == old(isHoveringCrop)
      ensures status.None? <==> hasImagePath && pixmap.Some?
      ensures status.None? ==>
                var (w, h) := pixmap.value;
                var c := Normalize(x1, y1, x2, y2, w, h);
                && currentCropCoords == Some(c)
                && cropCoordsBySize == old(cropCoordsBySize)[(w, h) := c]
                && GetCropForImageSize(w, h) == Some(c)
                && cropVisualOverlays == Bands(c, w, h) && cropHoverOverlays == Bands(c, w, h)
                && !isHoveringCrop
    {
      if !hasImagePath {
        return Some("No image loaded");
      }
      if pixmap.None? {
        return Some("Invalid image");
      }
      var (w, h) := pixmap.value;
      var c := Normalize(x1, y1, x2, y2, w, h);
      currentCropCoords := Some(c);
      cropCoordsBySize := cropCoordsBySize[(w, h) := c];
      ApplyCropToImage(hasImagePath, pixmap);
      status := None;
    }

    /** `apply_crop_to_image`: the overlays and the hover overlays, when a crop and an image path exist. */
    method ApplyCropToImage(hasImagePath: bool, pixmap: Option<Size>)
      modifies this`cropVisualOverlays, this`cropHoverOverlays, this`isHoveringCrop
      ensures currentCropCoords.None? || !hasImagePath ==>
                cropVisualOverlays == old(cropVisualOverlays) && cropHoverOverlays == old(cropHoverOverlays) && isHoveringCrop == old(isHoveringCrop)
      ensures currentCropCoords.Some? && hasImagePath ==>
                cropVisualOverlays == OverlaysFor(pixmap) && cropHoverOverlays == OverlaysFor(pixmap) && !isHoveringCrop
    {
      if currentCropCoords.None? || !hasImagePath {
        return;
      }
      AddCropVisualOverlays(pixmap);
      AddCropHoverOverlay(hasImagePath, pixmap);
    }

    /** The bands of the current crop over an image of the given size; none without one. */
    function OverlaysFor(pixmap: Option<Size>): seq<Rect>
      reads this`currentCropCoords
    {
      if currentCropCoords.None? || pixmap.None? then []
      else Bands(currentCropCoords.value, pixmap.value.0, pixmap.value.1)
    }

    /** `add_crop_visual_overlays`: the old overlays go first, then one overlay per drawn band. */
    method AddCropVisualOverlays(pixmap: Option<Size>)
      modifies this`cropVisualOverlays
      ensures currentCropCoords.None? ==> cropVisualOverlays == old(cropVisualOverlays)
      ensures currentCropCoords.Some? ==> cropVisualOverlays == OverlaysFor(pixmap)
    {
      if currentCropCoords.None? {
        return;
      }
      cropVisualOverlays := [];
      if pixmap.None? {
        return;
      }
      cropVisualOverlays := AppendBands(currentCropCoords.value, pixmap.value.0, pixmap.value.1);
    }

    /** `add_crop_hover_overlay`: like the overlays, on the hover list, which also ends any hover. */
    method AddCropHoverOverlay(hasImagePath: bool, pixmap: Option<Size>)
      modifies this`cropHoverOverlays, this`isHoveringCrop
      ensures currentCropCoords.None? ==> cropHoverOverlays == old(cropHoverOverlays) && isHoveringCrop == old(isHoveringCrop)
      ensures currentCropCoords.Some? ==> !isHoveringCrop
      ensures currentCropCoords.Some? ==> cropHoverOverlays == if hasImagePath then OverlaysFor(pixmap) else []
    {
      if currentCropCoords.None? {
        return;
      }
      RemoveCropHoverOverlay();
      if !hasImagePath || pixmap.None? {
        return;
      }
      cropHoverOverlays := AppendBands(currentCropCoords.value, pixmap.value.0, pixmap.value.1);
    }

    /** `on_crop_hover_enter`: with a crop, hovering starts and the highlight is drawn; without an image path the old highlight stays. */
    method OnCropHoverEnter(hasImagePath: bool, pixmap: Option<Size>)
      modifies this`isHoveringCrop, this`cropHoverEffectItems
      ensures currentCropCoords.None? ==> isHoveringCrop == old(isHoveringCrop) && cropHoverEffectItems == old(cropHoverEffectItems)
      ensures currentCropCoords.Some? ==> isHoveringCrop
      ensures currentCropCoords.Some? && hasImagePath ==> cropHoverEffectItems == OverlaysFor(pixmap)
      ensures currentCropCoords.Some? && !hasImagePath ==> cropHoverEffectItems == old(cropHoverEffectItems)
    {
      if currentCropCoords.None? {
        return;
      }
      isHoveringCrop := true;
      ApplyCropHoverEffect(hasImagePath, pixmap);
    }

    /** `on_crop_hover_leave` */
    method OnCropHoverLeave()
      modifies this`isHoveringCrop, this`cropHoverEffectItems
      ensures !isHoveringCrop && cropHoverEffectItems == []
    {
      isHoveringCrop := false;
      RemoveCropHoverEffect();
    }

    /** `apply_crop_hover_effect`: without a crop or an image path the old highlight stays. */
    method ApplyCropHoverEffect(hasImagePath: bool, pixmap: Option<Size>)
      modifies this`cropHoverEffectItems
      ensures currentCropCoords.None? || !hasImagePath ==> cropHoverEffectItems == old(cropHoverEffectItems)
      ensures currentCropCoords.Some? && hasImagePath ==> cropHoverEffectItems == OverlaysFor(pixmap)
    {
      if currentCropCoords.None? || !hasImagePath {
        return;
      }
      RemoveCropHoverEffect();
      if pixmap.None? {
        return;
      }
      cropHoverEffectItems := AppendBands(currentCropCoords.value, pixmap.value.0, pixmap.value.1);
    }

    /** `remove_crop_visual_overlays` */
    method RemoveCropVisualOverlays()
      modifies this`cropVisualOverlays
      ensures cropVisualOverlays == []
    {
      cropVisualOverlays := [];
    }

    /** `remove_crop_hover_overlay`: also ends any hover. */
    method RemoveCropHoverOverlay()
      modifies this`cropHoverOverlays, this`isHoveringCrop
      ensures cropHoverOverlays == [] && !isHoveringCrop
    {
      cropHoverOverlays := [];
      isHoveringCrop := false;
    }

    /** `remove_crop_hover_effect` */
    method RemoveCropHoverEffect()
      modifies this`cropHoverEffectItems
      ensures cropHoverEffectItems == []
    {
      cropHoverEffectItems := [];
    }

    /** `remove_crop_visual`: the drawn rectangle, the overlays, the hover overlays and the highlight. */
    method RemoveCropVisual()
      modifies this`cropRectItem, this`cropVisualOverlays, this`cropHoverOverlays, this`isHoveringCrop, this`cropHoverEffectItems
      ensures cropRectItem == None && cropVisualOverlays == [] && cropHoverOverlays == [] && cropHoverEffectItems == []
      ensures !isHoveringCrop
    {
      cropRectItem := None;
      RemoveCropVisualOverlays();
      RemoveCropHoverOverlay();
      RemoveCropHoverEffect();
    }

    /** `get_crop_for_image_size`: the crop remembered for a `width` by `height` image, if any. */
    function GetCropForImageSize(width: int, height: int): (r: Option<CropCoords>)
      reads this`cropCoordsBySize
      ensures r.Some? <==> (width, height) in cropCoordsBySize
      ensures r.Some? ==> cropCoordsBySize[(width, height)] == r.value
    {
      if (width, height) in cropCoordsBySize then Some(cropCoordsBySize[(width, height)]) else None
    }

    /**
     * `reset_state`: crop mode, the drawn rectangle, its start, the current
     * crop and every overlay collection are cleared; the crops remembered per
     * image size survive.
     */
    method ResetState()
      modifies this`cropMode, this`cropRectItem, this`cropStartPos, this`currentCropCoords
      modifies this`cropVisualOverlays, this`cropHoverOverlays, this`cropHoverEffectItems, this`isHoveringCrop
      modifies this`multiViewCropOverlays, this`multiViewCropStartPos, this`multiViewCropRectItems
      ensures !cropMode && cropRectItem == None && cropStartPos == None && currentCropCoords == None
      ensures cropVisualOverlays == [] && cropHoverOverlays == [] && cropHoverEffectItems == [] && !isHoveringCrop
      ensures multiViewCropOverlays == map[] && multiViewCropStartPos == [] && multiViewCropRectItems == []
      ensures cropCoordsBySize == old(cropCoordsBySize)
    {
      cropMode := false;
      cropRectItem := None;
      cropStartPos := None;
      currentCropCoords := None;
      RemoveCropVisual();
      RemoveCropHoverOverlay();
      RemoveCropHoverEffect();
      cropVisualOverlays, cropHoverOverlays, cropHoverEffectItems := [], [], [];
      multiViewCropOverlays, multiViewCropStartPos, multiViewCropRectItems := map[], [], [];
    }
  }
}
