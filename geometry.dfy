/**
 * Points, pixels and binary masks.
 *
 * A numpy boolean mask of shape (h, w) is modelled as its height, width and the
 * finite set of (row, column) pairs that are set.  Rasterisation (cv2.fillPoly),
 * connected-component labelling (cv2.connectedComponents) and nearest-neighbour
 * resizing (cv2.resize) are opaque image operations; they appear as
 * function-typed parameters, constrained by the predicates below.
 */
module Geometry {
  import opened Wrappers

  /** A scene coordinate, as stored in a segment's vertex list `[x, y]`. */
  datatype Point = Point(x: real, y: real)

  type Pixel = (int, int)

  datatype Mask = Mask(h: int, w: int, px: set<Pixel>)
  {
    /** `np.any(mask)` */
    predicate Any() { px != {} }

    predicate SameShape(other: Mask) { h == other.h && w == other.w }

    /** Every set pixel lies on the h-by-w grid. */
    predicate WellFormed()
    {
      forall p | p in px :: 0 <= p.0 < h && 0 <= p.1 < w
    }
  }

  function Empty(h: int, w: int): Mask { Mask(h, w, {}) }

  /** `np.logical_or(a, b)` on masks of one shape. */
  function Or(a: Mask, b: Mask): (r: Mask)
    ensures r.SameShape(a) && r.px == a.px + b.px
  {
    Mask(a.h, a.w, a.px + b.px)
  }

  /** `np.logical_and(a, ~b)`: the pixels of `a` that `b` does not set. */
  function Minus(a: Mask, b: Mask): (r: Mask)
    ensures r.SameShape(a)
    ensures forall p :: p in r.px <==> p in a.px && p !in b.px
  {
    Mask(a.h, a.w, a.px - b.px)
  }

  /** `np.any(np.logical_and(a, b))` */
  predicate Overlaps(a: Mask, b: Mask)
  {
    a.px * b.px != {}
  }

  function Sq(a: real): real { a * a }

  /**
   * The polygon-closing test of a click: the polygon has more than 2 points and
   * the click lands within the join threshold of the first
   * (`dx ** 2 + dy ** 2 < threshold ** 2`).
   */
  predicate PolygonCloses(points: seq<Point>, pos: Point, threshold: real)
  {
    |points| > 2 && Sq(pos.x - points[0].x) + Sq(pos.y - points[0].y) < Sq(threshold)
  }

  /** A rasteriser: the pixels cv2.fillPoly sets for a polygon on an h-by-w canvas. */
  type Rasterizer = (seq<Point>, int, int) -> set<Pixel>

  /** `rasterize_polygon`: no mask for an empty vertex list, else an h-by-w mask. */
  function RasterizePolygon(raster: Rasterizer, vertices: seq<Point>, h: int, w: int): (r: Option<Mask>)
    ensures r.None? <==> vertices == []
    ensures r.Some? ==> r.value == Mask(h, w, raster(vertices, h, w))
  {
    if vertices == [] then None else Some(Mask(h, w, raster(vertices, h, w)))
  }

  /**
   * What connected-component labelling returns for a mask: the components are
   * non-empty, pairwise disjoint, of the mask's shape, and together they are the
   * mask.
   */
  ghost predicate IsPartition(m: Mask, comps: seq<Mask>)
  {
    && (forall i | 0 <= i < |comps| :: comps[i].Any() && comps[i].SameShape(m) && comps[i].px <= m.px)
    && (forall i, j | 0 <= i < j < |comps| :: comps[i].px * comps[j].px == {})
    && (forall p | p in m.px :: exists i :: 0 <= i < |comps| && p in comps[i].px)
  }

  type Labeller = Mask -> seq<Mask>

  ghost predicate LabellerSound(labeller: Labeller)
  {
    forall m :: IsPartition(m, labeller(m))
  }
}
