/**
 * Glyph geometry. A path is kept as the chain of svgpath operations applied
 * to the parsed icon path; only its bounding box is computed, which is all
 * the style dispatch needs. Printing the transformed path is left to svgpath.
 */
module Geometry {
  import opened Wrappers
  import opened BuildErrors

  /** Side of the 24x24 source view box. */
  const VIEWBOX_SIZE: real := 24.0
  /** Advance of a glyph one view box wide. */
  const FULL_ADVANCE: real := 1200.0
  /** The styles the build emits a font for, in build order. */
  const TARGET_STYLES: seq<string> := ["Regular", "Squared"]

  /** An axis-aligned bounding box `[x0, y0, x1, y1]` as svg-path-bbox reports it. */
  datatype Box = Box(x0: real, y0: real, x1: real, y1: real) {
    function Width(): real { x1 - x0 }
    function Height(): real { y1 - y0 }
  }

  datatype Path =
    /** `SVGPath(icon.path)`, with the bounding box svg-path-bbox computes for it. */
    | Parsed(data: string, bounds: Box)
    | Scaled(base: Path, sx: real, sy: real)
    | Translated(base: Path, dx: real, dy: real)
    | Rounded(base: Path, digits: nat)

  /** Paths whose bounding box the model can follow: no rounding, no mirroring. */
  predicate Measurable(p: Path) {
    match p
    case Parsed(_, _) => true
    case Scaled(q, sx, sy) => sx > 0.0 && sy > 0.0 && Measurable(q)
    case Translated(q, _, _) => Measurable(q)
    case Rounded(_, _) => false
  }

  /** `svgPathBbox(p)`: a positive scaling scales the box, a translation moves it. */
  function BBox(p: Path): Box
    requires Measurable(p)
  {
    match p
    case Parsed(_, b) => b
    case Scaled(q, sx, sy) =>
      var b := BBox(q);
      Box(b.x0 * sx, b.y0 * sy, b.x1 * sx, b.y1 * sy)
    case Translated(q, dx, dy) =>
      var b := BBox(q);
      Box(b.x0 + dx, b.y0 + dy, b.x1 + dx, b.y1 + dy)
  }

  /** `verticalTransform`: move up one view box, scale by 50 flipping y, round to 6 digits. */
  function VerticalTransform(p: Path): Path {
    Rounded(Scaled(Translated(p, 0.0, -VIEWBOX_SIZE), 50.0, -50.0), 6)
  }

  /** The `{ path, horizAdvX }` pair a style produces for one icon. */
  datatype Shape = Shape(path: Path, horizAdvX: real)

  predicate IsWide(b: Box) { b.Width() > b.Height() }

  /**
   * Paths the Regular style can handle: a wide path needs a positive height,
   * since its scale factor is `24 / height`.
   */
  predicate Drawable(p: Path) {
    Measurable(p) && (IsWide(BBox(p)) ==> BBox(p).Height() > 0.0)
  }

  /** The scaling step of `pathReset`: only a path wider than tall is scaled, by `24 / height`. */
  function Rescaled(p: Path): (r: Path)
    requires Drawable(p)
    ensures Measurable(r)
  {
    var b := BBox(p);
    if IsWide(b) then Scaled(p, VIEWBOX_SIZE / b.Height(), VIEWBOX_SIZE / b.Height()) else p
  }

  /**
   * `pathReset` of `convertToAspectRatioViewbox`: the rescaled path moved so
   * that its box starts at the origin.
   */
  function AspectRatioPath(p: Path): (r: Path)
    requires Drawable(p)
    ensures Measurable(r)
  {
    var rescaled := Rescaled(p);
    var offset := BBox(rescaled);
    Translated(rescaled, -offset.x0, -offset.y0)
  }

  /** A wide path's rescaled box is 24 high, and its width grows by the same factor. */
  lemma WideRescaledBox(p: Path)
    requires Drawable(p) && IsWide(BBox(p))
    ensures var b, r := BBox(p), BBox(Rescaled(p));
      r.Height() == VIEWBOX_SIZE && r.Width() == b.Width() * (VIEWBOX_SIZE / b.Height())
  {
    var b := BBox(p);
    var scale := VIEWBOX_SIZE / b.Height();
    assert BBox(Rescaled(p)) == Box(b.x0 * scale, b.y0 * scale, b.x1 * scale, b.y1 * scale);
    assert b.x1 * scale - b.x0 * scale == b.Width() * scale;
    assert b.y1 * scale - b.y0 * scale == b.Height() * scale;
    assert b.Height() * scale == VIEWBOX_SIZE;
  }

  /** Moving a box by minus its corner puts it at the origin and keeps its size. */
  lemma ResetBox(p: Path)
    requires Drawable(p)
    ensures var q, r := BBox(Rescaled(p)), BBox(AspectRatioPath(p));
      r.x0 == 0.0 && r.y0 == 0.0 && r.Width() == q.Width() && r.Height() == q.Height()
  {
  }

  /**
   * The reset box starts at the origin. It keeps its size unless the path is
   * wide; then its height becomes 24 and its width scales by the same factor.
   */
  lemma AspectRatioBox(p: Path)
    requires Drawable(p)
    ensures var b, r := BBox(p), BBox(AspectRatioPath(p));
      && r.x0 == 0.0 && r.y0 == 0.0
      && (IsWide(b) ==> r.Height() == VIEWBOX_SIZE && r.Width() == b.Width() * (VIEWBOX_SIZE / b.Height()))
      && (!IsWide(b) ==> r.Width() == b.Width() && r.Height() == b.Height())
  {
    ResetBox(p);
    if IsWide(BBox(p)) {
      WideRescaledBox(p);
    }
  }

  /** `convertToAspectRatioViewbox`: the advance follows the normalized width. */
  function ConvertToAspectRatioViewbox(p: Path): Shape
    requires Drawable(p)
  {
    var reset := AspectRatioPath(p);
    var b := BBox(reset);
    Shape(VerticalTransform(reset), (b.x1 - b.x0) / VIEWBOX_SIZE * FULL_ADVANCE)
  }

  /**
   * `transform`: a closed two-way dispatch on the style name. Squared keeps
   * the geometry and fixes the advance at 1200; any other name throws.
   */
  function Transform(p: Path, style: string): (r: Result<Shape, BuildError>)
    requires style == "Regular" ==> Drawable(p)
    ensures r.Success? <==> style in TARGET_STYLES
    ensures r.Failure? ==> r.error == InvalidStyle(style)
    ensures style == "Squared" ==>
      r.Success? && r.value.horizAdvX == FULL_ADVANCE && r.value.path == VerticalTransform(p)
  {
    if style == "Regular" then Success(ConvertToAspectRatioViewbox(p))
    else if style == "Squared" then Success(Shape(VerticalTransform(p), FULL_ADVANCE))
    else Failure(InvalidStyle(style))
  }

  /**
   * The Regular advance is 1200 per view box of normalized width: for a wide
   * path 1200 times its aspect ratio, otherwise 1200 times its width over 24.
   */
  lemma RegularAdvance(p: Path)
    requires Drawable(p)
    ensures var b := BBox(p);
      Transform(p, "Regular").value.horizAdvX ==
        if IsWide(b) then b.Width() / b.Height() * FULL_ADVANCE
        else b.Width() / VIEWBOX_SIZE * FULL_ADVANCE
  {
    if IsWide(BBox(p)) {
      WideAdvanceIsAspectRatio(p);
    } else {
      AdvanceIsResetWidth(p);
      ResetBox(p);
    }
  }

  lemma WideAdvanceIsAspectRatio(p: Path)
    requires Drawable(p) && IsWide(BBox(p))
    ensures Transform(p, "Regular").value.horizAdvX == BBox(p).Width() / BBox(p).Height() * FULL_ADVANCE
  {
    var b := BBox(p);
    var w := BBox(AspectRatioPath(p)).Width();
    AdvanceIsResetWidth(p);
    ResetBox(p);
    WideRescaledBox(p);
    AdvanceOfScaledWidth(b.Width(), b.Height(), w);
  }

  /** The arithmetic step alone, kept apart from the box definitions. */
  lemma AdvanceOfScaledWidth(w: real, h: real, scaled: real)
    requires h > 0.0 && scaled == w * (VIEWBOX_SIZE / h)
    ensures scaled / VIEWBOX_SIZE * FULL_ADVANCE == w / h * FULL_ADVANCE
  {
  }

  lemma AdvanceIsResetWidth(p: Path)
    requires Drawable(p)
    ensures Transform(p, "Regular").value.horizAdvX == BBox(AspectRatioPath(p)).Width() / VIEWBOX_SIZE * FULL_ADVANCE
  {
  }

  /** A full square gets the full advance of 1200. */
  lemma SquareAdvance(data: string)
    ensures Transform(Parsed(data, Box(0.0, 0.0, 24.0, 24.0)), "Regular").value.horizAdvX == 1200.0
  {
    RegularAdvance(Parsed(data, Box(0.0, 0.0, 24.0, 24.0)));
  }

  /** A glyph half a view box wide gets 600. */
  lemma NarrowAdvance(data: string)
    ensures Transform(Parsed(data, Box(0.0, 0.0, 12.0, 24.0)), "Regular").value.horizAdvX == 600.0
  {
    RegularAdvance(Parsed(data, Box(0.0, 0.0, 12.0, 24.0)));
  }

  /** A 48x24 glyph is scaled by 24/24 = 1, not shrunk, and gets 2400. */
  lemma WideAdvance(data: string)
    ensures Transform(Parsed(data, Box(0.0, 0.0, 48.0, 24.0)), "Regular").value.horizAdvX == 2400.0
  {
    var p := Parsed(data, Box(0.0, 0.0, 48.0, 24.0));
    RegularAdvance(p);
    assert BBox(p).Width() == 48.0 && BBox(p).Height() == 24.0;
    assert 48.0 / 24.0 * FULL_ADVANCE == 2400.0;
  }
}
