/**
 * The first version of the layout engine, src/utils.ts, which App.tsx
 * still uses: one boolean rotate90 for every image instead of per-frame
 * quarter turns, the same canvas and cell geometry, and a fileToImage
 * that converts every HEIC file before decoding it. The geometry shared
 * with src/utils/grid.ts (clampPositive, canvas size, cells, fit scale,
 * centring) is the same code in both files and is reused from Grid.
 */
module LegacyUtils {
  import opened Wrappers
  import opened JsBuiltins
  import opened Platform
  import opened Errors
  import opened Options
  import opened Grid
  import ImageFiles

  /** The older ComposeOptions: the current fields plus rotate90; an absent cropToFill is false. */
  datatype LegacyOptions = LegacyOptions(rotate90: bool, base: ComposeOptions)

  /** The decoded images all have a positive size. */
  predicate PositiveImages(images: seq<ImageSize>) {
    forall i :: 0 <= i < |images| ==> images[i].width > 0 && images[i].height > 0
  }

  /** The quarter-turn count the boolean stands for. */
  function TurnsOf(rotate: bool): JsNumber {
    if rotate then Finite(1.0) else Finite(0.0)
  }

  /** dims: width and height swapped exactly when rotating; the same footprint as one quarter turn (or none) in the newer engine. */
  function LegacyDims(img: ImageSize, rotate: bool): (d: ImageSize)
    ensures rotate ==> d == ImageSize(img.height, img.width)
    ensures !rotate ==> d == img
    ensures d == Dims(img, TurnsOf(rotate))
  {
    assert Trunc(1.0) == 1 && Trunc(0.0) == 0;
    if rotate then ImageSize(img.height, img.width) else img
  }

  /**
   * drawImageRotated: without rotation the image is drawn straight into the
   * destination; with it the context is translated to (dx, dy), then down
   * by dh, turned a quarter back, and a dh-by-dw rectangle drawn at the origin.
   */
  function LegacyDrawImageRotated(rotate: bool, dx: int, dy: int, dw: int, dh: int): (call: DrawCall)
    ensures call.transform == [] <==> !rotate
    ensures !rotate ==> call.target == Rect(dx, dy, dw, dh)
    ensures rotate ==> call.target == Rect(0, 0, dh, dw)
  {
    if !rotate then DrawCall([], Rect(dx, dy, dw, dh))
    else DrawCall([Translate(dx, dy), Translate(0, dh), Rotate(-1)], Rect(0, 0, dh, dw))
  }

  /** The rotated call's three operations, point by point. */
  lemma LegacyQuarterBackAt(dx: int, dy: int, dh: int, p: Point)
    ensures var ops := LegacyDrawImageRotated(true, dx, dy, 0, dh).transform;
      && ApplyTransform(ops, p) == Point(dx as real + p.y, (dy + dh) as real - p.x)
      && UnapplyTransform(ops, p) == Point((dy + dh) as real - p.y, p.x - dx as real)
  {
    var ops := LegacyDrawImageRotated(true, dx, dy, 0, dh).transform;
    var tail := [Translate(0, dh), Rotate(-1)];
    assert ops[0] == Translate(dx, dy) && ops[1..] == tail;
    assert ApplyTransform(ops, p) == ApplyOp(Translate(dx, dy), ApplyTransform(tail, p));
    TwoOps(Translate(0, dh), Rotate(-1), p);
    RotateMinusOne(p);
    var q := UnapplyOp(Translate(dx, dy), p);
    assert UnapplyTransform(ops, p) == UnapplyTransform(tail, q);
    TwoOps(Translate(0, dh), Rotate(-1), q);
    var r := UnapplyOp(Translate(0, dh), q);
    RotatePlusOne(r);
    assert UnapplyOp(Rotate(-1), r) == RotatePoint(1, r);
  }

  /**
   * The rotated call moves every point exactly as the newer engine's one
   * quarter turn does, and draws the same target: the two transforms differ
   * only in how the translation is split.
   */
  lemma LegacyRotationIsQuarterTurn(dx: int, dy: int, dw: int, dh: int, p: Point)
    ensures var legacy := LegacyDrawImageRotated(true, dx, dy, dw, dh);
      var current := DrawImageRotated(Finite(1.0), dx, dy, dw, dh);
      && legacy.target == current.target
      && ApplyTransform(legacy.transform, p) == ApplyTransform(current.transform, p)
      && UnapplyTransform(legacy.transform, p) == UnapplyTransform(current.transform, p)
  {
    assert NormalizedTurns(Finite(1.0)) == 1 by { assert Trunc(1.0) == 1; }
    LegacyQuarterBackAt(dx, dy, dh, p);
    QuarterBackAt(dx, dy + dh, p);
  }

  /** Rotated or not, the drawn rectangle covers exactly the destination rectangle. */
  lemma LegacyDrawFootprintExact(rotate: bool, dx: int, dy: int, dw: int, dh: int)
    requires dw >= 0 && dh >= 0
    ensures var c := LegacyDrawImageRotated(rotate, dx, dy, dw, dh);
      && (forall p :: InRect(p, c.target) ==> InRect(ApplyTransform(c.transform, p), Rect(dx, dy, dw, dh)))
      && (forall q :: InRect(q, Rect(dx, dy, dw, dh)) ==>
            InRect(UnapplyTransform(c.transform, q), c.target) && ApplyTransform(c.transform, UnapplyTransform(c.transform, q)) == q)
  {
    var c := LegacyDrawImageRotated(rotate, dx, dy, dw, dh);
    if rotate {
      forall p | InRect(p, c.target)
        ensures InRect(ApplyTransform(c.transform, p), Rect(dx, dy, dw, dh))
      {
        LegacyQuarterBackAt(dx, dy, dh, p);
      }
      forall q | InRect(q, Rect(dx, dy, dw, dh))
        ensures InRect(UnapplyTransform(c.transform, q), c.target)
        ensures ApplyTransform(c.transform, UnapplyTransform(c.transform, q)) == q
      {
        LegacyQuarterBackAt(dx, dy, dh, q);
        TransformInverse(c.transform, q);
      }
    }
  }

  // ---------------------------------------------------------------- the plan

  /** What the engine does for image i: the shared cell, size and centring, then the boolean rotation. */
  function LegacyPlaceImage(g: Geometry, i: nat, img: ImageSize, rotate: bool): Placement
    requires g.cols >= 1 && img.width > 0 && img.height > 0
  {
    var d := LegacyDims(img, rotate);
    var target := PlacedSize(g, d);
    var cell := CellRect(g, i);
    var (dx, dy) := Centre(cell, target);
    Placement(cell, g.crop, Rect(dx, dy, target.width, target.height),
              LegacyDrawImageRotated(rotate, dx, dy, target.width, target.height))
  }

  function LegacyPlacements(g: Geometry, images: seq<ImageSize>, rotate: bool): (ps: seq<Placement>)
    requires g.cols >= 1 && PositiveImages(images)
    ensures |ps| == |images|
  {
    seq(|images|, i requires 0 <= i < |images| => LegacyPlaceImage(g, i, images[i], rotate))
  }

  /** createGridCanvas as a value: the count check, then the usable-area check, then one placement per image. */
  function LegacyPlan(images: seq<ImageSize>, opts: LegacyOptions): (r: Result<DrawPlan, LayoutError>)
    requires ValidShape(opts.base) && PositiveImages(images)
    ensures r.Success? <==> |images| == opts.base.rows * opts.base.cols && Fits(GeometryOf(opts.base))
    ensures r.Success? ==> r.value.width == GeometryOf(opts.base).outW && r.value.height == GeometryOf(opts.base).outH
                           && |r.value.placements| == |images|
  {
    var o := opts.base;
    if |images| != o.rows * o.cols then Failure(CountMismatch(o.rows * o.cols, |images|))
    else
      var g := GeometryOf(o);
      if !Fits(g) then Failure(TooSmall)
      else Success(DrawPlan(g.outW, g.outH, o.separatorColor, LegacyPlacements(g, images, opts.rotate90)))
  }

  /** createGridCanvas: the two checks, then a loop placing the images in order. */
  method LegacyCreateGridCanvas(images: seq<ImageSize>, opts: LegacyOptions) returns (r: Result<DrawPlan, LayoutError>)
    requires ValidShape(opts.base) && PositiveImages(images)
    ensures r == LegacyPlan(images, opts)
    ensures r.Failure? && r.error.CountMismatch? <==> |images| != opts.base.rows * opts.base.cols
    ensures r.Success? ==> r.value.width >= 8 && r.value.height >= 8 && |r.value.placements| == |images|
  {
    var o := opts.base;
    var expected := o.rows * o.cols;
    if |images| != expected {
      return Failure(CountMismatch(expected, |images|));
    }
    var g := GeometryOf(o);
    var usableWidth := g.outW - TotalGap(g.cols, g.gap);
    var usableHeight := g.outH - TotalGap(g.rows, g.gap);
    if usableWidth <= 0 || usableHeight <= 0 {
      return Failure(TooSmall);
    }
    var placements: seq<Placement> := [];
    for idx := 0 to |images|
      invariant |placements| == idx
      invariant forall j :: 0 <= j < idx ==> placements[j] == LegacyPlaceImage(g, j, images[j], opts.rotate90)
    {
      placements := placements + [LegacyPlaceImage(g, idx, images[idx], opts.rotate90)];
    }
    assert placements == LegacyPlacements(g, images, opts.rotate90);
    r := Success(DrawPlan(g.outW, g.outH, o.separatorColor, placements));
  }

  /** The frames the newer engine would receive for the same images: each with one quarter turn, or none. */
  function FramesFor(images: seq<ImageSize>, rotate: bool): (frames: seq<Frame>)
    requires PositiveImages(images)
    ensures |frames| == |images| && Decoded(frames)
  {
    seq(|images|, i requires 0 <= i < |images| => Frame(images[i], TurnsOf(rotate)))
  }

  /** One image is placed in the same cell, at the same destination and with the same target as the newer engine places it. */
  lemma LegacyPlacementAgrees(g: Geometry, i: nat, img: ImageSize, rotate: bool)
    requires g.cols >= 1 && img.width > 0 && img.height > 0
    ensures var a := LegacyPlaceImage(g, i, img, rotate);
      var b := PlaceFrame(g, i, Frame(img, TurnsOf(rotate)));
      && a.cell == b.cell && a.clipped == b.clipped && a.dest == b.dest
      && a.draw.target == b.draw.target
      && (!rotate ==> a.draw == b.draw)
      && (rotate ==> b.draw == DrawImageRotated(Finite(1.0), a.dest.left, a.dest.top, a.dest.width, a.dest.height))
  {
    assert NormalizedTurns(Finite(1.0)) == 1 by { assert Trunc(1.0) == 1; }
    assert NormalizedTurns(Finite(0.0)) == 0 by { assert Trunc(0.0) == 0; }
  }

  /**
   * The older engine makes the plan the newer one makes for the same images
   * with rotate90 read as one quarter turn: the same error, or the same
   * canvas, fill, cells and destinations, with draw calls that agree point
   * for point (LegacyRotationIsQuarterTurn).
   */
  lemma LegacyPlanAgrees(images: seq<ImageSize>, opts: LegacyOptions)
    requires ValidShape(opts.base) && PositiveImages(images)
    ensures var a := LegacyPlan(images, opts);
      var b := Plan(FramesFor(images, opts.rotate90), opts.base);
      && (a.Failure? <==> b.Failure?)
      && (a.Failure? ==> a.error == b.error)
      && (a.Success? ==>
            && a.value.width == b.value.width && a.value.height == b.value.height && a.value.fill == b.value.fill
            && |a.value.placements| == |b.value.placements|
            && forall i :: 0 <= i < |a.value.placements| ==>
                 a.value.placements[i].cell == b.value.placements[i].cell
                 && a.value.placements[i].dest == b.value.placements[i].dest
                 && a.value.placements[i].draw.target == b.value.placements[i].draw.target)
  {
    var a := LegacyPlan(images, opts);
    var frames := FramesFor(images, opts.rotate90);
    if a.Success? {
      var g := GeometryOf(opts.base);
      forall i | 0 <= i < |images|
        ensures a.value.placements[i].cell == Placements(g, frames)[i].cell
        ensures a.value.placements[i].dest == Placements(g, frames)[i].dest
        ensures a.value.placements[i].draw.target == Placements(g, frames)[i].draw.target
      {
        LegacyPlacementAgrees(g, i, images[i], opts.rotate90);
      }
    }
  }

  /** composeGrid: a layout error is thrown as an Error with the engine's message; otherwise the plan is encoded. */
  function LegacyComposeGrid(images: seq<ImageSize>, opts: LegacyOptions, encode: (DrawPlan, EncodeRequest) -> Option<Blob>)
    : (r: Result<Option<Blob>, Thrown>)
    requires ValidShape(opts.base) && PositiveImages(images)
    ensures r.Failure? <==> LegacyPlan(images, opts).Failure?
    ensures r.Failure? ==> r.error == ErrorObject(LegacyPlan(images, opts).error.Message())
    ensures r.Success? ==> r.value == encode(LegacyPlan(images, opts).value, EncodeRequestFor(opts.base))
  {
    match LegacyPlan(images, opts)
    case Failure(e) => Failure(ErrorObject(e.Message()))
    case Success(plan) => Success(encode(plan, EncodeRequestFor(opts.base)))
  }

  // ---------------------------------------------------------------- decoding

  /**
   * fileToImage: a HEIC file (by the same isHeicFile test as the newer
   * module) is always converted first and the first blob of an array result
   * decoded; any other file is decoded as it is. An empty array leaves the
   * blob undefined, and URL.createObjectURL then throws urlError. Nothing is
   * cached and the raw HEIC file is never tried.
   */
  function LegacyFileToImage(file: FileInfo, decode: ImageFiles.DecodeSource -> Result<ImageSize, Thrown>, urlError: Thrown,
                             importError: Option<Thrown>, convert: FileInfo -> Result<ImageFiles.Converted, Thrown>)
    : (r: Result<ImageSize, Thrown>)
    ensures !ImageFiles.IsHeicFile(file) ==> r == decode(ImageFiles.RawFile(file))
    ensures ImageFiles.IsHeicFile(file) && importError.Some? ==> r == Failure(importError.value)
    ensures ImageFiles.IsHeicFile(file) && importError.None? && convert(file).Failure? ==> r == Failure(convert(file).error)
    ensures ImageFiles.IsHeicFile(file) && importError.None? && convert(file).Success? ==>
              r == ImageFiles.DecodeKept(ImageFiles.Normalized(convert(file).value), decode, urlError)
    ensures ImageFiles.IsHeicFile(file) && importError.None? && convert(file) == Success(ImageFiles.Many([])) ==>
              r == Failure(urlError)
  {
    if !ImageFiles.IsHeicFile(file) then decode(ImageFiles.RawFile(file))
    else if importError.Some? then Failure(importError.value)
    else
      match convert(file)
      case Failure(e) => Failure(e)
      case Success(c) => ImageFiles.DecodeKept(ImageFiles.Normalized(c), decode, urlError)
  }

  /** A HEIC file never reaches the decoder as the raw file, whatever the decoder would have made of it. */
  lemma LegacyHeicNeverRaw(file: FileInfo, decode: ImageFiles.DecodeSource -> Result<ImageSize, Thrown>, urlError: Thrown,
                           importError: Option<Thrown>, convert: FileInfo -> Result<ImageFiles.Converted, Thrown>)
    requires ImageFiles.IsHeicFile(file)
    ensures var r := LegacyFileToImage(file, decode, urlError, importError, convert);
      r.Success? ==>
        (exists b :: convert(file) == Success(ImageFiles.Single(b)) && r == decode(ImageFiles.ConvertedBlob(b)))
        || (exists bs :: convert(file) == Success(ImageFiles.Many(bs)) && |bs| > 0 && r == decode(ImageFiles.ConvertedBlob(bs[0])))
  {
    var r := LegacyFileToImage(file, decode, urlError, importError, convert);
    if r.Success? {
      match convert(file).value
      case Single(b) =>
        assert convert(file) == Success(ImageFiles.Single(b));
      case Many(bs) =>
        assert convert(file) == Success(ImageFiles.Many(bs));
    }
  }
}
