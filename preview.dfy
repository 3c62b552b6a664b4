/**
 * The preview of src/components/Preview/PreviewCanvas.tsx: a placeholder of
 * the maximum size while no full group is available, otherwise the first
 * grid planned by the engine and drawn scaled down (never up) and centred
 * on a canvas of at least 320 by 240 pixels.
 */
module Preview {
  import opened Wrappers
  import opened JsBuiltins
  import opened Platform
  import opened Errors
  import opened Options
  import opened Grid
  import opened Batch
  import opened GridBuilder

  /** The result of the fit arithmetic: the common scale, the drawn size, the canvas size and the offsets. */
  datatype Fit = Fit(scale: real, drawWidth: int, drawHeight: int, width: int, height: int, offsetX: int, offsetY: int)

  /** `side || 1`: a zero side counts as 1. */
  function NonZero(side: nat): (s: int)
    ensures s >= 1
    ensures side != 0 ==> s == side
  {
    if side == 0 then 1 else side
  }

  /** A rounded value below an integer bound stays below it. */
  lemma RoundAtMost(x: real, n: int)
    requires x <= n as real
    ensures Round(x) <= n
  {
  }

  /** Half of a non-negative gap, rounded, fits in the gap. */
  lemma RoundHalfWithin(d: int)
    requires d >= 0
    ensures 0 <= Round(d as real / 2.0) <= d
  {
    if d == 0 {
      RoundOfInteger(0);
    }
  }

  /** A side scaled by a factor at most bound / side is at most the bound. */
  lemma ScaledAtMost(side: int, scale: real, bound: real)
    requires side >= 1 && scale <= bound / side as real
    ensures side as real * scale <= bound
  {
    var s := side as real;
    assert s * scale <= s * (bound / s);
  }

  /**
   * The fit of a grid canvas of srcW by srcH into maxW by maxH: one scale,
   * min(maxW / srcW, maxH / srcH, 1), for both axes; each drawn side rounded
   * and at least 1; the canvas at least 320 by 240 and at least the drawn
   * size; the image centred with rounded offsets.
   */
  function FitPreview(srcW: nat, srcH: nat, maxW: int, maxH: int): (f: Fit)
    ensures f.scale <= 1.0
    ensures f.scale <= maxW as real / NonZero(srcW) as real && f.scale <= maxH as real / NonZero(srcH) as real
    ensures f.scale == PreviewScale(NonZero(srcW), NonZero(srcH), maxW, maxH)
    ensures f.drawWidth == DrawnSide(NonZero(srcW), f.scale) && f.drawHeight == DrawnSide(NonZero(srcH), f.scale)
    ensures f.width >= 320 && f.width >= f.drawWidth && f.height >= 240 && f.height >= f.drawHeight
    ensures 0 <= f.offsetX && f.offsetX + f.drawWidth <= f.width
    ensures 0 <= f.offsetY && f.offsetY + f.drawHeight <= f.height
  {
    var sw, sh := NonZero(srcW), NonZero(srcH);
    var scale := PreviewScale(sw, sh, maxW, maxH);
    var drawWidth := DrawnSide(sw, scale);
    var drawHeight := DrawnSide(sh, scale);
    var width := Max(320, drawWidth);
    var height := Max(240, drawHeight);
    RoundHalfWithin(width - drawWidth);
    RoundHalfWithin(height - drawHeight);
    Fit(scale, drawWidth, drawHeight, width, height,
        Round((width - drawWidth) as real / 2.0), Round((height - drawHeight) as real / 2.0))
  }

  /** The common scale of both axes: min(maxW / sw, maxH / sh, 1). */
  function PreviewScale(sw: int, sh: int, maxW: int, maxH: int): (scale: real)
    requires sw >= 1 && sh >= 1
    ensures scale <= 1.0 && scale <= maxW as real / sw as real && scale <= maxH as real / sh as real
    ensures scale == 1.0 || scale == maxW as real / sw as real || scale == maxH as real / sh as real
  {
    MinR(MinR(maxW as real / sw as real, maxH as real / sh as real), 1.0)
  }

  /** One drawn side: the scaled side, rounded, and at least 1. */
  function DrawnSide(side: int, scale: real): (d: int)
    ensures d >= 1
  {
    Max(1, Round(side as real * scale))
  }

  /** A side scaled by at most 1 and rounded does not grow. */
  lemma ScaledNotLarger(side: int, scale: real)
    requires side >= 1 && scale <= 1.0
    ensures Round(side as real * scale) <= side
  {
    assert side as real * scale <= side as real * 1.0;
    RoundAtMost(side as real * scale, side);
  }

  /** The preview never upscales: each drawn side is at most the source side (or 1). */
  lemma FitNeverUpscales(srcW: nat, srcH: nat, maxW: int, maxH: int)
    ensures var f := FitPreview(srcW, srcH, maxW, maxH);
      f.drawWidth <= NonZero(srcW) && f.drawHeight <= NonZero(srcH)
  {
    var f := FitPreview(srcW, srcH, maxW, maxH);
    DrawnSideNotLarger(NonZero(srcW), f.scale);
    DrawnSideNotLarger(NonZero(srcH), f.scale);
  }

  /** One axis: a side scaled by at most 1, rounded and at least 1, does not grow. */
  lemma DrawnSideNotLarger(side: int, scale: real)
    requires side >= 1 && scale <= 1.0
    ensures DrawnSide(side, scale) <= side
  {
    ScaledNotLarger(side, scale);
  }

  /** With integer bounds of at least 1, the drawn image fits the bounds. */
  lemma FitWithinBounds(srcW: nat, srcH: nat, maxW: int, maxH: int)
    requires maxW >= 1 && maxH >= 1
    ensures var f := FitPreview(srcW, srcH, maxW, maxH);
      f.drawWidth <= maxW && f.drawHeight <= maxH
  {
    var f := FitPreview(srcW, srcH, maxW, maxH);
    assert f.drawWidth == DrawnSide(NonZero(srcW), f.scale);
    assert f.drawHeight == DrawnSide(NonZero(srcH), f.scale);
    DrawnSideWithin(NonZero(srcW), f.scale, maxW);
    DrawnSideWithin(NonZero(srcH), f.scale, maxH);
  }

  /** One axis of the fit: a side scaled by at most bound / side, rounded and at least 1, fits the bound. */
  lemma DrawnSideWithin(side: int, scale: real, bound: int)
    requires side >= 1 && bound >= 1 && scale <= bound as real / side as real
    ensures DrawnSide(side, scale) <= bound
  {
    ScaledAtMost(side, scale, bound as real);
    RoundAtMost(side as real * scale, bound);
  }

  /** A bound at least the side gives a ratio of at least 1. */
  lemma RatioAtLeastOne(bound: int, side: int)
    requires 1 <= side <= bound
    ensures bound as real / side as real >= 1.0
  {
    var q := bound as real / side as real;
    assert q * side as real == bound as real;
  }

  /** A source that already fits the bounds is drawn at its own size. */
  lemma FitKeepsSmallSource(srcW: nat, srcH: nat, maxW: int, maxH: int)
    requires 1 <= srcW <= maxW && 1 <= srcH <= maxH
    ensures var f := FitPreview(srcW, srcH, maxW, maxH);
      f.scale == 1.0 && f.drawWidth == srcW && f.drawHeight == srcH
  {
    RatioAtLeastOne(maxW, srcW);
    RatioAtLeastOne(maxH, srcH);
    var f := FitPreview(srcW, srcH, maxW, maxH);
    assert f.scale == 1.0;
    assert srcW as real * f.scale == srcW as real;
    assert srcH as real * f.scale == srcH as real;
    RoundOfInteger(srcW);
    RoundOfInteger(srcH);
  }

  /** The drawn image is centred: the two margins on each axis differ by at most one pixel. */
  lemma FitCentred(srcW: nat, srcH: nat, maxW: int, maxH: int)
    ensures var f := FitPreview(srcW, srcH, maxW, maxH);
      && -1 <= (f.width - f.drawWidth - f.offsetX) - f.offsetX <= 1
      && -1 <= (f.height - f.drawHeight - f.offsetY) - f.offsetY <= 1
  {
  }

  // ---------------------------------------------------------------- the component

  /** The state of the preview canvas: its size and, once drawn, where the grid image went. */
  datatype PreviewState = PreviewState(width: int, height: int, drawn: Option<Rect>)

  /** primeCanvas: the canvas at the fallback (maximum) size with no grid drawn. */
  function Placeholder(maxW: int, maxH: int): PreviewState {
    PreviewState(maxW, maxH, None)
  }

  /**
   * The render effect as a value: the placeholder unless ready with a group
   * of at least rows * cols photos; then every photo decoded and the grid
   * planned; a rejected decode or a thrown layout error is only logged and
   * leaves the placeholder; otherwise the plan's canvas is fitted and drawn.
   */
  function RenderSpec(group: Option<seq<ImgFile>>, options: ComposeOptions, ready: bool, maxW: int, maxH: int,
                      decode: FileInfo -> Result<ImageSize, Thrown>): (s: PreviewState)
    requires ValidShape(options) && PositiveDecoder(decode)
    ensures s.drawn.None? ==> s == Placeholder(maxW, maxH)
  {
    if !ready || group.None? || |group.value| < options.rows * options.cols then Placeholder(maxW, maxH)
    else if !AllDecode(group.value, decode) then Placeholder(maxW, maxH)
    else
      match Plan(FramesOf(group.value, decode), options)
      case Failure(_) => Placeholder(maxW, maxH)
      case Success(plan) =>
        var f := FitPreview(plan.width, plan.height, maxW, maxH);
        PreviewState(f.width, f.height, Some(Rect(f.offsetX, f.offsetY, f.drawWidth, f.drawHeight)))
  }

  /**
   * The grid is drawn exactly when the preview is ready, the group is
   * exactly one grid, every photo decodes and the gutters leave room for
   * the cells; otherwise the placeholder stays.
   */
  lemma RenderDrawsIff(group: Option<seq<ImgFile>>, options: ComposeOptions, ready: bool, maxW: int, maxH: int,
                       decode: FileInfo -> Result<ImageSize, Thrown>)
    requires ValidShape(options) && PositiveDecoder(decode)
    ensures RenderSpec(group, options, ready, maxW, maxH, decode).drawn.Some?
            <==> ready && group.Some? && |group.value| == options.rows * options.cols && AllDecode(group.value, decode)
                 && Fits(GeometryOf(options))
  {
    if ready && group.Some? && |group.value| == options.rows * options.cols && AllDecode(group.value, decode) {
      PlanTooSmall(FramesOf(group.value, decode), options);
    }
  }

  /** A drawn preview lies inside a canvas of at least 320 by 240 and is no larger than the grid it shows. */
  lemma RenderDrawnInside(group: Option<seq<ImgFile>>, options: ComposeOptions, ready: bool, maxW: int, maxH: int,
                          decode: FileInfo -> Result<ImageSize, Thrown>)
    requires ValidShape(options) && PositiveDecoder(decode)
    requires RenderSpec(group, options, ready, maxW, maxH, decode).drawn.Some?
    ensures var s := RenderSpec(group, options, ready, maxW, maxH, decode);
      var r := s.drawn.value;
      && s.width >= 320 && s.height >= 240
      && 0 <= r.left && r.left + r.width <= s.width
      && 0 <= r.top && r.top + r.height <= s.height
      && r.width <= GeometryOf(options).outW && r.height <= GeometryOf(options).outH
  {
    var plan := Plan(FramesOf(group.value, decode), options).value;
    FitNeverUpscales(plan.width, plan.height, maxW, maxH);
  }

  /** The canvas element the effect draws on. */
  class PreviewCanvas {
    var width: int
    var height: int
    var drawn: Option<Rect>

    constructor ()
      ensures width == 300 && height == 150 && drawn == None
    {
      width, height, drawn := 300, 150, None;
    }

    function State(): PreviewState
      reads this
    {
      PreviewState(width, height, drawn)
    }

    /** primeCanvas: resize to the fallback size, which clears what was drawn. */
    method Prime(maxW: int, maxH: int)
      modifies this
      ensures State() == Placeholder(maxW, maxH)
    {
      width, height, drawn := maxW, maxH, None;
    }

    /**
     * The render effect: prime, and unless the group is missing or short,
     * decode the photos, plan the grid and draw it fitted and centred. A
     * rejection stops the effect after priming.
     */
    method Render(group: Option<seq<ImgFile>>, options: ComposeOptions, ready: bool, maxW: int, maxH: int,
                  decode: FileInfo -> Result<ImageSize, Thrown>)
      requires ValidShape(options) && PositiveDecoder(decode)
      modifies this
      ensures State() == RenderSpec(group, options, ready, maxW, maxH, decode)
    {
      Prime(maxW, maxH);
      if !ready || group.None? || |group.value| < options.rows * options.cols {
        return;
      }
      var items := group.value;
      var decoded := DecodeAll(FilesOf(items), decode);
      if decoded.Failure? {
        return;
      }
      assert AllDecode(items, decode) by {
        forall k | 0 <= k < |items| ensures decode(items[k].file).Success? {
          assert FilesOf(items)[k] == items[k].file;
        }
      }
      var planned := CreateGridCanvas(FramesOf(items, decode), options);
      if planned.Failure? {
        return;
      }
      var f := FitPreview(planned.value.width, planned.value.height, maxW, maxH);
      width, height := f.width, f.height;
      drawn := Some(Rect(f.offsetX, f.offsetY, f.drawWidth, f.drawHeight));
    }
  }
}
