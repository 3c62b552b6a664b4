/**
 * The grid layout engine of src/utils/grid.ts. createGridCanvas is modelled
 * as a draw plan: the canvas size, its background fill, and for every frame
 * the cell rectangle, whether drawing is clipped to it, the destination
 * rectangle, and the drawImage call with the transform stack in force.
 */
module Grid {
  import opened Wrappers
  import opened JsBuiltins
  import opened Platform
  import opened Options
  import opened Errors

  // ---------------------------------------------------------------- sanitising

  /** clampPositive: the value when it is finite and positive, the fallback otherwise. */
  function ClampPositive(value: JsNumber, fallback: real): (r: real)
    ensures value.Finite? && value.value > 0.0 ==> r == value.value
    ensures !(value.Finite? && value.value > 0.0) ==> r == fallback
    ensures fallback > 0.0 ==> r > 0.0
  {
    if value.Finite? && value.value > 0.0 then value.value else fallback
  }

  /** normalizedTurns: the truncated turn count reduced into 0..3, and 0 for a non-finite count. */
  function NormalizedTurns(turns: JsNumber): (r: int)
    ensures 0 <= r < 4
    ensures turns.Finite? ==> r == Trunc(turns.value) % 4
    ensures !turns.Finite? ==> r == 0
  {
    var value := if turns.Finite? then Trunc(turns.value) else 0;
    JsRem(JsRem(value, 4) + 4, 4)
  }

  /** dims: the footprint of an image after its quarter turns. */
  function Dims(img: ImageSize, turns: JsNumber): (d: ImageSize)
    ensures NormalizedTurns(turns) % 2 == 1 ==> d == ImageSize(img.height, img.width)
    ensures NormalizedTurns(turns) % 2 == 0 ==> d == img
  {
    if NormalizedTurns(turns) % 2 == 1 then ImageSize(img.height, img.width) else img
  }

  /** Four more quarter turns give the same footprint. */
  lemma DimsPeriodFour(img: ImageSize, n: int)
    ensures Dims(img, Finite((n + 4) as real)) == Dims(img, Finite(n as real))
  {
    TruncOfInteger(n);
    TruncOfInteger(n + 4);
    var m := n + 4;
    assert m % 4 == n % 4;
    assert NormalizedTurns(Finite(m as real)) == NormalizedTurns(Finite(n as real));
  }

  // ---------------------------------------------------------------- transforms

  datatype Point = Point(x: real, y: real)

  /** An integer rectangle: left/top corner and size. */
  datatype Rect = Rect(left: int, top: int, width: int, height: int)

  predicate InRect(p: Point, r: Rect) {
    r.left as real <= p.x <= (r.left + r.width) as real && r.top as real <= p.y <= (r.top + r.height) as real
  }

  /** The context operations used for rotation: translate(x, y) and rotate(quarters * PI / 2). */
  datatype CtxOp = Translate(dx: int, dy: int) | Rotate(quarters: int)

  /** One drawImage call: the transforms issued before it, first one first, and the target rectangle in that frame. */
  datatype DrawCall = DrawCall(transform: seq<CtxOp>, target: Rect)

  /** rotate(q * PI / 2) in canvas coordinates (y grows downwards): (x cos - y sin, x sin + y cos). */
  function RotatePoint(quarters: int, p: Point): Point {
    var k := quarters % 4;
    if k == 0 then p
    else if k == 1 then Point(-p.y, p.x)
    else if k == 2 then Point(-p.x, -p.y)
    else Point(p.y, -p.x)
  }

  function ApplyOp(op: CtxOp, p: Point): Point {
    match op
    case Translate(dx, dy) => Point(p.x + dx as real, p.y + dy as real)
    case Rotate(q) => RotatePoint(q, p)
  }

  function UnapplyOp(op: CtxOp, p: Point): Point {
    match op
    case Translate(dx, dy) => Point(p.x - dx as real, p.y - dy as real)
    case Rotate(q) => RotatePoint(-q, p)
  }

  /** Where a point of the drawing frame lands on the canvas: the operation issued first acts last. */
  function ApplyTransform(ops: seq<CtxOp>, p: Point): Point
    decreases |ops|
  {
    if ops == [] then p else ApplyOp(ops[0], ApplyTransform(ops[1..], p))
  }

  /** The point of the drawing frame that lands on canvas point q. */
  function UnapplyTransform(ops: seq<CtxOp>, q: Point): Point
    decreases |ops|
  {
    if ops == [] then q else UnapplyTransform(ops[1..], UnapplyOp(ops[0], q))
  }

  /** Turning back by q quarters is turning forward by the complement modulo 4. */
  lemma NegatedQuarters(q: int)
    ensures q % 4 == 0 ==> (-q) % 4 == 0
    ensures q % 4 != 0 ==> (-q) % 4 == 4 - q % 4
  {
    var d, k := q / 4, q % 4;
    assert q == 4 * d + k;
    if k != 0 {
      assert -q == 4 * (-d - 1) + (4 - k);
    } else {
      assert -q == 4 * (-d);
    }
  }

  lemma RotateInverse(q: int, p: Point)
    ensures RotatePoint(q, RotatePoint(-q, p)) == p
  {
    var k := q % 4;
    NegatedQuarters(q);
    var r := RotatePoint(-q, p);
    if k == 0 {
      assert r == p;
    } else if k == 1 {
      assert r == Point(p.y, -p.x);
    } else if k == 2 {
      assert r == Point(-p.x, -p.y);
    } else {
      assert r == Point(-p.y, p.x);
    }
  }

  lemma RotateMinusOne(p: Point)
    ensures RotatePoint(-1, p) == Point(p.y, -p.x)
  {
    assert (-1) % 4 == 3;
  }

  lemma RotatePlusOne(p: Point)
    ensures RotatePoint(1, p) == Point(-p.y, p.x)
  {
    assert 1 % 4 == 1;
  }

  lemma RotateHalf(p: Point)
    ensures RotatePoint(2, p) == Point(-p.x, -p.y) && RotatePoint(-2, p) == Point(-p.x, -p.y)
  {
    assert 2 % 4 == 2 && (-2) % 4 == 2;
  }

  /** Undoing the transform and applying it again returns the canvas point. */
  lemma {:induction false} TransformInverse(ops: seq<CtxOp>, q: Point)
    ensures ApplyTransform(ops, UnapplyTransform(ops, q)) == q
    decreases |ops|
  {
    if ops != [] {
      TransformInverse(ops[1..], UnapplyOp(ops[0], q));
      match ops[0]
      case Translate(_, _) =>
      case Rotate(k) => RotateInverse(k, q);
    }
  }

  /**
   * drawImageRotated: with no turn the image is drawn straight into the
   * destination; otherwise the context is translated to a corner of the
   * destination, rotated, and the image drawn at the origin with the
   * footprint's sides swapped for odd turns.
   */
  function DrawImageRotated(quarterTurns: JsNumber, dx: int, dy: int, dw: int, dh: int): (call: DrawCall)
    ensures call.transform == [] <==> NormalizedTurns(quarterTurns) == 0
    ensures call.transform == [] ==> call.target == Rect(dx, dy, dw, dh)
    ensures call.transform != [] ==> call.target.left == 0 && call.target.top == 0
    ensures NormalizedTurns(quarterTurns) % 2 == 0 ==> call.target.width == dw && call.target.height == dh
    ensures NormalizedTurns(quarterTurns) % 2 == 1 ==> call.target.width == dh && call.target.height == dw
  {
    var turns := NormalizedTurns(quarterTurns);
    if turns == 0 then DrawCall([], Rect(dx, dy, dw, dh))
    else if turns == 1 then DrawCall([Translate(dx, dy + dh), Rotate(-1)], Rect(0, 0, dh, dw))
    else if turns == 2 then DrawCall([Translate(dx + dw, dy + dh), Rotate(2)], Rect(0, 0, dw, dh))
    else DrawCall([Translate(dx + dw, dy), Rotate(1)], Rect(0, 0, dh, dw))
  }

  /** The canvas corner where the image's own top-left corner lands: a quarter turn moves it anticlockwise. */
  function TopLeftLandsAt(turns: int, dest: Rect): Point {
    var l, t, r, b := dest.left as real, dest.top as real, (dest.left + dest.width) as real, (dest.top + dest.height) as real;
    if turns == 0 then Point(l, t) else if turns == 1 then Point(l, b) else if turns == 2 then Point(r, b) else Point(r, t)
  }

  lemma TwoOps(a: CtxOp, b: CtxOp, p: Point)
    ensures ApplyTransform([a, b], p) == ApplyOp(a, ApplyOp(b, p))
    ensures UnapplyTransform([a, b], p) == UnapplyOp(b, UnapplyOp(a, p))
  {
    var s, t: seq<CtxOp> := [a, b], [b];
    assert s[0] == a && s[1..] == t && t[0] == b && t[1..] == [];
    assert ApplyTransform(t, p) == ApplyOp(b, p);
    assert UnapplyTransform(t, UnapplyOp(a, p)) == UnapplyOp(b, UnapplyOp(a, p));
  }

  /** A quarter turn back about the origin after a translation to (a, b). */
  lemma QuarterBackAt(a: int, b: int, p: Point)
    ensures ApplyTransform([Translate(a, b), Rotate(-1)], p) == Point(a as real + p.y, b as real - p.x)
    ensures UnapplyTransform([Translate(a, b), Rotate(-1)], p) == Point(b as real - p.y, p.x - a as real)
  {
    TwoOps(Translate(a, b), Rotate(-1), p);
    RotateMinusOne(p);
    var q := UnapplyOp(Translate(a, b), p);
    RotatePlusOne(q);
    assert UnapplyOp(Rotate(-1), q) == RotatePoint(1, q);
  }

  /** A half turn about the origin after a translation to (a, b). */
  lemma HalfTurnAt(a: int, b: int, p: Point)
    ensures ApplyTransform([Translate(a, b), Rotate(2)], p) == Point(a as real - p.x, b as real - p.y)
    ensures UnapplyTransform([Translate(a, b), Rotate(2)], p) == Point(a as real - p.x, b as real - p.y)
  {
    TwoOps(Translate(a, b), Rotate(2), p);
    RotateHalf(p);
    var q := UnapplyOp(Translate(a, b), p);
    RotateHalf(q);
    assert UnapplyOp(Rotate(2), q) == RotatePoint(-2, q);
  }

  /** A quarter turn forward about the origin after a translation to (a, b). */
  lemma QuarterForwardAt(a: int, b: int, p: Point)
    ensures ApplyTransform([Translate(a, b), Rotate(1)], p) == Point(a as real - p.y, b as real + p.x)
    ensures UnapplyTransform([Translate(a, b), Rotate(1)], p) == Point(p.y - b as real, a as real - p.x)
  {
    TwoOps(Translate(a, b), Rotate(1), p);
    RotatePlusOne(p);
    var q := UnapplyOp(Translate(a, b), p);
    RotateMinusOne(q);
    assert UnapplyOp(Rotate(1), q) == RotatePoint(-1, q);
  }

  /** Every point of the call's target lands inside the destination, and its top-left corner where TopLeftLandsAt says. */
  lemma DrawLandsInside(quarterTurns: JsNumber, dx: int, dy: int, dw: int, dh: int, p: Point)
    requires dw >= 0 && dh >= 0
    ensures var c := DrawImageRotated(quarterTurns, dx, dy, dw, dh);
      && (InRect(p, c.target) ==> InRect(ApplyTransform(c.transform, p), Rect(dx, dy, dw, dh)))
      && ApplyTransform(c.transform, Point(c.target.left as real, c.target.top as real))
         == TopLeftLandsAt(NormalizedTurns(quarterTurns), Rect(dx, dy, dw, dh))
  {
    var turns := NormalizedTurns(quarterTurns);
    if turns == 1 {
      QuarterBackAt(dx, dy + dh, p);
      QuarterBackAt(dx, dy + dh, Point(0.0, 0.0));
    } else if turns == 2 {
      HalfTurnAt(dx + dw, dy + dh, p);
      HalfTurnAt(dx + dw, dy + dh, Point(0.0, 0.0));
    } else if turns == 3 {
      QuarterForwardAt(dx + dw, dy, p);
      QuarterForwardAt(dx + dw, dy, Point(0.0, 0.0));
    }
  }

  /** Every point of the destination comes from a point of the call's target. */
  lemma DrawReachesAll(quarterTurns: JsNumber, dx: int, dy: int, dw: int, dh: int, q: Point)
    requires dw >= 0 && dh >= 0
    requires InRect(q, Rect(dx, dy, dw, dh))
    ensures var c := DrawImageRotated(quarterTurns, dx, dy, dw, dh);
      InRect(UnapplyTransform(c.transform, q), c.target) && ApplyTransform(c.transform, UnapplyTransform(c.transform, q)) == q
  {
    var c := DrawImageRotated(quarterTurns, dx, dy, dw, dh);
    TransformInverse(c.transform, q);
    var turns := NormalizedTurns(quarterTurns);
    if turns == 1 {
      QuarterBackAt(dx, dy + dh, q);
    } else if turns == 2 {
      HalfTurnAt(dx + dw, dy + dh, q);
    } else if turns == 3 {
      QuarterForwardAt(dx + dw, dy, q);
    }
  }

  /**
   * For every turn count the drawn rectangle covers exactly the destination:
   * every point of the target lands inside it, every point of it comes from
   * a point of the target, and the image's top-left corner lands at the
   * corner the rotation carries it to.
   */
  lemma DrawFootprintExact(quarterTurns: JsNumber, dx: int, dy: int, dw: int, dh: int)
    requires dw >= 0 && dh >= 0
    ensures var c := DrawImageRotated(quarterTurns, dx, dy, dw, dh);
      && (forall p :: InRect(p, c.target) ==> InRect(ApplyTransform(c.transform, p), Rect(dx, dy, dw, dh)))
      && (forall q :: InRect(q, Rect(dx, dy, dw, dh)) ==>
            InRect(UnapplyTransform(c.transform, q), c.target) && ApplyTransform(c.transform, UnapplyTransform(c.transform, q)) == q)
      && ApplyTransform(c.transform, Point(c.target.left as real, c.target.top as real))
         == TopLeftLandsAt(NormalizedTurns(quarterTurns), Rect(dx, dy, dw, dh))
  {
    var c := DrawImageRotated(quarterTurns, dx, dy, dw, dh);
    forall p | InRect(p, c.target)
      ensures InRect(ApplyTransform(c.transform, p), Rect(dx, dy, dw, dh))
    {
      DrawLandsInside(quarterTurns, dx, dy, dw, dh, p);
    }
    forall q | InRect(q, Rect(dx, dy, dw, dh))
      ensures InRect(UnapplyTransform(c.transform, q), c.target)
      ensures ApplyTransform(c.transform, UnapplyTransform(c.transform, q)) == q
    {
      DrawReachesAll(quarterTurns, dx, dy, dw, dh, q);
    }
    DrawLandsInside(quarterTurns, dx, dy, dw, dh, Point(0.0, 0.0));
  }

  // ---------------------------------------------------------------- canvas geometry

  /** One axis of the canvas: centimetres at the given DPI, rounded, at least 8 pixels. */
  function CanvasSide(cm: JsNumber, cmFallback: real, dpi: JsNumber): (px: int)
    ensures px >= 8
  {
    Max(8, Round(ClampPositive(cm, cmFallback) / 2.54 * ClampPositive(dpi, 300.0)))
  }

  /** The gap taken by the gutters between n cells. */
  function TotalGap(n: int, gap: int): int {
    Max(0, n - 1) * gap
  }

  /** Everything the per-frame placement needs: canvas size, grid shape, gap, the (fractional) cell size and the fit mode. */
  datatype Geometry = Geometry(outW: int, outH: int, rows: int, cols: int, gap: int, cellW: real, cellH: real, crop: bool)

  predicate ValidShape(opts: ComposeOptions) {
    opts.rows >= 1 && opts.cols >= 1
  }

  function GeometryOf(opts: ComposeOptions): (g: Geometry)
    requires ValidShape(opts)
    ensures g.rows == opts.rows && g.cols == opts.cols && g.gap == opts.gapPx && g.crop == opts.cropToFill
    ensures g.cols as real * g.cellW + TotalGap(g.cols, g.gap) as real == g.outW as real
    ensures g.rows as real * g.cellH + TotalGap(g.rows, g.gap) as real == g.outH as real
  {
    var outW := CanvasSide(Finite(opts.widthCm), 15.0, Finite(opts.dpi as real));
    var outH := CanvasSide(Finite(opts.heightCm), 10.0, Finite(opts.dpi as real));
    var usableWidth := outW - TotalGap(opts.cols, opts.gapPx);
    var usableHeight := outH - TotalGap(opts.rows, opts.gapPx);
    Geometry(outW, outH, opts.rows, opts.cols, opts.gapPx,
             usableWidth as real / opts.cols as real, usableHeight as real / opts.rows as real, opts.cropToFill)
  }

  /** The usable area (canvas minus gutters) is positive on both axes. */
  predicate Fits(g: Geometry) {
    g.outW - TotalGap(g.cols, g.gap) > 0 && g.outH - TotalGap(g.rows, g.gap) > 0
  }

  /** The rounded left edge of column c and right edge of column c. */
  function ColumnLeft(g: Geometry, c: int): int { Round(c as real * (g.cellW + g.gap as real)) }
  function ColumnRight(g: Geometry, c: int): int { Round(c as real * (g.cellW + g.gap as real) + g.cellW) }
  function RowTop(g: Geometry, r: int): int { Round(r as real * (g.cellH + g.gap as real)) }
  function RowBottom(g: Geometry, r: int): int { Round(r as real * (g.cellH + g.gap as real) + g.cellH) }

  /** The cell of frame i, row-major, with each edge rounded on its own and each side at least 1. */
  function CellRect(g: Geometry, i: nat): (cell: Rect)
    requires g.cols >= 1
    ensures cell.width >= 1 && cell.height >= 1
  {
    var row := i / g.cols;
    var col := i % g.cols;
    var left := ColumnLeft(g, col);
    var top := RowTop(g, row);
    Rect(left, top, Max(1, ColumnRight(g, col) - left), Max(1, RowBottom(g, row) - top))
  }

  /** The fit scale: the larger ratio covers the cell (crop), the smaller fits inside it (contain). */
  function FitScale(g: Geometry, d: ImageSize): real
    requires d.width > 0 && d.height > 0
  {
    var sx := g.cellW / d.width as real;
    var sy := g.cellH / d.height as real;
    if g.crop then MaxR(sx, sy) else MinR(sx, sy)
  }

  /** The placed size: the scaled footprint rounded, at least 1 pixel per side. */
  function PlacedSize(g: Geometry, d: ImageSize): (s: ImageSize)
    requires d.width > 0 && d.height > 0
    ensures s.width >= 1 && s.height >= 1
  {
    var scale := FitScale(g, d);
    ImageSize(Max(1, Round(d.width as real * scale)), Max(1, Round(d.height as real * scale)))
  }

  /** Centre a placed size in a cell, rounding the offset. */
  function Centre(cell: Rect, size: ImageSize): (origin: (int, int)) {
    (Round(cell.left as real + (cell.width - size.width) as real / 2.0),
     Round(cell.top as real + (cell.height - size.height) as real / 2.0))
  }

  /** A frame to compose: a decoded image and its rotation. */
  datatype Frame = Frame(image: ImageSize, rotationQuarterTurns: JsNumber)

  predicate Decoded(frames: seq<Frame>) {
    forall i :: 0 <= i < |frames| ==> frames[i].image.width > 0 && frames[i].image.height > 0
  }

  /** What the engine does for one frame. */
  datatype Placement = Placement(cell: Rect, clipped: bool, dest: Rect, draw: DrawCall)

  function PlaceFrame(g: Geometry, i: nat, frame: Frame): Placement
    requires g.cols >= 1 && frame.image.width > 0 && frame.image.height > 0
  {
    var d := Dims(frame.image, frame.rotationQuarterTurns);
    var target := PlacedSize(g, d);
    var cell := CellRect(g, i);
    var (dx, dy) := Centre(cell, target);
    Placement(cell, g.crop, Rect(dx, dy, target.width, target.height),
              DrawImageRotated(frame.rotationQuarterTurns, dx, dy, target.width, target.height))
  }

  // ---------------------------------------------------------------- the plan

  datatype DrawPlan = DrawPlan(width: int, height: int, fill: string, placements: seq<Placement>)

  datatype LayoutError = CountMismatch(expected: int, received: int) | TooSmall {
    /** The message of the Error the source throws. */
    function Message(): string {
      match this
      case CountMismatch(e, n) =>
        "composeGrid requires exactly " + IntToString(e) + " images, received " + IntToString(n) + "."
      case TooSmall =>
        "Output size is too small for the selected layout. Increase the dimensions or reduce the gap."
    }
  }

  function Placements(g: Geometry, frames: seq<Frame>): (ps: seq<Placement>)
    requires g.cols >= 1 && Decoded(frames)
    ensures |ps| == |frames|
  {
    seq(|frames|, i requires 0 <= i < |frames| => PlaceFrame(g, i, frames[i]))
  }

  /** createGridCanvas as a value: the count check first, then the usable-area check, then one placement per frame. */
  function Plan(frames: seq<Frame>, opts: ComposeOptions): (r: Result<DrawPlan, LayoutError>)
    requires ValidShape(opts) && Decoded(frames)
    ensures r.Success? <==> |frames| == opts.rows * opts.cols && Fits(GeometryOf(opts))
    ensures r.Success? ==> r.value.width == GeometryOf(opts).outW && r.value.height == GeometryOf(opts).outH
                           && |r.value.placements| == |frames|
  {
    if |frames| != opts.rows * opts.cols then Failure(CountMismatch(opts.rows * opts.cols, |frames|))
    else
      var g := GeometryOf(opts);
      if !Fits(g) then Failure(TooSmall)
      else Success(DrawPlan(g.outW, g.outH, opts.separatorColor, Placements(g, frames)))
  }

  /**
   * createGridCanvas: size the canvas, fill it, check the usable area, then
   * place the frames one by one in a loop.
   */
  method CreateGridCanvas(frames: seq<Frame>, opts: ComposeOptions) returns (r: Result<DrawPlan, LayoutError>)
    requires ValidShape(opts) && Decoded(frames)
    ensures r == Plan(frames, opts)
    ensures r.Failure? && r.error.CountMismatch? <==> |frames| != opts.rows * opts.cols
    ensures r.Success? ==> r.value.width >= 8 && r.value.height >= 8 && |r.value.placements| == |frames|
  {
    var expected := opts.rows * opts.cols;
    if |frames| != expected {
      return Failure(CountMismatch(expected, |frames|));
    }
    var g := GeometryOf(opts);
    var usableWidth := g.outW - TotalGap(g.cols, g.gap);
    var usableHeight := g.outH - TotalGap(g.rows, g.gap);
    if usableWidth <= 0 || usableHeight <= 0 {
      return Failure(TooSmall);
    }
    var placements: seq<Placement> := [];
    var idx := 0;
    while idx < |frames|
      invariant 0 <= idx <= |frames|
      invariant |placements| == idx
      invariant forall j :: 0 <= j < idx ==> placements[j] == PlaceFrame(g, j, frames[j])
    {
      placements := placements + [PlaceFrame(g, idx, frames[idx])];
      idx := idx + 1;
    }
    assert placements == Placements(g, frames);
    r := Success(DrawPlan(g.outW, g.outH, opts.separatorColor, placements));
  }

  // ---------------------------------------------------------------- properties of the plan

  /** The count check comes first and fails exactly on a count other than rows * cols. */
  lemma PlanCountError(frames: seq<Frame>, opts: ComposeOptions)
    requires ValidShape(opts) && Decoded(frames)
    ensures Plan(frames, opts).Failure? && Plan(frames, opts).error.CountMismatch?
            <==> |frames| != opts.rows * opts.cols
    ensures |frames| != opts.rows * opts.cols ==>
            Plan(frames, opts).error == CountMismatch(opts.rows * opts.cols, |frames|)
  {
  }

  /** With the right count, the layout is refused exactly when the gutters alone fill a canvas side. */
  lemma PlanTooSmall(frames: seq<Frame>, opts: ComposeOptions)
    requires ValidShape(opts) && Decoded(frames)
    requires |frames| == opts.rows * opts.cols
    ensures var g := GeometryOf(opts);
      Plan(frames, opts) == Failure(TooSmall)
      <==> (opts.cols - 1) * opts.gapPx >= g.outW || (opts.rows - 1) * opts.gapPx >= g.outH
  {
  }

  /** A successful plan: the canvas is at least 8 pixels a side, filled with the separator colour, one placement per frame. */
  lemma PlanSuccess(frames: seq<Frame>, opts: ComposeOptions)
    requires ValidShape(opts) && Decoded(frames)
    requires Plan(frames, opts).Success?
    ensures var plan := Plan(frames, opts).value;
      && plan.width >= 8 && plan.height >= 8
      && plan.fill == opts.separatorColor
      && |plan.placements| == |frames| == opts.rows * opts.cols
      && forall i :: 0 <= i < |frames| ==>
           plan.placements[i].cell.width >= 1 && plan.placements[i].cell.height >= 1
           && plan.placements[i].clipped == opts.cropToFill
  {
  }

  /** With finite positive inputs, each canvas side is max(8, round(cm / 2.54 * dpi)); otherwise the fallback is used. */
  lemma CanvasSideOfPositive(cm: real, fallback: real, dpi: real)
    requires cm > 0.0 && dpi > 0.0
    ensures CanvasSide(Finite(cm), fallback, Finite(dpi)) == Max(8, Round(cm / 2.54 * dpi))
    ensures CanvasSide(NaN, fallback, Finite(dpi)) == Max(8, Round(fallback / 2.54 * dpi))
    ensures CanvasSide(Finite(cm), fallback, PosInfinity) == Max(8, Round(cm / 2.54 * 300.0))
  {
  }

  /** The default options give a 1772 x 1181 canvas. */
  lemma DefaultCanvas()
    ensures GeometryOf(DefaultOptions).outW == 1772
    ensures GeometryOf(DefaultOptions).outH == 1181
  {
    assert 15.0 / 2.54 * 300.0 == 4500.0 / 2.54;
    assert 1771.5 <= 4500.0 / 2.54 < 1772.5;
    assert Round(4500.0 / 2.54) == 1772;
    assert 10.0 / 2.54 * 300.0 == 3000.0 / 2.54;
    assert 1180.5 <= 3000.0 / 2.54 < 1181.5;
    assert Round(3000.0 / 2.54) == 1181;
  }

  /** Frame i of a full grid sits in row i / cols, which is a row of the grid, and column i % cols. */
  lemma FrameInGrid(g: Geometry, i: nat)
    requires g.rows >= 1 && g.cols >= 1 && i < g.rows * g.cols
    ensures 0 <= i / g.cols < g.rows && 0 <= i % g.cols < g.cols
    ensures i == (i / g.cols) * g.cols + i % g.cols
    ensures CellRect(g, i).left == ColumnLeft(g, i % g.cols) && CellRect(g, i).top == RowTop(g, i / g.cols)
  {
    var row := i / g.cols;
    if row >= g.rows {
      MulMonotone(g.rows, row, g.cols);
    }
  }

  /** With a non-negative gap, a column ends no later than the next one starts, and likewise rows. */
  lemma CellsDoNotOverlap(g: Geometry, c: int, r: int)
    requires g.gap >= 0
    ensures ColumnRight(g, c) <= ColumnLeft(g, c + 1)
    ensures RowBottom(g, r) <= RowTop(g, r + 1)
  {
    assert c as real * (g.cellW + g.gap as real) + g.cellW <= (c + 1) as real * (g.cellW + g.gap as real);
    RoundMonotone(c as real * (g.cellW + g.gap as real) + g.cellW, (c + 1) as real * (g.cellW + g.gap as real));
    assert r as real * (g.cellH + g.gap as real) + g.cellH <= (r + 1) as real * (g.cellH + g.gap as real);
    RoundMonotone(r as real * (g.cellH + g.gap as real) + g.cellH, (r + 1) as real * (g.cellH + g.gap as real));
  }

  /** The first column and row start at 0; the last ones end exactly at the canvas edges. */
  lemma GridSpansCanvas(opts: ComposeOptions)
    requires ValidShape(opts)
    ensures var g := GeometryOf(opts);
      && ColumnLeft(g, 0) == 0 && RowTop(g, 0) == 0
      && ColumnRight(g, g.cols - 1) == g.outW && RowBottom(g, g.rows - 1) == g.outH
  {
    SpanningEdges(GeometryOf(opts));
  }

  /** For any geometry whose cells and gaps add up to the canvas, the first cells start at 0 and the last end at the edges. */
  lemma SpanningEdges(g: Geometry)
    requires g.rows >= 1 && g.cols >= 1
    requires g.cols as real * g.cellW + TotalGap(g.cols, g.gap) as real == g.outW as real
    requires g.rows as real * g.cellH + TotalGap(g.rows, g.gap) as real == g.outH as real
    ensures ColumnLeft(g, 0) == 0 && RowTop(g, 0) == 0
    ensures ColumnRight(g, g.cols - 1) == g.outW && RowBottom(g, g.rows - 1) == g.outH
  {
    LastEdge(g.cols, g.cellW, g.gap, g.outW);
    LastEdge(g.rows, g.cellH, g.gap, g.outH);
    RoundOfInteger(0);
    assert 0 as real * (g.cellW + g.gap as real) == 0 as real;
    assert 0 as real * (g.cellH + g.gap as real) == 0 as real;
  }

  /** On one axis, n cells and the n - 1 gaps between them add up to the side, so the last cell ends on the edge. */
  lemma LastEdge(n: int, cell: real, gap: int, side: int)
    requires n >= 1 && n as real * cell + TotalGap(n, gap) as real == side as real
    ensures Round((n - 1) as real * (cell + gap as real) + cell) == side
  {
    assert TotalGap(n, gap) == (n - 1) * gap;
    assert (n - 1) as real * (cell + gap as real) + cell == n as real * cell + ((n - 1) * gap) as real;
    RoundOfInteger(side);
  }

  /** Contain: the scaled footprint fits inside the cell on both axes and touches it on at least one. */
  lemma ContainFits(g: Geometry, d: ImageSize)
    requires !g.crop && d.width > 0 && d.height > 0
    ensures var s := FitScale(g, d);
      && d.width as real * s <= g.cellW && d.height as real * s <= g.cellH
      && (d.width as real * s == g.cellW || d.height as real * s == g.cellH)
  {
    ScaledRatio(g.cellW, d.width, g.cellH / d.height as real);
    ScaledRatio(g.cellH, d.height, g.cellW / d.width as real);
  }

  /** Crop: the scaled footprint covers the cell on both axes and touches it on at least one. */
  lemma CropCovers(g: Geometry, d: ImageSize)
    requires g.crop && d.width > 0 && d.height > 0
    ensures var s := FitScale(g, d);
      && d.width as real * s >= g.cellW && d.height as real * s >= g.cellH
      && (d.width as real * s == g.cellW || d.height as real * s == g.cellH)
  {
    ScaledRatio(g.cellW, d.width, g.cellH / d.height as real);
    ScaledRatio(g.cellH, d.height, g.cellW / d.width as real);
  }

  /** Scaling a side n by a ratio compares with the cell side exactly as the ratios compare. */
  lemma ScaledRatio(cell: real, n: int, other: real)
    requires n > 0
    ensures n as real * (cell / n as real) == cell
    ensures other <= cell / n as real ==> n as real * other <= cell
    ensures other >= cell / n as real ==> n as real * other >= cell
  {
  }

  /** Each frame's drawImage call covers exactly its destination rectangle, which is centred in its cell. */
  lemma PlacementDrawsDest(g: Geometry, i: nat, frame: Frame)
    requires g.cols >= 1 && frame.image.width > 0 && frame.image.height > 0
    ensures var pl := PlaceFrame(g, i, frame);
      && pl.dest.width >= 1 && pl.dest.height >= 1
      && pl.dest.width == PlacedSize(g, Dims(frame.image, frame.rotationQuarterTurns)).width
      && pl.dest.height == PlacedSize(g, Dims(frame.image, frame.rotationQuarterTurns)).height
      && (pl.dest.left, pl.dest.top) == Centre(pl.cell, PlacedSize(g, Dims(frame.image, frame.rotationQuarterTurns)))
      && (forall p :: InRect(p, pl.draw.target) ==> InRect(ApplyTransform(pl.draw.transform, p), pl.dest))
      && (forall q :: InRect(q, pl.dest) ==>
            InRect(UnapplyTransform(pl.draw.transform, q), pl.draw.target)
            && ApplyTransform(pl.draw.transform, UnapplyTransform(pl.draw.transform, q)) == q)
  {
    var pl := PlaceFrame(g, i, frame);
    DrawFootprintExact(frame.rotationQuarterTurns, pl.dest.left, pl.dest.top, pl.dest.width, pl.dest.height);
  }

  /** A centred origin is within half a pixel of the exact centre on both axes. */
  lemma CentreIsCentred(cell: Rect, size: ImageSize)
    ensures var (dx, dy) := Centre(cell, size);
      && 2.0 * (dx as real - cell.left as real) - (cell.width - size.width) as real <= 1.0
      && (cell.width - size.width) as real - 2.0 * (dx as real - cell.left as real) < 1.0
      && 2.0 * (dy as real - cell.top as real) - (cell.height - size.height) as real <= 1.0
      && (cell.height - size.height) as real - 2.0 * (dy as real - cell.top as real) < 1.0
  {
  }

  // ---------------------------------------------------------------- encoding

  /** What composeGrid asks of canvas.toBlob: PNG without quality, otherwise JPEG at the option's quality. */
  datatype EncodeRequest = EncodeRequest(mime: string, quality: Option<real>)

  function EncodeRequestFor(opts: ComposeOptions): (req: EncodeRequest)
    ensures req.mime == opts.output.Mime()
    ensures req.quality.Some? <==> opts.output == Jpeg
    ensures opts.output == Jpeg ==> req.quality == Some(opts.quality)
  {
    if opts.output == Png then EncodeRequest("image/png", None) else EncodeRequest("image/jpeg", Some(opts.quality))
  }

  /**
   * composeGrid: a layout error becomes a thrown Error with the engine's
   * message; otherwise the plan is handed to the encoder. The encoder may
   * yield no blob (toBlob's null), which the source passes on unchecked.
   */
  function ComposeGrid(frames: seq<Frame>, opts: ComposeOptions, encode: (DrawPlan, EncodeRequest) -> Option<Blob>)
    : (r: Result<Option<Blob>, Thrown>)
    requires ValidShape(opts) && Decoded(frames)
    ensures r.Failure? <==> Plan(frames, opts).Failure?
    ensures r.Failure? ==> r.error == ErrorObject(Plan(frames, opts).error.Message())
    ensures r.Success? ==> r.value == encode(Plan(frames, opts).value, EncodeRequestFor(opts))
  {
    match Plan(frames, opts)
    case Failure(e) => Failure(ErrorObject(e.Message()))
    case Success(plan) => Success(encode(plan, EncodeRequestFor(opts)))
  }
}
