/**
 * stitch_frame of stitch.py: the left frame is copied onto a black canvas at
 * (-offset_x, -offset_y), clipped to the canvas; each column of the blend band is
 * cross-faded with the warped right frame where both have content; finally every pixel
 * still black takes the warped right frame's pixel.
 *
 * warpPerspective is foreign: the warped right frame, already of canvas size, is an input.
 * numpy's slicing (negative stops count from the end, bounds clamp) and its broadcasting
 * rule for the slice assignment are written out, because a left frame lying wholly outside
 * the canvas can make that assignment raise ValueError.
 */
module StitchFrame {
  import opened Wrappers
  import opened Arith
  import opened Image
  import Calibrate

  // ----- placement of the left frame -----------------------------------------------------

  /** The destination rectangle on the canvas and the source rectangle in the left frame. */
  datatype Placement = Placement(
    dstRow: nat, dstCol: nat, rows: nat, cols: nat,
    srcRow: nat, srcCol: nat, srcRows: nat, srcCols: nat)

  /**
   * The slices stitch_frame computes: y_start = max(0, left_y), y_end = min(canvas_height,
   * left_y + h_left), the source bounds shifted by -left_y, and likewise for x.
   */
  function PlacementOf(g: Calibrate.Geometry, heightLeft: nat, widthLeft: nat): (p: Placement)
    requires g.canvasWidth >= 0 && g.canvasHeight >= 0
    ensures p.dstRow + p.rows <= g.canvasHeight && p.dstCol + p.cols <= g.canvasWidth
    ensures p.srcRow + p.srcRows <= heightLeft && p.srcCol + p.srcCols <= widthLeft
  {
    var h, w := g.canvasHeight, g.canvasWidth;
    var leftX, leftY := -g.offsetX, -g.offsetY;
    var yStart, yEnd := Max(0, leftY), Min(h, leftY + heightLeft);
    var xStart, xEnd := Max(0, leftX), Min(w, leftX + widthLeft);
    Placement(SliceIndex(yStart, h), SliceIndex(xStart, w),
              SliceLen(yStart, yEnd, h), SliceLen(xStart, xEnd, w),
              SliceIndex(yStart - leftY, heightLeft), SliceIndex(xStart - leftX, widthLeft),
              SliceLen(yStart - leftY, yEnd - leftY, heightLeft),
              SliceLen(xStart - leftX, xEnd - leftX, widthLeft))
  }

  /** numpy assigns a source extent to a destination extent when they agree or the source is 1. */
  predicate Broadcasts(src: nat, dst: nat)
  {
    src == dst || src == 1
  }

  predicate Fits(p: Placement)
  {
    Broadcasts(p.srcRows, p.rows) && Broadcasts(p.srcCols, p.cols)
  }

  predicate InRect(p: Placement, y: int, x: int)
  {
    p.dstRow <= y < p.dstRow + p.rows && p.dstCol <= x < p.dstCol + p.cols
  }

  /** The left-frame pixel the slice assignment writes at canvas (y, x), or black. */
  function PlacedBy(left: array2<Pixel>, p: Placement, y: int, x: int): Pixel
    reads left
    requires Fits(p)
    requires p.srcRow + p.srcRows <= left.Length0 && p.srcCol + p.srcCols <= left.Length1
  {
    if InRect(p, y, x) then
      left[p.srcRow + (if p.srcRows == 1 then 0 else y - p.dstRow),
           p.srcCol + (if p.srcCols == 1 then 0 else x - p.dstCol)]
    else Black
  }

  /**
   * The placement rectangle lies inside the canvas and inside the left frame. On an axis
   * where the left frame's span meets the canvas's, the two rectangles have the same extent
   * and canvas (y, x) shows left pixel (y + offset_y, x + offset_x).
   */
  lemma PlacementInside(g: Calibrate.Geometry, heightLeft: nat, widthLeft: nat)
    requires g.canvasWidth >= 0 && g.canvasHeight >= 0
    ensures var p := PlacementOf(g, heightLeft, widthLeft);
      p.dstRow + p.rows <= g.canvasHeight && p.dstCol + p.cols <= g.canvasWidth
      && p.srcRow + p.srcRows <= heightLeft && p.srcCol + p.srcCols <= widthLeft
    ensures var p := PlacementOf(g, heightLeft, widthLeft);
      -g.offsetY <= g.canvasHeight && 0 <= heightLeft - g.offsetY ==>
        p.rows == p.srcRows && p.srcRow == p.dstRow + g.offsetY
    ensures var p := PlacementOf(g, heightLeft, widthLeft);
      -g.offsetX <= g.canvasWidth && 0 <= widthLeft - g.offsetX ==>
        p.cols == p.srcCols && p.srcCol == p.dstCol + g.offsetX
  {
  }

  /**
   * A geometry whose canvas holds the whole left frame at (-offset_x, -offset_y), as
   * compute_canvas_and_blend produces, places the whole frame there unclipped.
   */
  lemma WholeFramePlaced(g: Calibrate.Geometry, heightLeft: nat, widthLeft: nat)
    requires g.offsetX <= 0 && g.offsetY <= 0
    requires -g.offsetX + widthLeft <= g.canvasWidth && -g.offsetY + heightLeft <= g.canvasHeight
    ensures PlacementOf(g, heightLeft, widthLeft)
            == Placement(-g.offsetY, -g.offsetX, heightLeft, widthLeft, 0, 0, heightLeft, widthLeft)
    ensures Fits(PlacementOf(g, heightLeft, widthLeft))
  {
  }

  /** The geometry calibration computes always lets the placement succeed, unclipped. */
  lemma CalibratedPlacement(widthLeft: nat, heightLeft: nat, warped: seq<Calibrate.Point>)
    requires |warped| == 4
    ensures var g := Calibrate.ComputeCanvasAndBlend(widthLeft, heightLeft, warped);
      Fits(PlacementOf(g, heightLeft, widthLeft))
      && PlacementOf(g, heightLeft, widthLeft)
         == Placement(-g.offsetY, -g.offsetX, heightLeft, widthLeft, 0, 0, heightLeft, widthLeft)
  {
    var g := Calibrate.ComputeCanvasAndBlend(widthLeft, heightLeft, warped);
    WholeFramePlaced(g, heightLeft, widthLeft);
  }

  // ----- the blend band ------------------------------------------------------------------

  /** The band is blended only when 0 <= blend_x_start < blend_x_end. */
  predicate BandActive(g: Calibrate.Geometry)
  {
    0 <= g.blendStart < g.blendEnd
  }

  /** Canvas columns the band loop rewrites: band columns inside [0, canvas_width). */
  predicate InBand(g: Calibrate.Geometry, x: int)
  {
    BandActive(g) && g.blendStart <= x < g.blendEnd && 0 <= x < g.canvasWidth
  }

  /** alpha = i / max(blend_w - 1, 1) for band column i of blend_w. */
  function Alpha(i: int, bandWidth: int): (a: real)
    requires 0 <= i < bandWidth
    ensures 0.0 <= a <= 1.0
    ensures i == 0 ==> a == 0.0
    ensures bandWidth >= 2 && i == bandWidth - 1 ==> a == 1.0
  {
    i as real / Max(bandWidth - 1, 1) as real
  }

  /**
   * One pixel of a band column: mixed where both sides have content, the right pixel where
   * only the right has, the left pixel otherwise.
   */
  function BlendPixel(l: Pixel, r: Pixel, a: real): Pixel
    requires 0.0 <= a <= 1.0
  {
    if HasContent(l) && HasContent(r) then MixPixel(l, r, a)
    else if !HasContent(l) && HasContent(r) then r
    else l
  }

  /** The right-only fill: a pixel with zero channel sum takes the warped pixel when that has content. */
  function FillPixel(c: Pixel, w: Pixel): Pixel
  {
    if ChannelSum(c) == 0 && HasContent(w) then w else c
  }

  /** The pixel after the band pass, given the placed pixel l and the warped pixel w at column x. */
  function BandPixel(g: Calibrate.Geometry, x: int, l: Pixel, w: Pixel): Pixel
  {
    if InBand(g, x) then
      BlendPixel(l, w, Alpha(x - g.blendStart, g.blendEnd - g.blendStart))
    else l
  }

  /** stitch_frame's output pixel at (y, x). */
  function FinalPixel(left: array2<Pixel>, warped: array2<Pixel>, g: Calibrate.Geometry,
                      y: int, x: int): Pixel
    reads left, warped
    requires g.canvasWidth >= 0 && g.canvasHeight >= 0
    requires Fits(PlacementOf(g, left.Length0, left.Length1))
    requires 0 <= y < warped.Length0 && 0 <= x < warped.Length1
  {
    var l := PlacedBy(left, PlacementOf(g, left.Length0, left.Length1), y, x);
    FillPixel(BandPixel(g, x, l, warped[y, x]), warped[y, x])
  }

  /**
   * Per pixel, with l the placed left pixel and w the warped right pixel: the output is
   * black exactly when neither has content; it is l wherever w has none, w wherever l has
   * none, and l outside the band.
   */
  lemma OutputPixel(g: Calibrate.Geometry, x: int, l: Pixel, w: Pixel)
    ensures var o := FillPixel(BandPixel(g, x, l, w), w);
      (!HasContent(o) <==> !HasContent(l) && !HasContent(w))
      && (!HasContent(w) ==> o == l)
      && (!HasContent(l) ==> o == w)
      && (!InBand(g, x) && HasContent(l) ==> o == l)
  {
  }

  /**
   * On a band column where both sides have content, the output mixes the two pixels, or is
   * the warped pixel if the mix truncates to black; at the band's first column the mix is
   * the left pixel and, for a band at least two wide, at its last column the right pixel.
   */
  lemma BandEnds(g: Calibrate.Geometry, x: int, l: Pixel, w: Pixel)
    requires InBand(g, x) && HasContent(l) && HasContent(w)
    ensures var o := FillPixel(BandPixel(g, x, l, w), w);
      var a := Alpha(x - g.blendStart, g.blendEnd - g.blendStart);
      o == (if HasContent(MixPixel(l, w, a)) then MixPixel(l, w, a) else w)
    ensures x == g.blendStart ==> FillPixel(BandPixel(g, x, l, w), w) == l
    ensures g.blendEnd - g.blendStart >= 2 && x == g.blendEnd - 1 ==>
      FillPixel(BandPixel(g, x, l, w), w) == w
  {
  }

  // ----- the method ----------------------------------------------------------------------

  /**
   * stitch_frame with warped the output of warpPerspective at the canvas size. The slice
   * assignment of the left frame fails with ValueError when numpy cannot broadcast the
   * source rectangle onto the destination; otherwise every canvas pixel is FinalPixel.
   */
  method Compose(left: array2<Pixel>, warped: array2<Pixel>, g: Calibrate.Geometry)
    returns (r: Outcome, canvas: array2<Pixel>)
    requires warped.Length0 == g.canvasHeight && warped.Length1 == g.canvasWidth
    ensures fresh(canvas)
    ensures canvas.Length0 == g.canvasHeight && canvas.Length1 == g.canvasWidth
    ensures r == (if Fits(PlacementOf(g, left.Length0, left.Length1)) then Pass else Fail(ValueError))
    ensures r.Pass? ==>
      forall y, x :: 0 <= y < canvas.Length0 && 0 <= x < canvas.Length1 ==>
        canvas[y, x] == FinalPixel(left, warped, g, y, x)
  {
    canvas := new Pixel[g.canvasHeight, g.canvasWidth]((y, x) => Black);
    var p := PlacementOf(g, left.Length0, left.Length1);
    if !Fits(p) {
      return Fail(ValueError), canvas;
    }
    PlaceLeft(canvas, left, p);
    BlendBand(canvas, warped, g);
    FillRightOnly(canvas, warped);
    return Pass, canvas;
  }

  /** canvas[y_start:y_end, x_start:x_end] = frame_left[...] on a black canvas. */
  method PlaceLeft(canvas: array2<Pixel>, left: array2<Pixel>, p: Placement)
    requires canvas != left
    requires Fits(p)
    requires p.dstRow + p.rows <= canvas.Length0 && p.dstCol + p.cols <= canvas.Length1
    requires p.srcRow + p.srcRows <= left.Length0 && p.srcCol + p.srcCols <= left.Length1
    requires forall y, x :: 0 <= y < canvas.Length0 && 0 <= x < canvas.Length1 ==>
      canvas[y, x] == Black
    modifies canvas
    ensures forall y, x :: 0 <= y < canvas.Length0 && 0 <= x < canvas.Length1 ==>
      canvas[y, x] == PlacedBy(left, p, y, x)
  {
    var i := 0;
    while i < p.rows
      invariant 0 <= i <= p.rows
      invariant forall y, x :: 0 <= y < canvas.Length0 && 0 <= x < canvas.Length1 ==>
        canvas[y, x] == (if y < p.dstRow + i then PlacedBy(left, p, y, x) else Black)
    {
      var j := 0;
      while j < p.cols
        invariant 0 <= j <= p.cols
        invariant forall y, x :: 0 <= y < canvas.Length0 && 0 <= x < canvas.Length1 ==>
          canvas[y, x] == (if y < p.dstRow + i || (y == p.dstRow + i && x < p.dstCol + j)
                           then PlacedBy(left, p, y, x) else Black)
      {
        canvas[p.dstRow + i, p.dstCol + j] := PlacedBy(left, p, p.dstRow + i, p.dstCol + j);
        j := j + 1;
      }
      i := i + 1;
    }
  }

  /** The loop over the band columns: each column inside the canvas is blended once. */
  method BlendBand(canvas: array2<Pixel>, warped: array2<Pixel>, g: Calibrate.Geometry)
    requires canvas != warped
    requires canvas.Length0 == warped.Length0 && canvas.Length1 == warped.Length1
    requires warped.Length1 == g.canvasWidth
    modifies canvas
    ensures forall y, x :: 0 <= y < canvas.Length0 && 0 <= x < canvas.Length1 ==>
      canvas[y, x] == BandPixel(g, x, old(canvas[y, x]), warped[y, x])
  {
    if !BandActive(g) {
      return;
    }
    var bandWidth := g.blendEnd - g.blendStart;
    var i := 0;
    while i < bandWidth
      invariant 0 <= i <= bandWidth
      invariant forall y, x :: 0 <= y < canvas.Length0 && 0 <= x < canvas.Length1 ==>
        canvas[y, x] == (if x < g.blendStart + i then BandPixel(g, x, old(canvas[y, x]), warped[y, x])
                         else old(canvas[y, x]))
    {
      var x := g.blendStart + i;
      if 0 <= x < canvas.Length1 {
        BlendColumn(canvas, warped, x, Alpha(i, bandWidth));
      }
      i := i + 1;
    }
  }

  /** One band column: the masks and the masked assignments of stitch_frame's loop body. */
  method BlendColumn(canvas: array2<Pixel>, warped: array2<Pixel>, x: nat, a: real)
    requires canvas != warped
    requires canvas.Length0 == warped.Length0 && canvas.Length1 == warped.Length1
    requires x < canvas.Length1 && 0.0 <= a <= 1.0
    modifies canvas
    ensures forall y, c :: 0 <= y < canvas.Length0 && 0 <= c < canvas.Length1 ==>
      canvas[y, c] == (if c == x then BlendPixel(old(canvas[y, c]), warped[y, c], a)
                       else old(canvas[y, c]))
  {
    var y := 0;
    while y < canvas.Length0
      invariant 0 <= y <= canvas.Length0
      invariant forall v, c :: 0 <= v < canvas.Length0 && 0 <= c < canvas.Length1 ==>
        canvas[v, c] == (if c == x && v < y then BlendPixel(old(canvas[v, c]), warped[v, c], a)
                         else old(canvas[v, c]))
    {
      canvas[y, x] := BlendPixel(canvas[y, x], warped[y, x], a);
      y := y + 1;
    }
  }

  /** right_only_mask = (canvas.sum(axis=2) == 0) & (warped_right.sum(axis=2) > 0), then the fill. */
  method FillRightOnly(canvas: array2<Pixel>, warped: array2<Pixel>)
    requires canvas != warped
    requires canvas.Length0 == warped.Length0 && canvas.Length1 == warped.Length1
    modifies canvas
    ensures forall y, x :: 0 <= y < canvas.Length0 && 0 <= x < canvas.Length1 ==>
      canvas[y, x] == FillPixel(old(canvas[y, x]), warped[y, x])
  {
    var i := 0;
    while i < canvas.Length0
      invariant 0 <= i <= canvas.Length0
      invariant forall y, x :: 0 <= y < canvas.Length0 && 0 <= x < canvas.Length1 ==>
        canvas[y, x] == (if y < i then FillPixel(old(canvas[y, x]), warped[y, x])
                         else old(canvas[y, x]))
    {
      var j := 0;
      while j < canvas.Length1
        invariant 0 <= j <= canvas.Length1
        invariant forall y, x :: 0 <= y < canvas.Length0 && 0 <= x < canvas.Length1 ==>
          canvas[y, x] == (if y < i || (y == i && x < j) then FillPixel(old(canvas[y, x]), warped[y, x])
                           else old(canvas[y, x]))
      {
        canvas[i, j] := FillPixel(canvas[i, j], warped[i, j]);
        j := j + 1;
      }
      i := i + 1;
    }
  }
}
