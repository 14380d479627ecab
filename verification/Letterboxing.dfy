/** `ImagePreprocessor::preprocess`: a frame scaled into the centre of a planar RGB tensor. */
module Letterboxing {
  import opened Frames
  import opened Geometry
  import opened Detection

  const GRAY: real := 0.447

  // ---------- The window ----------

  /** `std::round` of a number that is not negative. */
  function Round(x: real): int { (x + 0.5).Floor }

  function ScaledSide(side: nat, scale: real, target: nat): nat
    requires target > 0
  {
    var n := Round(side as real * scale);
    if n < 1 then 1 else if target < n then target else n
  }

  function ScaleOf(frameW: nat, frameH: nat, targetW: nat, targetH: nat): real
    requires frameW > 0 && frameH > 0
  {
    Min(targetW as real / frameW as real, targetH as real / frameH as real)
  }

  function Fit(frameW: nat, frameH: nat, targetW: nat, targetH: nat): Letterbox
    requires frameW > 0 && frameH > 0 && targetW > 0 && targetH > 0
  {
    var scale := ScaleOf(frameW, frameH, targetW, targetH);
    var w, h := ScaledSide(frameW, scale, targetW), ScaledSide(frameH, scale, targetH);
    Letterbox(scale, (targetW - w) / 2, (targetH - h) / 2, w, h, frameW, frameH)
  }

  lemma DivideBack(a: real, b: real)
    requires b > 0.0
    ensures b * (a / b) == a && (a > 0.0 ==> a / b > 0.0)
  {
  }

  lemma ScaleFits(frameW: nat, frameH: nat, targetW: nat, targetH: nat)
    requires frameW > 0 && frameH > 0 && targetW > 0 && targetH > 0
    ensures var scale := ScaleOf(frameW, frameH, targetW, targetH);
            && scale > 0.0
            && frameW as real * scale <= targetW as real && frameH as real * scale <= targetH as real
            && (frameW as real * scale == targetW as real || frameH as real * scale == targetH as real)
  {
    var (a, b) := (targetW as real / frameW as real, targetH as real / frameH as real);
    DivideBack(targetW as real, frameW as real);
    DivideBack(targetH as real, frameH as real);
    TimesMonotone(frameW as real, Min(a, b), a);
    TimesMonotone(frameH as real, Min(a, b), b);
  }

  lemma TimesMonotone(k: real, a: real, b: real)
    requires k >= 0.0 && a <= b
    ensures k * a <= k * b
  {
  }

  /** A side is rounded to the nearest pixel, up from the middle, except that it never vanishes. */
  lemma ScaledSideNearest(side: nat, scale: real, target: nat)
    requires target > 0 && 0.0 <= side as real * scale <= target as real
    ensures var n := ScaledSide(side, scale, target);
            && 1 <= n <= target
            && (side as real * scale == target as real ==> n == target)
            && (-0.5 < n as real - side as real * scale <= 0.5 || n == 1)
  {
  }

  /** The window lies in the target, is centred to within one pixel, and spans the target
      in at least one direction. */
  lemma WindowFits(frameW: nat, frameH: nat, targetW: nat, targetH: nat)
    requires frameW > 0 && frameH > 0 && targetW > 0 && targetH > 0
    ensures var l := Fit(frameW, frameH, targetW, targetH);
            && 1 <= l.scaledW && 0 <= l.padX && l.padX + l.scaledW <= targetW
            && 1 <= l.scaledH && 0 <= l.padY && l.padY + l.scaledH <= targetH
            && 0 <= targetW - l.scaledW - 2 * l.padX <= 1 && 0 <= targetH - l.scaledH - 2 * l.padY <= 1
            && (l.scaledW == targetW || l.scaledH == targetH)
  {
    hide ScaleOf, ScaledSide;
    ScaleFits(frameW, frameH, targetW, targetH);
    var scale := ScaleOf(frameW, frameH, targetW, targetH);
    ScaledSideNearest(frameW, scale, targetW);
    ScaledSideNearest(frameH, scale, targetH);
  }

  // ---------- Sampling ----------

  /** The source row or column behind cell i of the window. */
  function SourceIndex(i: nat, scale: real, side: nat): (r: nat)
    requires scale > 0.0 && side > 0
    ensures r < side
  {
    TimesMonotone(1.0 / scale, 0.0, i as real);
    var n := (i as real * (1.0 / scale)).Floor;
    if side - 1 < n then side - 1 else n
  }

  /** The three channels of a source pixel: only BGRA and BGRx store blue first. */
  function Colour(frame: Frame, px: nat, py: nat): Rgb
    requires HasPixels(frame) && px < frame.width && py < frame.height
  {
    PixelInBuffer(frame, RowStride(frame), px, py);
    var data, offset := frame.data.value, py * RowStride(frame) + px * BytesPerPixel(frame.format);
    if frame.format == BGRA || frame.format == BGRx then Rgb(data[offset + 2], data[offset + 1], data[offset])
    else Rgb(data[offset], data[offset + 1], data[offset + 2])
  }

  /** A cell of the tensor: plane 0, 1 or 2 for red, green or blue, then row and column. */
  datatype Place = Place(plane: nat, row: nat, col: nat)

  function Level(colour: Rgb, plane: nat): real {
    (if plane == 0 then colour.r else if plane == 1 then colour.g else colour.b) as real * (1.0 / 255.0)
  }

  predicate InWindow(l: Letterbox, p: Place) {
    l.padX <= p.col < l.padX + l.scaledW && l.padY <= p.row < l.padY + l.scaledH
  }

  function Sampled(frame: Frame, l: Letterbox, p: Place): real
    requires HasPixels(frame) && l.scale > 0.0 && InWindow(l, p)
    requires 0 <= l.padX && 0 <= l.padY
  {
    Level(Colour(frame, SourceIndex(p.col - l.padX, l.scale, frame.width),
                 SourceIndex(p.row - l.padY, l.scale, frame.height)), p.plane)
  }

  /** What cell p of the tensor holds after preprocessing. */
  function CellOf(frame: Frame, targetW: nat, targetH: nat, p: Place): real
    requires targetW > 0 && targetH > 0
  {
    if HasPixels(frame) then
      var l := Fit(frame.width, frame.height, targetW, targetH);
      WindowFits(frame.width, frame.height, targetW, targetH);
      ScaleFits(frame.width, frame.height, targetW, targetH);
      if InWindow(l, p) then Sampled(frame, l, p) else GRAY
    else GRAY
  }

  function InfoOf(frame: Frame, targetW: nat, targetH: nat): Letterbox
    requires targetW > 0 && targetH > 0
  {
    if HasPixels(frame) then Fit(frame.width, frame.height, targetW, targetH)
    else Letterbox(1.0, 0, 0, 640, 640, frame.width, frame.height)
  }

  lemma CellInRange(frame: Frame, targetW: nat, targetH: nat, p: Place)
    requires targetW > 0 && targetH > 0
    ensures 0.0 <= CellOf(frame, targetW, targetH, p) <= 1.0
  {
    hide Fit, SourceIndex, Colour;
  }

  /** The bytes of an image in a frame's own layout. */
  ghost predicate Encodes(frame: Frame, image: (nat, nat) -> Rgb) {
    HasPixels(frame) &&
    forall x: nat, y: nat :: x < frame.width && y < frame.height ==> Stores(frame, x, y, image(x, y))
  }

  /** Rows of `stride` bytes, or tightly packed ones; BGRA and BGRx store blue first, any other
      format red. */
  predicate Stores(frame: Frame, x: nat, y: nat, c: Rgb) {
    StoredIn(frame,
             if frame.stride > 0 then frame.stride else frame.width * (if frame.format.RGB? then 3 else 4),
             frame.format.BGRA? || frame.format.BGRx?, x, y, c)
  }

  lemma ColourStored(frame: Frame, x: nat, y: nat, c: Rgb)
    requires HasPixels(frame) && x < frame.width && y < frame.height
    ensures Colour(frame, x, y) == c <==> Stores(frame, x, y, c)
  {
    PixelInBuffer(frame, RowStride(frame), x, y);
  }

  /** The three planes hold red, green and blue of the sampled pixel, as fractions of 255, inside
      the window, and gray outside. */
  lemma TensorCells(frame: Frame, image: (nat, nat) -> Rgb, targetW: nat, targetH: nat, row: nat, col: nat)
    requires targetW > 0 && targetH > 0 && Encodes(frame, image)
    ensures var l := Fit(frame.width, frame.height, targetW, targetH);
            var (red, green, blue) := (CellOf(frame, targetW, targetH, Place(0, row, col)),
                                       CellOf(frame, targetW, targetH, Place(1, row, col)),
                                       CellOf(frame, targetW, targetH, Place(2, row, col)));
            && l.scale > 0.0 && l.padX >= 0 && l.padY >= 0
            && (l.padX <= col < l.padX + l.scaledW && l.padY <= row < l.padY + l.scaledH ==>
                  var c := image(SourceIndex(col - l.padX, l.scale, frame.width),
                                 SourceIndex(row - l.padY, l.scale, frame.height));
                  red == c.r as real / 255.0 && green == c.g as real / 255.0 && blue == c.b as real / 255.0)
            && (!(l.padX <= col < l.padX + l.scaledW && l.padY <= row < l.padY + l.scaledH) ==>
                  red == green == blue == 0.447)
  {
    hide Fit, Stores, Colour, SourceIndex;
    var l := Fit(frame.width, frame.height, targetW, targetH);
    WindowFits(frame.width, frame.height, targetW, targetH);
    FitScale(frame.width, frame.height, targetW, targetH);
    if InWindow(l, Place(0, row, col)) {
      SourceIndexInside(col - l.padX, l.scale, frame.width);
      SourceIndexInside(row - l.padY, l.scale, frame.height);
      var x := SourceIndex(col - l.padX, l.scale, frame.width);
      var y := SourceIndex(row - l.padY, l.scale, frame.height);
      ColourStored(frame, x, y, image(x, y));
    }
  }

  /** Without pixels everything is gray. */
  lemma BlankTensor(frame: Frame, targetW: nat, targetH: nat, p: Place)
    requires targetW > 0 && targetH > 0 && (frame.data.None? || frame.width == 0 || frame.height == 0)
    ensures CellOf(frame, targetW, targetH, p) == 0.447
  {
  }

  lemma SourceIndexInside(i: nat, scale: real, side: nat)
    requires scale > 0.0 && side > 0
    ensures SourceIndex(i, scale, side) < side
  {
  }

  /** Two encodings of one image, whatever their format and stride, give the same tensor. */
  lemma EncodingIrrelevant(a: Frame, b: Frame, image: (nat, nat) -> Rgb, targetW: nat, targetH: nat, p: Place)
    requires targetW > 0 && targetH > 0 && a.width == b.width && a.height == b.height
    requires Encodes(a, image) && Encodes(b, image)
    ensures CellOf(a, targetW, targetH, p) == CellOf(b, targetW, targetH, p)
  {
    hide Fit, Stores, Colour;
    var l := Fit(a.width, a.height, targetW, targetH);
    WindowFits(a.width, a.height, targetW, targetH);
    ScaleFits(a.width, a.height, targetW, targetH);
    assert l.scale > 0.0 by { FitScale(a.width, a.height, targetW, targetH); }
    if InWindow(l, p) {
      var x := SourceIndex(p.col - l.padX, l.scale, a.width);
      var y := SourceIndex(p.row - l.padY, l.scale, a.height);
      ColourStored(a, x, y, image(x, y));
      ColourStored(b, x, y, image(x, y));
    }
  }

  lemma FitScale(frameW: nat, frameH: nat, targetW: nat, targetH: nat)
    requires frameW > 0 && frameH > 0 && targetW > 0 && targetH > 0
    ensures Fit(frameW, frameH, targetW, targetH).scale > 0.0
  {
    ScaleFits(frameW, frameH, targetW, targetH);
  }

  // ---------- Sampling agrees with un-mapping ----------

  /** Where un-mapping places the left edge of window cell i of n, in source pixels. */
  function Unmapped(i: nat, n: nat, side: nat): real
    requires n > 0
  {
    i as real / n as real * side as real
  }

  function HalfPixel(scale: real): real
    requires scale > 0.0
  {
    0.5 / scale
  }

  /** The sampled source pixel holds the point un-mapping assigns to the cell: exactly in a
      direction the window fills, and to within half a window pixel in the other. */
  lemma SampleAligned(i: nat, side: nat, scale: real, n: nat)
    requires scale > 0.0 && i < n && side > 0
    requires -0.5 <= n as real - side as real * scale <= 0.5 || n == 1
    ensures var src, exact, half := SourceIndex(i, scale, side) as real, Unmapped(i, n, side), HalfPixel(scale);
            && src - half <= exact <= src + 1.0 + half
            && (n as real == side as real * scale ==> src <= exact <= src + 1.0)
  {
    var position := i as real * (1.0 / scale);
    SourceIndexIs(i, scale, side);
    UnmappedDrift(i, n, side, scale, position);
    hide Unmapped, HalfPixel, SourceIndex;
    Aligned(SourceIndex(i, scale, side) as real, position, Unmapped(i, n, side), HalfPixel(scale), side as real);
  }

  lemma UnmappedDrift(i: nat, n: nat, side: nat, scale: real, position: real)
    requires scale > 0.0 && i < n && side > 0 && position == i as real * (1.0 / scale)
    requires -0.5 <= n as real - side as real * scale <= 0.5 || n == 1
    ensures -HalfPixel(scale) <= Unmapped(i, n, side) - position <= HalfPixel(scale)
    ensures HalfPixel(scale) > 0.0 && Unmapped(i, n, side) <= side as real
    ensures n as real == side as real * scale ==> Unmapped(i, n, side) == position
  {
    Drift(i as real, n as real, side as real, scale);
    TimesMonotone(side as real, i as real / n as real, 1.0);
  }

  lemma Aligned(src: real, position: real, exact: real, half: real, side: real)
    requires src <= position && (position < src + 1.0 || src == side - 1.0)
    requires half > 0.0 && -half <= exact - position <= half && exact <= side
    ensures src - half <= exact <= src + 1.0 + half
    ensures exact == position ==> src <= exact <= src + 1.0
  {
  }

  /** The two positions differ by u / scale * (side * scale - n), with u = i / n below 1. */
  lemma Drift(i: real, n: real, side: real, scale: real)
    requires 0.0 <= i < n && scale > 0.0
    requires -0.5 <= n - side * scale <= 0.5 || i == 0.0
    ensures 0.0 <= i / n < 1.0 && 0.5 / scale > 0.0
    ensures -0.5 / scale <= i / n * side - i * (1.0 / scale) <= 0.5 / scale
    ensures n == side * scale ==> i / n * side == i * (1.0 / scale)
  {
    var u, r, d := i / n, 1.0 / scale, side * scale - n;
    assert u * n == i && r * scale == 1.0 && r > 0.0;
    QuotientAtMost(i, n, 1.0);
    QuotientAtMost(i, n, 0.0);
    calc {
      u * side - i * r;
      u * (side * (scale * r)) - u * n * r;
      { assert side * (scale * r) == (side * scale) * r; }
      u * ((side * scale) * r) - u * (n * r);
      u * ((side * scale) * r - n * r);
      { assert (side * scale) * r - n * r == d * r; }
      u * (d * r);
    }
    assert 0.5 / scale == 0.5 * r;
    if i == 0.0 {
      assert u == 0.0;
    } else {
      SmallTimes(u, d, r);
    }
  }

  lemma SmallTimes(u: real, d: real, r: real)
    requires 0.0 <= u < 1.0 && -0.5 <= d <= 0.5 && r > 0.0
    ensures -0.5 * r <= u * (d * r) <= 0.5 * r
  {
    var v := r * d;
    TimesMonotone(r, d, 0.5);
    TimesMonotone(r, -0.5, d);
    if v >= 0.0 { TimesMonotone(v, u, 1.0); TimesMonotone(v, 0.0, u); }
    else { TimesMonotone(-v, u, 1.0); TimesMonotone(-v, 0.0, u); }
    assert u * (d * r) == u * v == -(u * -v);
  }

  lemma SourceIndexIs(i: nat, scale: real, side: nat)
    requires scale > 0.0 && side > 0
    ensures var src, q := SourceIndex(i, scale, side) as real, i as real * (1.0 / scale);
            src <= q && (q < src + 1.0 || src == side as real - 1.0)
  {
  }

  // ---------- From frame to tensor and back ----------

  /** The detector's coordinates of a box of the frame, un-mapped again: always in the unit
      square and over every visible point of the box, and the box itself when all of it is visible. */
  lemma MapUnmap(frameW: nat, frameH: nat, config: DetectorConfig, box: BoundingBox)
    requires frameW > 0 && frameH > 0 && config.inputWidth > 0 && config.inputHeight > 0
    ensures var l := Fit(frameW, frameH, config.inputWidth, config.inputHeight);
            var (cx, w) := MapAxis(box.x, box.width, l.padX, l.scaledW as real);
            var (cy, h) := MapAxis(box.y, box.height, l.padY, l.scaledH as real);
            && Spans(l, config)
            && var seen := Unmap(l, config, cx, cy, w, h, box.confidence, box.classId);
            && seen.InUnitSquare()
            && (forall p: real :: Visible(p, box.x, box.Right()) ==> Visible(p, seen.x, seen.Right()))
            && (forall p: real :: Visible(p, box.y, box.Bottom()) ==> Visible(p, seen.y, seen.Bottom()))
            && (box.InUnitSquare() ==> seen.SameRect(box))
  {
    hide Fit, MapAxis, UnmapAxis;
    var l := Fit(frameW, frameH, config.inputWidth, config.inputHeight);
    WindowFits(frameW, frameH, config.inputWidth, config.inputHeight);
    UnmapMap(box.x, box.width, l.padX, l.scaledW as real);
    UnmapMap(box.y, box.height, l.padY, l.scaledH as real);
  }
}
