/** The picture `WaylandOverlay::render_boxes` draws, pixel by pixel. */
module Raster {
  import opened Bytes
  import opened Frames
  import opened Geometry

  datatype OverlayConfig = OverlayConfig(frostedColor: nat, mosaic: bool, mosaicBlockSize: int)

  const CLEAR: nat := 0
  const OPAQUE: nat := 0xFF00_0000

  // ---------- Integer rectangles ----------

  /** Pixels with x1 <= x < x2 and y1 <= y < y2. */
  datatype Rect = Rect(x1: nat, y1: nat, x2: nat, y2: nat)

  predicate InRect(r: Rect, x: nat, y: nat) { r.x1 <= x < r.x2 && r.y1 <= y < r.y2 }

  /** No edge is negative, as converting it to an unsigned number requires. */
  predicate Drawable(box: BoundingBox) {
    0.0 <= box.Left() && 0.0 <= box.Top() && 0.0 <= box.Right() && 0.0 <= box.Bottom()
  }

  /** A normalised edge in pixels, truncated and at most the side. */
  function Edge(u: real, side: nat): nat
    requires 0.0 <= u
  {
    EdgeNotNegative(u, side);
    var n := (u * side as real).Floor;
    if side < n then side else n
  }

  lemma EdgeNotNegative(u: real, side: nat)
    requires 0.0 <= u
    ensures 0.0 <= u * side as real
  {
  }

  function RectOf(box: BoundingBox, w: nat, h: nat): Rect
    requires Drawable(box)
  {
    Rect(Edge(box.Left(), w), Edge(box.Top(), h), Edge(box.Right(), w), Edge(box.Bottom(), h))
  }

  // ---------- Colours ----------

  function BlockSize(config: OverlayConfig): nat
    ensures BlockSize(config) >= 8
  {
    if config.mosaicBlockSize < 8 then 8 else config.mosaicBlockSize
  }

  predicate Mosaic(config: OverlayConfig, source: Option<Frame>) {
    config.mosaic && source.Some? && HasPixels(source.value)
  }

  /** The blocks of a rectangle start every `block` pixels from its own edge. */
  function BlockStart(from: nat, at: nat, block: nat): (start: nat)
    requires from <= at && block > 0
    ensures from <= start <= at < start + block
  {
    from + (at - from) / block * block
  }

  /** The frame row or column sampled for the block that starts at `start`. */
  function SampleAt(start: nat, end: nat, block: nat, side: nat): (r: nat)
    requires start < end && side > 0
    ensures r < side
  {
    var extent := if end - start < block then end - start else block;
    if side - 1 < start + extent / 2 then side - 1 else start + extent / 2
  }

  /** Three quarters of a scene colour and one quarter of the dark tint, opaque. */
  function Tint(c: Rgb): nat {
    OPAQUE + (c.r * 3 + 15) / 4 * 0x1_0000 + (c.g * 3 + 23) / 4 * 0x100 + (c.b * 3 + 42) / 4
  }

  /** The shifted channels do not overlap: every byte of the pixel is the channel put there. */
  lemma TintChannels(c: Rgb)
    ensures var t := Tint(c);
            && OPAQUE <= t < 0x1_0000_0000 && t / 0x100_0000 == 0xFF
            && t / 0x1_0000 % 0x100 == (c.r * 3 + 15) / 4 <= 195
            && t / 0x100 % 0x100 == (c.g * 3 + 23) / 4 <= 197
            && t % 0x100 == (c.b * 3 + 42) / 4 <= 201
  {
    Packed((c.r * 3 + 15) / 4, (c.g * 3 + 23) / 4, (c.b * 3 + 42) / 4);
  }

  lemma Packed(r: nat, g: nat, b: nat)
    requires r < 0x100 && g < 0x100 && b < 0x100
    ensures var t := OPAQUE + r * 0x1_0000 + g * 0x100 + b;
            && OPAQUE <= t < 0x1_0000_0000 && t / 0x100_0000 == 0xFF
            && t / 0x1_0000 % 0x100 == r && t / 0x100 % 0x100 == g && t % 0x100 == b
  {
    var t := OPAQUE + r * 0x1_0000 + g * 0x100 + b;
    assert t / 0x100 == 0xFF_0000 + r * 0x100 + g;
    assert t / 0x1_0000 == 0xFF00 + r;
  }

  /** The source pixel at (x, y), blue first in every four-byte format. */
  function SceneColour(frame: Frame, x: nat, y: nat): Rgb
    requires HasPixels(frame) && x < frame.width && y < frame.height
  {
    PixelInBuffer(frame, RowStride(frame), x, y);
    Channels(frame.data.value, y * RowStride(frame) + x * BytesPerPixel(frame.format), frame.format)
  }

  function BlockColour(frame: Frame, r: Rect, block: nat, startX: nat, startY: nat): nat
    requires HasPixels(frame) && block > 0 && startX < r.x2 && startY < r.y2
  {
    Tint(SceneColour(frame, SampleAt(startX, r.x2, block, frame.width), SampleAt(startY, r.y2, block, frame.height)))
  }

  /** The colour a box gives to a pixel of its rectangle. */
  function ColourIn(config: OverlayConfig, source: Option<Frame>, r: Rect, x: nat, y: nat): nat
    requires InRect(r, x, y)
  {
    if Mosaic(config, source) then
      BlockColour(source.value, r, BlockSize(config),
                  BlockStart(r.x1, x, BlockSize(config)), BlockStart(r.y1, y, BlockSize(config)))
    else config.frostedColor
  }

  // ---------- The picture ----------

  ghost predicate AllDrawable(boxes: seq<BoundingBox>) { forall b :: b in boxes ==> Drawable(b) }

  /** The colour of the last box over the pixel; clear when there is none. */
  function PixelAt(config: OverlayConfig, boxes: seq<BoundingBox>, source: Option<Frame>, w: nat, h: nat, x: nat,
                   y: nat): nat
    requires AllDrawable(boxes)
  {
    if boxes == [] then CLEAR
    else
      var last := |boxes| - 1;
      var r := RectOf(boxes[last], w, h);
      if InRect(r, x, y) then ColourIn(config, source, r, x, y) else PixelAt(config, boxes[..last], source, w, h, x, y)
  }

  predicate Covered(box: BoundingBox, w: nat, h: nat, x: nat, y: nat)
    requires Drawable(box)
  {
    InRect(RectOf(box, w, h), x, y)
  }

  /** A pixel is clear exactly when no box is over it. */
  lemma {:induction false} ClearIffUncovered(config: OverlayConfig, boxes: seq<BoundingBox>, source: Option<Frame>,
                                             w: nat, h: nat, x: nat, y: nat)
    requires AllDrawable(boxes) && config.frostedColor != CLEAR
    ensures PixelAt(config, boxes, source, w, h, x, y) == CLEAR <==> forall b :: b in boxes ==> !Covered(b, w, h, x, y)
  {
    hide RectOf, Drawable, InRect, ColourIn;
    if boxes != [] {
      var last := |boxes| - 1;
      assert boxes == boxes[..last] + [boxes[last]];
      var r := RectOf(boxes[last], w, h);
      if InRect(r, x, y) {
        ColourNotClear(config, source, r, x, y);
        assert Covered(boxes[last], w, h, x, y);
      } else {
        ClearIffUncovered(config, boxes[..last], source, w, h, x, y);
      }
    }
  }

  /** A pixel under boxes has the colour of the topmost one, the last in the list. */
  lemma {:induction false} TopmostDecides(config: OverlayConfig, below: seq<BoundingBox>, box: BoundingBox,
                                          above: seq<BoundingBox>,
                                          source: Option<Frame>, w: nat, h: nat, x: nat, y: nat)
    requires AllDrawable(below + [box] + above)
    requires Covered(box, w, h, x, y) && forall b :: b in above ==> !Covered(b, w, h, x, y)
    ensures PixelAt(config, below + [box] + above, source, w, h, x, y)
         == ColourIn(config, source, RectOf(box, w, h), x, y)
  {
    hide RectOf, Drawable, InRect, ColourIn;
    var boxes := below + [box] + above;
    var last := |boxes| - 1;
    if above == [] {
      assert boxes[last] == box;
    } else {
      assert boxes[last] == above[|above| - 1];
      assert boxes[..last] == below + [box] + above[..|above| - 1];
      assert !Covered(boxes[last], w, h, x, y);
      TopmostDecides(config, below, box, above[..|above| - 1], source, w, h, x, y);
    }
  }

  /** The middle of the block that holds `at`, between `from` and `end`, or the last row or column
      of the frame when it ends before that. */
  function Middle(from: nat, at: nat, end: nat, block: nat, side: nat): nat
    requires from <= at < end && block > 0 && side > 0
  {
    var start := at - (at - from) % block;
    var stop := if start + block < end then start + block else end;
    if (start + stop) / 2 < side then (start + stop) / 2 else side - 1
  }

  lemma MiddleSampled(from: nat, at: nat, end: nat, block: nat, side: nat)
    requires from <= at < end && block > 0 && side > 0
    ensures SampleAt(BlockStart(from, at, block), end, block, side) == Middle(from, at, end, block, side) < side
  {
    var q := (at - from) / block;
    assert at - from == q * block + (at - from) % block;
    var start := BlockStart(from, at, block);
    assert start == at - (at - from) % block;
  }

  /** The colour stored in the frame, with blue first in every format but RGB. */
  lemma SceneStored(frame: Frame, x: nat, y: nat, c: Rgb)
    requires HasPixels(frame) && x < frame.width && y < frame.height
    ensures SceneColour(frame, x, y) == c
       <==> StoredIn(frame, if frame.stride > 0 then frame.stride
                            else frame.width * (if frame.format.RGB? then 3 else 4), !frame.format.RGB?, x, y, c)
  {
    PixelInBuffer(frame, RowStride(frame), x, y);
  }

  /** Under a topmost box with a scene, a pixel shows three quarters of the colour stored at the
      middle of its block and one quarter of the tint (15, 23, 42), opaque; blocks of at least
      eight pixels start at the box's own corner. */
  lemma MosaicPixel(config: OverlayConfig, below: seq<BoundingBox>, box: BoundingBox, above: seq<BoundingBox>,
                    frame: Frame, w: nat, h: nat, x: nat, y: nat, c: Rgb)
    requires AllDrawable(below + [box] + above)
    requires Covered(box, w, h, x, y) && forall b :: b in above ==> !Covered(b, w, h, x, y)
    requires config.mosaic && frame.data.Some? && frame.width > 0 && frame.height > 0
    requires var r := RectOf(box, w, h);
             var block := if config.mosaicBlockSize < 8 then 8 else config.mosaicBlockSize;
             StoredIn(frame, if frame.stride > 0 then frame.stride
                             else frame.width * (if frame.format.RGB? then 3 else 4), !frame.format.RGB?,
                      Middle(r.x1, x, r.x2, block, frame.width), Middle(r.y1, y, r.y2, block, frame.height), c)
    ensures PixelAt(config, below + [box] + above, Some(frame), w, h, x, y)
         == 0xFF00_0000 + (3 * c.r + 15) / 4 * 0x1_0000 + (3 * c.g + 23) / 4 * 0x100 + (3 * c.b + 42) / 4
  {
    hide PixelAt, RectOf, SceneColour, SampleAt, BlockStart, Middle, StoredIn;
    var r, block := RectOf(box, w, h), BlockSize(config);
    TopmostDecides(config, below, box, above, Some(frame), w, h, x, y);
    MiddleSampled(r.x1, x, r.x2, block, frame.width);
    MiddleSampled(r.y1, y, r.y2, block, frame.height);
    SceneStored(frame, Middle(r.x1, x, r.x2, block, frame.width), Middle(r.y1, y, r.y2, block, frame.height), c);
  }

  /** Without mosaic or without a scene it shows the fallback colour. */
  lemma PlainPixel(config: OverlayConfig, below: seq<BoundingBox>, box: BoundingBox, above: seq<BoundingBox>,
                   source: Option<Frame>, w: nat, h: nat, x: nat, y: nat)
    requires AllDrawable(below + [box] + above)
    requires Covered(box, w, h, x, y) && forall b :: b in above ==> !Covered(b, w, h, x, y)
    requires config.mosaic && source.Some? ==>
               source.value.data.None? || source.value.width == 0 || source.value.height == 0
    ensures PixelAt(config, below + [box] + above, source, w, h, x, y) == config.frostedColor
  {
    hide PixelAt, RectOf;
    TopmostDecides(config, below, box, above, source, w, h, x, y);
  }

  lemma ColourNotClear(config: OverlayConfig, source: Option<Frame>, r: Rect, x: nat, y: nat)
    requires InRect(r, x, y) && config.frostedColor != CLEAR
    ensures ColourIn(config, source, r, x, y) != CLEAR
    ensures Mosaic(config, source) ==> OPAQUE <= ColourIn(config, source, r, x, y) < 0x1_0000_0000
  {
    hide SceneColour, SampleAt, Tint;
    if Mosaic(config, source) {
      var block := BlockSize(config);
      TintChannels(SceneColour(source.value, SampleAt(BlockStart(r.x1, x, block), r.x2, block, source.value.width),
                               SampleAt(BlockStart(r.y1, y, block), r.y2, block, source.value.height)));
    }
  }

  // ---------- Pixels and boxes ----------

  /** The cell of pixel (x, y) in the unit square lies inside the box. */
  predicate CellInside(box: BoundingBox, w: nat, h: nat, x: nat, y: nat) {
    && box.Left() * w as real <= x as real && x as real + 1.0 <= box.Right() * w as real
    && box.Top() * h as real <= y as real && y as real + 1.0 <= box.Bottom() * h as real
  }

  /** The cell of pixel (x, y) meets the inside of the box. */
  predicate CellMeets(box: BoundingBox, w: nat, h: nat, x: nat, y: nat) {
    && box.Left() * w as real < x as real + 1.0 && x as real < box.Right() * w as real
    && box.Top() * h as real < y as real + 1.0 && y as real < box.Bottom() * h as real
  }

  lemma EdgeAtMost(u: real, side: nat, x: nat)
    requires 0.0 <= u && x < side
    ensures Edge(u, side) <= x <==> u * side as real < x as real + 1.0
  {
  }

  /** Exactly the pixels are painted whose cell ends behind the near edges and not behind the far
      ones; so every pixel inside a box is painted, and every painted pixel touches its box. */
  lemma CoveredCells(box: BoundingBox, w: nat, h: nat, x: nat, y: nat)
    requires Drawable(box) && x < w && y < h
    ensures Covered(box, w, h, x, y) <==>
            && box.Left() * w as real < x as real + 1.0 <= box.Right() * w as real
            && box.Top() * h as real < y as real + 1.0 <= box.Bottom() * h as real
    ensures CellInside(box, w, h, x, y) ==> Covered(box, w, h, x, y)
    ensures Covered(box, w, h, x, y) ==> CellMeets(box, w, h, x, y)
  {
    hide Edge;
    EdgeAtMost(box.Left(), w, x);
    EdgeAtMost(box.Right(), w, x);
    EdgeAtMost(box.Top(), h, y);
    EdgeAtMost(box.Bottom(), h, y);
  }

  // ---------- Boxes that count as unchanged ----------

  const TOLERANCE: real := 0.003

  predicate Near(a: real, b: real) { -TOLERANCE <= a - b <= TOLERANCE }

  predicate NearBox(a: BoundingBox, b: BoundingBox) {
    Near(a.x, b.x) && Near(a.y, b.y) && Near(a.width, b.width) && Near(a.height, b.height)
  }

  /** More than 0.003 apart. */
  predicate Apart(a: real, b: real) { a - b > 0.003 || b - a > 0.003 }

  /** Position or size differs noticeably. */
  predicate BoxApart(a: BoundingBox, b: BoundingBox) {
    Apart(a.x, b.x) || Apart(a.y, b.y) || Apart(a.width, b.width) || Apart(a.height, b.height)
  }

  ghost predicate Alike(a: seq<BoundingBox>, b: seq<BoundingBox>) {
    |a| == |b| && forall i :: 0 <= i < |a| ==> NearBox(a[i], b[i])
  }

  lemma EdgesNear(u: real, v: real, side: nat, gap: real)
    requires 0.0 <= u && 0.0 <= v && u - v <= gap && gap >= 0.0
    ensures Edge(u, side) as real - Edge(v, side) as real < gap * side as real + 1.0
  {
    var s := side as real;
    var a, b, g := u * s, v * s, gap * s;
    assert a - b <= g by { assert (u - v) * s <= g; }
    assert g >= 0.0;
  }

  /** A box drawn in place of a near one is off by at most 0.003 of the side, rounded up, at
      its near edges and twice that at its far ones. */
  lemma NearRects(a: BoundingBox, b: BoundingBox, w: nat, h: nat)
    requires Drawable(a) && Drawable(b) && NearBox(a, b)
    ensures var (r, s) := (RectOf(a, w, h), RectOf(b, w, h));
            && r.x1 as real - s.x1 as real < 0.003 * w as real + 1.0
            && s.x1 as real - r.x1 as real < 0.003 * w as real + 1.0
            && r.y1 as real - s.y1 as real < 0.003 * h as real + 1.0
            && s.y1 as real - r.y1 as real < 0.003 * h as real + 1.0
            && r.x2 as real - s.x2 as real < 0.006 * w as real + 1.0
            && s.x2 as real - r.x2 as real < 0.006 * w as real + 1.0
            && r.y2 as real - s.y2 as real < 0.006 * h as real + 1.0
            && s.y2 as real - r.y2 as real < 0.006 * h as real + 1.0
  {
    hide Edge;
    EdgesNear(a.Left(), b.Left(), w, 0.003);
    EdgesNear(b.Left(), a.Left(), w, 0.003);
    EdgesNear(a.Top(), b.Top(), h, 0.003);
    EdgesNear(b.Top(), a.Top(), h, 0.003);
    EdgesNear(a.Right(), b.Right(), w, 0.006);
    EdgesNear(b.Right(), a.Right(), w, 0.006);
    EdgesNear(a.Bottom(), b.Bottom(), h, 0.006);
    EdgesNear(b.Bottom(), a.Bottom(), h, 0.006);
  }
}
