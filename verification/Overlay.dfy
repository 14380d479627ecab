/** `WaylandOverlay`: two pixel buffers, redraw suppression, and the loops that fill a buffer. */
module Overlay {
  import opened Bytes
  import opened Frames
  import opened Geometry
  import opened Raster

  // ---------- Whole buffers ----------

  /** Column and row of a buffer index. */
  function Col(k: nat, w: nat): nat { if w == 0 then 0 else k % w }
  function Row(k: nat, w: nat): nat { if w == 0 then 0 else k / w }

  function Picture(config: OverlayConfig, boxes: seq<BoundingBox>, source: Option<Frame>, w: nat, h: nat): (s: seq<nat>)
    requires AllDrawable(boxes)
    ensures |s| == w * h
  {
    seq(w * h, k requires 0 <= k < w * h => PixelAt(config, boxes, source, w, h, Col(k, w), Row(k, w)))
  }

  /** The pixels of a rectangle set to one colour. */
  function Filled(s: seq<nat>, w: nat, r: Rect, colour: nat): (f: seq<nat>)
    ensures |f| == |s|
  {
    seq(|s|, k requires 0 <= k < |s| => if InRect(r, Col(k, w), Row(k, w)) then colour else s[k])
  }

  /** The pixels of a box's rectangle given its colours. */
  function Boxed(s: seq<nat>, w: nat, config: OverlayConfig, source: Option<Frame>, r: Rect): (f: seq<nat>)
    ensures |f| == |s|
  {
    seq(|s|, k requires 0 <= k < |s| =>
      if InRect(r, Col(k, w), Row(k, w)) then ColourIn(config, source, r, Col(k, w), Row(k, w)) else s[k])
  }

  lemma NextBox(config: OverlayConfig, boxes: seq<BoundingBox>, n: nat, source: Option<Frame>, w: nat, h: nat)
    requires AllDrawable(boxes) && n < |boxes|
    ensures Boxed(Picture(config, boxes[..n], source, w, h), w, config, source, RectOf(boxes[n], w, h))
         == Picture(config, boxes[..n + 1], source, w, h)
  {
    hide RectOf, Drawable, InRect, ColourIn, Col, Row;
    assert boxes[..n + 1][..n] == boxes[..n] && boxes[..n + 1][n] == boxes[n];
  }

  /** Rows follow each other: pixel (x, y) is at y * w + x. */
  lemma PictureAt(config: OverlayConfig, boxes: seq<BoundingBox>, source: Option<Frame>, w: nat, h: nat, x: nat, y: nat)
    requires AllDrawable(boxes) && x < w && y < h
    ensures y * w + x < w * h
    ensures Picture(config, boxes, source, w, h)[y * w + x] == PixelAt(config, boxes, source, w, h, x, y)
  {
    hide PixelAt, Col, Row;
    IndexInside(x, y, w, h);
    IndexIs(y * w + x, x, y, w);
  }

  // ---------- Rows and blocks ----------

  lemma IndexIs(k: nat, x: nat, y: nat, w: nat)
    requires x < w
    ensures k == y * w + x <==> Col(k, w) == x && Row(k, w) == y
  {
    if k == y * w + x { DivMod(y, w, x); } else { assert k == k / w * w + k % w; }
  }

  lemma IndexInside(x: nat, y: nat, w: nat, h: nat)
    requires x < w && y < h
    ensures y * w + x < w * h
  {
    MulMonotone(y + 1, h, w);
    assert (y + 1) * w == y * w + w && h * w == w * h;
  }

  lemma NextPixel(s: seq<nat>, w: nat, h: nat, x1: nat, x: nat, y: nat, colour: nat)
    requires |s| == w * h && x1 <= x < w && y < h
    ensures y * w + x < |s|
    ensures Filled(s, w, Rect(x1, y, x, y + 1), colour)[y * w + x := colour]
         == Filled(s, w, Rect(x1, y, x + 1, y + 1), colour)
  {
    hide Col, Row;
    IndexInside(x, y, w, h);
    var a := Filled(s, w, Rect(x1, y, x, y + 1), colour)[y * w + x := colour];
    var b := Filled(s, w, Rect(x1, y, x + 1, y + 1), colour);
    forall k: nat | k < |s| ensures a[k] == b[k] { IndexIs(k, x, y, w); }
  }

  lemma NextLine(s: seq<nat>, w: nat, x1: nat, x2: nat, y1: nat, y: nat, colour: nat)
    requires y1 <= y
    ensures Filled(Filled(s, w, Rect(x1, y1, x2, y), colour), w, Rect(x1, y, x2, y + 1), colour)
         == Filled(s, w, Rect(x1, y1, x2, y + 1), colour)
  {
    hide Col, Row;
  }

  lemma NothingFilled(s: seq<nat>, w: nat, r: Rect, colour: nat)
    requires r.x1 >= r.x2 || r.y1 >= r.y2
    ensures Filled(s, w, r, colour) == s
  {
    hide Col, Row;
  }

  /** `row[x] = colour` for x1 <= x < x2. */
  method FillRow(buffer: array<nat>, w: nat, h: nat, x1: nat, x2: nat, y: nat, colour: nat)
    requires buffer.Length == w * h && x2 <= w && y < h
    modifies buffer
    ensures buffer[..] == Filled(old(buffer[..]), w, Rect(x1, y, x2, y + 1), colour)
  {
    hide Filled;
    ghost var s := buffer[..];
    var x := x1;
    NothingFilled(s, w, Rect(x1, y, x1, y + 1), colour);
    if x2 <= x1 { NothingFilled(s, w, Rect(x1, y, x2, y + 1), colour); }
    while x < x2
      invariant x1 <= x && (x <= x2 || x == x1)
      invariant buffer[..] == Filled(s, w, Rect(x1, y, x, y + 1), colour)
    {
      NextPixel(s, w, h, x1, x, y, colour);
      buffer[y * w + x] := colour;
      x := x + 1;
    }
  }

  method FillBlock(buffer: array<nat>, w: nat, h: nat, r: Rect, colour: nat)
    requires buffer.Length == w * h && r.x2 <= w && r.y2 <= h
    modifies buffer
    ensures buffer[..] == Filled(old(buffer[..]), w, r, colour)
  {
    hide Filled;
    ghost var s := buffer[..];
    var y := r.y1;
    NothingFilled(s, w, Rect(r.x1, r.y1, r.x2, r.y1), colour);
    if r.y2 <= r.y1 { NothingFilled(s, w, r, colour); }
    while y < r.y2
      invariant r.y1 <= y && (y <= r.y2 || y == r.y1)
      invariant buffer[..] == Filled(s, w, Rect(r.x1, r.y1, r.x2, y), colour)
    {
      NextLine(s, w, r.x1, r.x2, r.y1, y, colour);
      FillRow(buffer, w, h, r.x1, r.x2, y, colour);
      y := y + 1;
    }
  }

  // ---------- Mosaic blocks ----------

  /** The mosaic with full block rows above y, and in the block row at y the blocks left of x. */
  function MosaicTo(s: seq<nat>, w: nat, config: OverlayConfig, source: Option<Frame>, r: Rect, y: nat, x: nat)
    : (f: seq<nat>)
    ensures |f| == |s|
  {
    seq(|s|, k requires 0 <= k < |s| =>
      if InRect(r, Col(k, w), Row(k, w)) && (Row(k, w) < y || (Row(k, w) < y + BlockSize(config) && Col(k, w) < x))
      then ColourIn(config, source, r, Col(k, w), Row(k, w)) else s[k])
  }

  /** A multiple of the block size away from the rectangle's edge. */
  predicate Aligned(from: nat, at: nat, block: nat)
    requires block > 0
  {
    from <= at && (at - from) % block == 0
  }

  lemma AlignedNext(from: nat, at: nat, block: nat)
    requires block > 0 && Aligned(from, at, block)
    ensures Aligned(from, at + block, block)
  {
    var q := (at - from) / block;
    assert at + block - from == (q + 1) * block + 0;
    DivMod(q + 1, block, 0);
  }

  lemma BlockStartIs(from: nat, start: nat, at: nat, block: nat)
    requires block > 0 && Aligned(from, start, block) && start <= at < start + block
    ensures BlockStart(from, at, block) == start
  {
    var q := (start - from) / block;
    assert start - from == q * block;
    DivMod(q, block, at - start);
  }

  function Block(config: OverlayConfig, r: Rect, x: nat, y: nat): Rect
    requires x < r.x2 && y < r.y2
  {
    var size := BlockSize(config);
    Rect(x, y, if r.x2 - x < size then r.x2 else x + size, if r.y2 - y < size then r.y2 else y + size)
  }

  lemma NextBlock(s: seq<nat>, w: nat, config: OverlayConfig, source: Option<Frame>, r: Rect, y: nat, x: nat)
    requires Mosaic(config, source) && x < r.x2 && y < r.y2
    requires Aligned(r.x1, x, BlockSize(config)) && Aligned(r.y1, y, BlockSize(config))
    ensures Filled(MosaicTo(s, w, config, source, r, y, x), w, Block(config, r, x, y),
                   BlockColour(source.value, r, BlockSize(config), x, y))
         == MosaicTo(s, w, config, source, r, y, x + BlockSize(config))
  {
    var size := BlockSize(config);
    var colour := BlockColour(source.value, r, size, x, y);
    var before := MosaicTo(s, w, config, source, r, y, x);
    var a, b := Filled(before, w, Block(config, r, x, y), colour), MosaicTo(s, w, config, source, r, y, x + size);
    hide Col, Row, BlockColour, Mosaic, Aligned, BlockStart;
    forall k: nat | k < |s| ensures a[k] == b[k] {
      if InRect(Block(config, r, x, y), Col(k, w), Row(k, w)) {
        BlockStartIs(r.x1, x, Col(k, w), size);
        BlockStartIs(r.y1, y, Row(k, w), size);
        assert InRect(r, Col(k, w), Row(k, w)) by { AlignedFrom(r.x1, x, size); AlignedFrom(r.y1, y, size); }
      }
    }
  }

  lemma AlignedFrom(from: nat, at: nat, block: nat)
    requires block > 0 && Aligned(from, at, block)
    ensures from <= at
  {
  }

  lemma NothingMosaic(s: seq<nat>, w: nat, config: OverlayConfig, source: Option<Frame>, r: Rect)
    ensures MosaicTo(s, w, config, source, r, r.y1, r.x1) == s
  {
    hide Col, Row, ColourIn;
  }

  lemma NextBlockRow(s: seq<nat>, w: nat, config: OverlayConfig, source: Option<Frame>, r: Rect, y: nat, x: nat)
    requires r.x2 <= x
    ensures MosaicTo(s, w, config, source, r, y, x) == MosaicTo(s, w, config, source, r, y + BlockSize(config), r.x1)
  {
    hide Col, Row, ColourIn;
  }

  lemma WholeMosaic(s: seq<nat>, w: nat, config: OverlayConfig, source: Option<Frame>, r: Rect, y: nat)
    requires r.y2 <= y
    ensures MosaicTo(s, w, config, source, r, y, r.x1) == Boxed(s, w, config, source, r)
  {
    hide Col, Row, ColourIn;
  }

  /** The blocks of one block row, left to right. */
  method PaintBlockRow(buffer: array<nat>, w: nat, h: nat, config: OverlayConfig, source: Option<Frame>, r: Rect,
                       y: nat,
                       ghost s: seq<nat>)
    requires buffer.Length == w * h == |s| && r.x2 <= w && r.y2 <= h && Mosaic(config, source)
    requires y < r.y2 && Aligned(r.y1, y, BlockSize(config))
    requires buffer[..] == MosaicTo(s, w, config, source, r, y, r.x1)
    modifies buffer
    ensures buffer[..] == MosaicTo(s, w, config, source, r, y + BlockSize(config), r.x1)
  {
    hide MosaicTo, Filled, SampleAt, SceneColour, Tint, Aligned;
    var size := BlockSize(config);
    var x := r.x1;
    assert Aligned(r.x1, x, size) by { AlignedStart(x, size); }
    while x < r.x2
      invariant Aligned(r.x1, x, size)
      invariant buffer[..] == MosaicTo(s, w, config, source, r, y, x)
    {
      NextBlock(s, w, config, source, r, y, x);
      AlignedNext(r.x1, x, size);
      var sampleX := SampleAt(x, r.x2, size, source.value.width);
      var sampleY := SampleAt(y, r.y2, size, source.value.height);
      SampleInside(x, r.x2, size, source.value.width);
      SampleInside(y, r.y2, size, source.value.height);
      var colour := Tint(SceneColour(source.value, sampleX, sampleY));
      FillBlock(buffer, w, h, Block(config, r, x, y), colour);
      x := x + size;
    }
    NextBlockRow(s, w, config, source, r, y, x);
  }

  lemma AlignedStart(from: nat, block: nat)
    requires block > 0
    ensures Aligned(from, from, block)
  {
  }

  lemma SampleInside(start: nat, end: nat, block: nat, side: nat)
    requires start < end && side > 0
    ensures SampleAt(start, end, block, side) < side
  {
  }

  /** One box of the list: mosaic blocks over the scene, or the plain fallback colour. */
  method PaintBox(buffer: array<nat>, w: nat, h: nat, config: OverlayConfig, source: Option<Frame>, r: Rect)
    requires buffer.Length == w * h && r.x2 <= w && r.y2 <= h
    modifies buffer
    ensures buffer[..] == Boxed(old(buffer[..]), w, config, source, r)
  {
    hide MosaicTo, Filled, Boxed, Aligned;
    ghost var s := buffer[..];
    if Mosaic(config, source) {
      var y := r.y1;
      NothingMosaic(s, w, config, source, r);
      assert Aligned(r.y1, y, BlockSize(config)) by { AlignedStart(y, BlockSize(config)); }
      while y < r.y2
        invariant Aligned(r.y1, y, BlockSize(config))
        invariant buffer[..] == MosaicTo(s, w, config, source, r, y, r.x1)
      {
        PaintBlockRow(buffer, w, h, config, source, r, y, s);
        AlignedNext(r.y1, y, BlockSize(config));
        y := y + BlockSize(config);
      }
      WholeMosaic(s, w, config, source, r, y);
    } else {
      FillBlock(buffer, w, h, r, config.frostedColor);
      PlainBox(s, w, config, source, r);
    }
  }

  lemma PlainBox(s: seq<nat>, w: nat, config: OverlayConfig, source: Option<Frame>, r: Rect)
    requires !Mosaic(config, source)
    ensures Filled(s, w, r, config.frostedColor) == Boxed(s, w, config, source, r)
  {
    hide Col, Row;
  }

  // ---------- The overlay ----------

  /** `boxes_differ`. */
  method BoxesDiffer(a: seq<BoundingBox>, b: seq<BoundingBox>) returns (differ: bool)
    ensures differ <==> !Alike(a, b)
    ensures differ <==> |a| != |b| || exists i :: 0 <= i < |a| && BoxApart(a[i], b[i])
  {
    assert forall i :: 0 <= i < |a| && i < |b| ==> (BoxApart(a[i], b[i]) <==> !NearBox(a[i], b[i]));
    hide NearBox, BoxApart;
    if |a| != |b| { return true; }
    for i := 0 to |a|
      invariant forall j :: 0 <= j < i ==> NearBox(a[j], b[j])
    {
      if !NearBox(a[i], b[i]) { return true; }
    }
    return false;
  }

  class WaylandOverlay {
    const width: nat
    const height: nat
    const config: OverlayConfig
    const buffer0: array<nat>
    const buffer1: array<nat>
    var configured: bool
    var currentBuffer: nat
    var lastRenderedBoxes: seq<BoundingBox>
    /** The buffer attached to the surface, once one has been. */
    var attached: Option<nat>
    /** The frame of the last drawing. */
    ghost var lastSource: Option<Frame>

    function Buffer(i: nat): array<nat> { if i == 0 then buffer0 else buffer1 }

    ghost predicate Valid()
      reads this, buffer0, buffer1
    {
      && buffer0 != buffer1 && buffer0.Length == width * height && buffer1.Length == width * height
      && currentBuffer < 2 && AllDrawable(lastRenderedBoxes)
      && (attached == None ==> lastRenderedBoxes == [])
      && (attached.Some? ==> attached.value == currentBuffer)
      && (attached.Some? ==>
            Buffer(attached.value)[..] == Picture(config, lastRenderedBoxes, lastSource, width, height))
    }

    constructor (width: nat, height: nat, config: OverlayConfig)
      ensures Valid() && fresh(buffer0) && fresh(buffer1)
      ensures this.width == width && this.height == height && this.config == config
      ensures !configured && attached == None
    {
      this.width, this.height, this.config := width, height, config;
      buffer0 := new nat[width * height];
      buffer1 := new nat[width * height];
      configured, currentBuffer, lastRenderedBoxes, attached, lastSource := false, 0, [], None, None;
    }

    /** The compositor's configure and closed events. */
    method SetConfigured(on: bool)
      requires Valid()
      modifies `configured
      ensures Valid() && configured == on
    {
      configured := on;
    }

    /** Nothing is drawn without a surface, when there is nothing to clear, or when the boxes
        barely moved and no scene is given. */
    ghost predicate Suppressed(boxes: seq<BoundingBox>, source: Option<Frame>)
      reads this
    {
      !configured || (boxes == [] && lastRenderedBoxes == []) || (Alike(boxes, lastRenderedBoxes) && source == None)
    }

    method RenderBoxes(boxes: seq<BoundingBox>, source: Option<Frame>)
      requires Valid() && AllDrawable(boxes)
      modifies this, buffer0, buffer1
      ensures Valid() && configured == old(configured)
      // what is on the screen is always close to what was last asked for
      ensures configured ==> Alike(boxes, lastRenderedBoxes)
      // a suppressed call changes nothing
      ensures old(Suppressed(boxes, source)) ==>
                && lastRenderedBoxes == old(lastRenderedBoxes) && lastSource == old(lastSource)
                && attached == old(attached) && currentBuffer == old(currentBuffer)
                && buffer0[..] == old(buffer0[..]) && buffer1[..] == old(buffer1[..])
      // any other call draws all of it into the other buffer and attaches that
      ensures !old(Suppressed(boxes, source)) ==>
                && lastRenderedBoxes == boxes && lastSource == source && attached == Some(1 - old(currentBuffer))
      // a list that is not empty and comes with a scene is drawn as it is, and so is the empty one
      ensures configured && (boxes == [] || source.Some?) ==> lastRenderedBoxes == boxes
      // the buffer on the screen during the call is not written
      ensures old(attached).Some? ==> Buffer(old(attached).value)[..] == old(Buffer(attached.value)[..])
    {
      hide Picture, Alike;
      AlikeItself(boxes);
      AlikeEmpty(boxes, lastRenderedBoxes);
      if !configured { return; }
      if boxes == [] && lastRenderedBoxes == [] { return; }
      var differ := BoxesDiffer(boxes, lastRenderedBoxes);
      if !differ && source == None { return; }
      currentBuffer := 1 - currentBuffer;
      var buffer := Buffer(currentBuffer);
      Redraw(buffer, boxes, source);
      lastRenderedBoxes := boxes;
      lastSource := source;
      attached := Some(currentBuffer);
    }

    /** Clears a buffer and paints the boxes in order. */
    method Redraw(buffer: array<nat>, boxes: seq<BoundingBox>, source: Option<Frame>)
      requires buffer.Length == width * height && AllDrawable(boxes)
      modifies buffer
      ensures buffer[..] == Picture(config, boxes, source, width, height)
    {
      hide Picture, Boxed, RectOf, Drawable;
      for k := 0 to buffer.Length
        invariant forall j :: 0 <= j < k ==> buffer[j] == CLEAR
      {
        buffer[k] := CLEAR;
      }
      EmptyPicture(buffer[..], config, source, width, height);
      assert boxes[..0] == [];
      for i := 0 to |boxes|
        invariant buffer[..] == Picture(config, boxes[..i], source, width, height)
      {
        RectInside(boxes[i], width, height);
        NextBox(config, boxes, i, source, width, height);
        PaintBox(buffer, width, height, config, source, RectOf(boxes[i], width, height));
      }
      assert boxes[..|boxes|] == boxes;
    }
  }

  lemma AlikeItself(boxes: seq<BoundingBox>)
    ensures Alike(boxes, boxes)
  {
  }

  lemma AlikeEmpty(a: seq<BoundingBox>, b: seq<BoundingBox>)
    ensures a == [] || b == [] ==> (Alike(a, b) <==> a == b)
  {
  }

  lemma EmptyPicture(s: seq<nat>, config: OverlayConfig, source: Option<Frame>, w: nat, h: nat)
    requires |s| == w * h && forall k :: 0 <= k < |s| ==> s[k] == CLEAR
    ensures s == Picture(config, [], source, w, h)
  {
    hide Col, Row;
  }

  lemma RectInside(box: BoundingBox, w: nat, h: nat)
    requires Drawable(box)
    ensures RectOf(box, w, h).x2 <= w && RectOf(box, w, h).y2 <= h
  {
  }
}
