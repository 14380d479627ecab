/** Captured frames (`VideoFrame`): rows of pixels in one byte buffer. */
module Frames {
  import opened Bytes

  datatype PixelFormat = RGBA | BGRA | RGBx | BGRx | RGB | UNKNOWN

  /** `data` is the mapped buffer, or None for the null pointer. */
  datatype VideoFrame = VideoFrame(width: nat, height: nat, stride: nat, format: PixelFormat, data: Option<seq<byte>>)

  function BytesPerPixel(format: PixelFormat): nat { if format == RGB then 3 else 4 }

  /** The row stride with the fallback for tightly packed frames that the overlay and the
      preprocessor apply; the anchor code uses `stride` as it is. */
  function RowStride(frame: VideoFrame): nat {
    if frame.stride > 0 then frame.stride else frame.width * BytesPerPixel(frame.format)
  }

  predicate Holds(frame: VideoFrame, stride: nat) {
    frame.data.Some? && frame.width > 0 && frame.height > 0 ==>
      |frame.data.value| >= (frame.height - 1) * stride + frame.width * BytesPerPixel(frame.format)
  }

  /** A frame as the capture code hands it over: a mapped buffer holds every row. */
  type Frame = f: VideoFrame | Holds(f, f.stride) && Holds(f, RowStride(f))
    witness VideoFrame(0, 0, 0, BGRA, None)

  /** There is at least one pixel to read. */
  predicate HasPixels(frame: Frame) { frame.data.Some? && frame.width > 0 && frame.height > 0 }

  lemma PixelInBuffer(frame: VideoFrame, stride: nat, px: nat, py: nat)
    requires Holds(frame, stride) && frame.data.Some? && px < frame.width && py < frame.height
    ensures py * stride + px * BytesPerPixel(frame.format) + 2 < |frame.data.value|
  {
    var bpp := BytesPerPixel(frame.format);
    MulMonotone(py, frame.height - 1, stride);
    MulMonotone(px + 1, frame.width, bpp);
    assert (px + 1) * bpp == px * bpp + bpp;
  }

  lemma MulMonotone(a: nat, b: nat, c: nat)
    requires a <= b
    ensures a * c <= b * c
  {
  }

  lemma DivMod(a: nat, d: nat, r: nat)
    requires r < d
    ensures (a * d + r) / d == a && (a * d + r) % d == r
  {
    var q := (a * d + r) / d;
    assert (q + 1) * d == q * d + d && (a + 1) * d == a * d + d;
    if q < a { MulMonotone(q + 1, a, d); }
    if q > a { MulMonotone(a + 1, q, d); }
  }

  datatype Rgb = Rgb(r: byte, g: byte, b: byte)

  /** The three bytes at an offset, in the order the format stores them. */
  function Channels(data: seq<byte>, offset: nat, format: PixelFormat): Rgb
    requires offset + 2 < |data|
  {
    if format == RGB then Rgb(data[offset], data[offset + 1], data[offset + 2])
    else Rgb(data[offset + 2], data[offset + 1], data[offset])
  }

  /** `get_pixel_rgb`: any four-byte format is read as B, G, R. */
  function PixelRgb(frame: Frame, px: nat, py: nat): Rgb
    requires frame.data.Some? && px < frame.width && py < frame.height
  {
    PixelInBuffer(frame, frame.stride, px, py);
    Channels(frame.data.value, py * frame.stride + px * BytesPerPixel(frame.format), frame.format)
  }

  /** Pixel (x, y) is stored with this colour in rows of `stride` bytes: three bytes a pixel for
      RGB and four otherwise, with blue or red first. */
  predicate StoredIn(frame: VideoFrame, stride: nat, blueFirst: bool, x: nat, y: nat, c: Rgb) {
    var at := y * stride + x * (if frame.format.RGB? then 3 else 4);
    && frame.data.Some? && at + 2 < |frame.data.value|
    && frame.data.value[at + 1] == c.g
    && frame.data.value[at] == (if blueFirst then c.b else c.r)
    && frame.data.value[at + 2] == (if blueFirst then c.r else c.b)
  }

  /** What the anchor code takes for a pixel's colour is what is stored there in the frame's own
      rows, provided that blue comes first in every format but RGB. */
  lemma PixelRgbStored(frame: Frame, x: nat, y: nat, c: Rgb)
    requires frame.data.Some? && x < frame.width && y < frame.height
    ensures PixelRgb(frame, x, y) == c <==> StoredIn(frame, frame.stride, !frame.format.RGB?, x, y, c)
  {
    PixelInBuffer(frame, frame.stride, x, y);
  }
}
