/** The tensor that `ImagePreprocessor::preprocess` fills in place: three planes of rows. */
module Preprocessor {
  import opened Frames
  import opened Detection
  import opened Letterboxing

  // ---------- Flat indices ----------

  function At(p: Place, w: nat, h: nat): nat { p.plane * (w * h) + p.row * w + p.col }

  predicate Inside(p: Place, w: nat, h: nat) { p.plane < 3 && p.row < h && p.col < w }

  function PlaceOf(k: nat, w: nat, h: nat): Place
    requires w > 0 && h > 0
  {
    Positive(w, h);
    Place(k / (w * h), k % (w * h) / w, k % (w * h) % w)
  }

  lemma Positive(w: nat, h: nat)
    requires w > 0 && h > 0
    ensures w * h > 0
  {
  }

  /** Every index is one place, and every place of the tensor one index. */
  lemma PlaceOfAt(p: Place, w: nat, h: nat)
    requires Inside(p, w, h)
    ensures At(p, w, h) < 3 * (w * h) && PlaceOf(At(p, w, h), w, h) == p
  {
    MulMonotone(p.row + 1, h, w);
    assert (p.row + 1) * w == p.row * w + w;
    assert h * w == w * h;
    MulMonotone(p.plane + 1, 3, w * h);
    assert (p.plane + 1) * (w * h) == p.plane * (w * h) + w * h;
    DivMod(p.plane, w * h, p.row * w + p.col);
    DivMod(p.row, w, p.col);
  }

  lemma QuotientBelow(k: nat, d: nat, m: nat)
    requires d > 0 && k < m * d
    ensures k / d < m && k == k / d * d + k % d
  {
    if m <= k / d { MulMonotone(m, k / d, d); }
  }

  lemma AtPlaceOf(k: nat, w: nat, h: nat)
    requires w > 0 && h > 0 && k < 3 * (w * h)
    ensures Inside(PlaceOf(k, w, h), w, h) && At(PlaceOf(k, w, h), w, h) == k
  {
    Positive(w, h);
    QuotientBelow(k, w * h, 3);
    assert h * w == w * h;
    QuotientBelow(k % (w * h), w, h);
  }

  // ---------- Progress of the two loops ----------

  /** The window as the loops use it. */
  predicate Window(frame: Frame, l: Letterbox, w: nat, h: nat) {
    && HasPixels(frame) && l.scale > 0.0
    && 0 <= l.padX && 0 <= l.scaledW && l.padX + l.scaledW <= w && 0 <= l.padY && 0 <= l.scaledH
    && l.padY + l.scaledH <= h
  }

  /** Cell p after `rows` full rows of the window and `cols` cells of the next. */
  function Progress(frame: Frame, l: Letterbox, w: nat, h: nat, p: Place, rows: nat, cols: nat): real
    requires Window(frame, l, w, h)
  {
    if InWindow(l, p) && (p.row < l.padY + rows || (p.row == l.padY + rows && p.col < l.padX + cols))
    then Sampled(frame, l, p) else GRAY
  }

  ghost predicate Painted(cells: seq<real>, frame: Frame, l: Letterbox, w: nat, h: nat, rows: nat, cols: nat)
    requires Window(frame, l, w, h) && w > 0 && h > 0
  {
    |cells| == 3 * (w * h) &&
    forall k: nat :: k < |cells| ==> cells[k] == Progress(frame, l, w, h, PlaceOf(k, w, h), rows, cols)
  }

  lemma NothingPainted(cells: seq<real>, frame: Frame, l: Letterbox, w: nat, h: nat)
    requires Window(frame, l, w, h) && w > 0 && h > 0
    requires |cells| == 3 * (w * h) && forall k: nat :: k < |cells| ==> cells[k] == GRAY
    ensures Painted(cells, frame, l, w, h, 0, 0)
  {
    hide Sampled, PlaceOf;
  }

  lemma NextRow(cells: seq<real>, frame: Frame, l: Letterbox, w: nat, h: nat, rows: nat)
    requires Window(frame, l, w, h) && w > 0 && h > 0
    requires Painted(cells, frame, l, w, h, rows, l.scaledW)
    ensures Painted(cells, frame, l, w, h, rows + 1, 0)
  {
    hide Sampled, PlaceOf;
  }

  /** One pass of the inner loop writes the same cell of the three planes. */
  lemma NextCell(before: seq<real>, after: seq<real>, frame: Frame, l: Letterbox, w: nat, h: nat, rows: nat, cols: nat,
                 at: nat, n: nat, r: real, g: real, b: real)
    requires Window(frame, l, w, h) && w > 0 && h > 0 && rows < l.scaledH && cols < l.scaledW
    requires Painted(before, frame, l, w, h, rows, cols) && |after| == |before| && n == w * h
    requires at == At(Place(0, l.padY + rows, l.padX + cols), w, h) && at + 2 * n < |before|
    requires after == before[at := r][at + n := g][at + 2 * n := b]
    requires r == Sampled(frame, l, Place(0, l.padY + rows, l.padX + cols))
    requires g == Sampled(frame, l, Place(1, l.padY + rows, l.padX + cols))
    requires b == Sampled(frame, l, Place(2, l.padY + rows, l.padX + cols))
    ensures Painted(after, frame, l, w, h, rows, cols + 1)
  {
    hide At, PlaceOf, Sampled, Progress;
    Positive(w, h);
    forall k: nat | k < |after| ensures after[k] == Progress(frame, l, w, h, PlaceOf(k, w, h), rows, cols + 1) {
      var p := PlaceOf(k, w, h);
      AtPlaceOf(k, w, h);
      if p.row == l.padY + rows && p.col == l.padX + cols {
        SamePlane(p, p.row, p.col, w, h);
        ProgressHere(frame, l, w, h, p, rows, cols);
      } else {
        OtherPlace(k, p, l.padY + rows, l.padX + cols, w, h);
        ProgressElsewhere(frame, l, w, h, p, rows, cols);
      }
    }
  }

  lemma ProgressHere(frame: Frame, l: Letterbox, w: nat, h: nat, p: Place, rows: nat, cols: nat)
    requires Window(frame, l, w, h) && rows < l.scaledH && cols < l.scaledW
    requires p.row == l.padY + rows && p.col == l.padX + cols
    ensures InWindow(l, p) && Progress(frame, l, w, h, p, rows, cols + 1) == Sampled(frame, l, p)
  {
    hide Sampled;
  }

  lemma ProgressElsewhere(frame: Frame, l: Letterbox, w: nat, h: nat, p: Place, rows: nat, cols: nat)
    requires Window(frame, l, w, h) && rows < l.scaledH && cols < l.scaledW
    requires p.row != l.padY + rows || p.col != l.padX + cols
    ensures Progress(frame, l, w, h, p, rows, cols + 1) == Progress(frame, l, w, h, p, rows, cols)
  {
    hide Sampled;
  }

  lemma SamePlane(p: Place, row: nat, col: nat, w: nat, h: nat)
    requires Inside(p, w, h) && p.row == row && p.col == col
    ensures p.plane == 0 ==> At(p, w, h) == At(Place(0, row, col), w, h)
    ensures p.plane == 1 ==> At(p, w, h) == At(Place(0, row, col), w, h) + w * h
    ensures p.plane == 2 ==> At(p, w, h) == At(Place(0, row, col), w, h) + 2 * (w * h)
  {
  }

  lemma OtherPlace(k: nat, p: Place, row: nat, col: nat, w: nat, h: nat)
    requires row < h && col < w && Inside(p, w, h) && k == At(p, w, h)
    requires p.row != row || p.col != col
    ensures k != At(Place(0, row, col), w, h)
    ensures k != At(Place(0, row, col), w, h) + w * h
    ensures k != At(Place(0, row, col), w, h) + 2 * (w * h)
  {
    hide PlaceOf;
    PlaceOfAt(p, w, h);
    SamePlane(Place(1, row, col), row, col, w, h);
    SamePlane(Place(2, row, col), row, col, w, h);
    hide At;
    PlaceOfAt(Place(0, row, col), w, h);
    PlaceOfAt(Place(1, row, col), w, h);
    PlaceOfAt(Place(2, row, col), w, h);
  }

  lemma FirstPlane(row: nat, col: nat, w: nat, h: nat)
    requires row < h && col < w
    ensures row * w + col == At(Place(0, row, col), w, h) && row * w + col + 2 * (w * h) < 3 * (w * h)
  {
    PlaceOfAt(Place(0, row, col), w, h);
    PlaceOfAt(Place(2, row, col), w, h);
  }

  // ---------- The preprocessor ----------

  class ImagePreprocessor {
    const targetWidth: nat
    const targetHeight: nat

    constructor (width: nat, height: nat)
      ensures targetWidth == width && targetHeight == height
    {
      targetWidth, targetHeight := width, height;
    }

    /** The three colour levels of the pixel at a byte offset, by format. */
    method ReadPixel(frame: Frame, px: nat, py: nat) returns (r: real, g: real, b: real)
      requires HasPixels(frame) && px < frame.width && py < frame.height
      ensures r == Level(Colour(frame, px, py), 0) && g == Level(Colour(frame, px, py), 1)
      ensures b == Level(Colour(frame, px, py), 2)
    {
      PixelInBuffer(frame, RowStride(frame), px, py);
      var offset := py * RowStride(frame) + px * BytesPerPixel(frame.format);
      var c0 := frame.data.value[offset] as real * (1.0 / 255.0);
      var c1 := frame.data.value[offset + 1] as real * (1.0 / 255.0);
      var c2 := frame.data.value[offset + 2] as real * (1.0 / 255.0);
      if frame.format == BGRA || frame.format == BGRx {
        r, g, b := c2, c1, c0;
      } else {
        r, g, b := c0, c1, c2;
      }
    }

    /** Writes one cell of the window in all three planes. */
    method PutCell(frame: Frame, l: Letterbox, planes: array<real>, y: nat, x: nat, r: real, g: real, b: real)
      requires targetWidth > 0 && targetHeight > 0 && Window(frame, l, targetWidth, targetHeight) && y < l.scaledH
      requires x < l.scaledW
      requires Painted(planes[..], frame, l, targetWidth, targetHeight, y, x)
      requires r == Sampled(frame, l, Place(0, l.padY + y, l.padX + x))
      requires g == Sampled(frame, l, Place(1, l.padY + y, l.padX + x))
      requires b == Sampled(frame, l, Place(2, l.padY + y, l.padX + x))
      modifies planes
      ensures Painted(planes[..], frame, l, targetWidth, targetHeight, y, x + 1)
    {
      hide Sampled, At, Progress;
      var n := targetWidth * targetHeight;
      var at := (l.padY + y) * targetWidth + (l.padX + x);
      FirstPlane(l.padY + y, l.padX + x, targetWidth, targetHeight);
      ghost var before := planes[..];
      planes[at] := r;
      planes[at + n] := g;
      planes[at + 2 * n] := b;
      assert planes[..] == before[at := r][at + n := g][at + 2 * n := b];
      NextCell(before, planes[..], frame, l, targetWidth, targetHeight, y, x, at, n, r, g, b);
    }

    method PaintRow(frame: Frame, l: Letterbox, planes: array<real>, y: nat)
      requires targetWidth > 0 && targetHeight > 0 && Window(frame, l, targetWidth, targetHeight) && y < l.scaledH
      requires Painted(planes[..], frame, l, targetWidth, targetHeight, y, 0)
      modifies planes
      ensures Painted(planes[..], frame, l, targetWidth, targetHeight, y + 1, 0)
    {
      hide Painted, Level, Colour, SourceIndex;
      var srcY := SourceIndex(y, l.scale, frame.height);
      SourceIndexInside(y, l.scale, frame.height);
      for x := 0 to l.scaledW
        invariant Painted(planes[..], frame, l, targetWidth, targetHeight, y, x)
      {
        var srcX := SourceIndex(x, l.scale, frame.width);
        SourceIndexInside(x, l.scale, frame.width);
        var r, g, b := ReadPixel(frame, srcX, srcY);
        PutCell(frame, l, planes, y, x, r, g, b);
      }
      NextRow(planes[..], frame, l, targetWidth, targetHeight, y);
    }

    /** Every cell of the tensor ends up as `CellOf` says. */
    method Preprocess(frame: Frame) returns (info: Letterbox, planes: array<real>)
      requires targetWidth > 0 && targetHeight > 0
      ensures info == InfoOf(frame, targetWidth, targetHeight)
      ensures fresh(planes) && planes.Length == 3 * (targetWidth * targetHeight)
      ensures forall k: nat :: k < planes.Length ==>
                planes[k] == CellOf(frame, targetWidth, targetHeight, PlaceOf(k, targetWidth, targetHeight))
    {
      hide PlaceOf, Fit, Sampled;
      planes := new real[3 * (targetWidth * targetHeight)](_ => GRAY);
      if !HasPixels(frame) {
        info := Letterbox(1.0, 0, 0, 640, 640, frame.width, frame.height);
      } else {
        info := Fit(frame.width, frame.height, targetWidth, targetHeight);
        FitWindow(frame, targetWidth, targetHeight);
        NothingPainted(planes[..], frame, info, targetWidth, targetHeight);
        for y := 0 to info.scaledH
          invariant Painted(planes[..], frame, info, targetWidth, targetHeight, y, 0)
        {
          PaintRow(frame, info, planes, y);
        }
        WholeWindow(planes[..], frame, targetWidth, targetHeight);
      }
    }
  }

  lemma FitWindow(frame: Frame, w: nat, h: nat)
    requires HasPixels(frame) && w > 0 && h > 0
    ensures Window(frame, Fit(frame.width, frame.height, w, h), w, h)
  {
    WindowFits(frame.width, frame.height, w, h);
    FitScale(frame.width, frame.height, w, h);
    hide Fit;
  }

  lemma WholeWindow(cells: seq<real>, frame: Frame, w: nat, h: nat)
    requires HasPixels(frame) && w > 0 && h > 0 && Window(frame, Fit(frame.width, frame.height, w, h), w, h)
    requires var l := Fit(frame.width, frame.height, w, h); Painted(cells, frame, l, w, h, l.scaledH, 0)
    ensures forall k: nat :: k < |cells| ==> cells[k] == CellOf(frame, w, h, PlaceOf(k, w, h))
  {
    hide PlaceOf, Fit, Sampled;
  }
}
