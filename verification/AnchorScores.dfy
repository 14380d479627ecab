/** What a score says about the pixels: it is the mean colour distance over the anchors that fall
    into the frame. */
module AnchorScores {
  import opened Geometry
  import opened Frames
  import opened Anchors

  /** How far two colours are apart, summed over the three channels. */
  function Distance(p: Rgb, c: Rgb): nat {
    (if p.r < c.r then c.r - p.r else p.r - c.r)
    + (if p.g < c.g then c.g - p.g else p.g - c.g)
    + (if p.b < c.b then c.b - p.b else p.b - c.b)
  }

  /** The anchor, moved down by `dy`, is a pixel of the frame. */
  predicate Falls(frame: Frame, a: AnchorPixel, dy: int) {
    0 <= a.x && a.x < frame.width && 0 <= a.y + dy && a.y + dy < frame.height
  }

  /** How far the frame is there from the anchor's colour. */
  function Off(frame: Frame, a: AnchorPixel, dy: int): nat
    requires frame.data.Some? && Falls(frame, a, dy)
  {
    Distance(PixelRgb(frame, a.x, a.y + dy), a.colour)
  }

  ghost function Fallen(frame: Frame, anchors: seq<AnchorPixel>, dy: int): set<nat> {
    set k: nat | k < |anchors| && Falls(frame, anchors[k], dy)
  }

  /** The count is the number of anchors that fall into the frame. */
  lemma {:induction false} CountIs(frame: Frame, anchors: seq<AnchorPixel>, dy: int)
    ensures ValidCount(frame, anchors, dy) == |Fallen(frame, anchors, dy)|
  {
    var all := Fallen(frame, anchors, dy);
    if anchors == [] {
      assert all == {};
    } else {
      var n := |anchors| - 1;
      var fewer := Fallen(frame, anchors[..n], dy);
      CountIs(frame, anchors[..n], dy);
      assert all == fewer + if Falls(frame, anchors[n], dy) then {n} else {};
    }
  }

  lemma ErrorIsDistance(p: Rgb, c: Rgb)
    ensures ColourError(p, c) == Distance(p, c) as real / 3.0
    ensures ColourError(p, c) >= 0.0 && (ColourError(p, c) == 0.0 <==> p == c)
  {
  }

  /** Every anchor in the frame is off by an amount between the bounds. */
  ghost predicate ErrorsWithin(frame: Frame, anchors: seq<AnchorPixel>, dy: int, lo: real, hi: real)
    requires frame.data.Some?
  {
    forall a :: a in anchors && Falls(frame, a, dy) ==> lo <= Off(frame, a, dy) as real / 3.0 <= hi
  }

  predicate SumWithin(lo: real, hi: real, n: nat, sum: real) { lo * n as real <= sum <= hi * n as real }

  lemma {:induction false} SumBounds(frame: Frame, anchors: seq<AnchorPixel>, dy: int, lo: real, hi: real)
    requires frame.data.Some? && ErrorsWithin(frame, anchors, dy, lo, hi)
    ensures SumWithin(lo, hi, ValidCount(frame, anchors, dy), SumError(frame, anchors, dy))
  {
    hide ColourError, Distance, PixelRgb, SumWithin;
    NothingWithin(lo, hi);
    if anchors != [] {
      var m := |anchors| - 1;
      var a := anchors[m];
      assert a in anchors;
      SumBounds(frame, anchors[..m], dy, lo, hi);
      if Falls(frame, a, dy) {
        ErrorIsDistance(PixelRgb(frame, a.x, a.y + dy), a.colour);
        NextBound(lo, hi, ValidCount(frame, anchors[..m], dy), SumError(frame, anchors[..m], dy),
                  ColourError(PixelRgb(frame, a.x, a.y + dy), a.colour));
      }
    }
  }

  lemma NothingWithin(lo: real, hi: real)
    ensures SumWithin(lo, hi, 0, 0.0)
  {
  }

  lemma NextBound(lo: real, hi: real, n: nat, sum: real, error: real)
    requires SumWithin(lo, hi, n, sum) && lo <= error <= hi
    ensures SumWithin(lo, hi, n + 1, sum + error)
  {
  }

  /** The mean lies between the bounds; with equal bounds it is that amount. */
  lemma ScoreBounds(frame: Frame, anchors: seq<AnchorPixel>, dy: int, lo: real, hi: real)
    requires frame.data.Some? && ErrorsWithin(frame, anchors, dy, lo, hi) && |Fallen(frame, anchors, dy)| >= 4
    ensures lo <= Score(frame, anchors, dy) <= hi
  {
    hide ErrorsWithin, Fallen, SumError, ValidCount;
    CountIs(frame, anchors, dy);
    CountBound(frame, anchors, dy);
    SumBounds(frame, anchors, dy, lo, hi);
    var n := ValidCount(frame, anchors, dy) as real;
    QuotientAtMost(SumError(frame, anchors, dy), n, lo);
    QuotientAtMost(SumError(frame, anchors, dy), n, hi);
  }

  /** Too few anchors in the frame, or no picture, count as a mismatch. */
  lemma ScoreWithout(frame: Frame, anchors: seq<AnchorPixel>, dy: int)
    requires frame.data.None? || |Fallen(frame, anchors, dy)| < 4
    ensures Score(frame, anchors, dy) == 999.0
  {
    hide Fallen;
    CountIs(frame, anchors, dy);
  }

  lemma {:induction false} SumZero(frame: Frame, anchors: seq<AnchorPixel>, dy: int)
    requires frame.data.Some?
    ensures SumError(frame, anchors, dy) >= 0.0
    ensures SumError(frame, anchors, dy) == 0.0
       <==> forall a :: a in anchors && Falls(frame, a, dy) ==> PixelRgb(frame, a.x, a.y + dy) == a.colour
  {
    hide ColourError, PixelRgb;
    if anchors != [] {
      var m := |anchors| - 1;
      var a := anchors[m];
      assert anchors == anchors[..m] + [a];
      SumZero(frame, anchors[..m], dy);
      if Falls(frame, a, dy) { ErrorIsDistance(PixelRgb(frame, a.x, a.y + dy), a.colour); }
    }
  }

  /** With four anchors in the frame the score is 0 exactly when each of these shows its colour. */
  lemma ScoreZeroIff(frame: Frame, anchors: seq<AnchorPixel>, dy: int)
    requires frame.data.Some? && |Fallen(frame, anchors, dy)| >= 4
    ensures Score(frame, anchors, dy) == 0.0
       <==> forall a :: a in anchors && Falls(frame, a, dy) ==> PixelRgb(frame, a.x, a.y + dy) == a.colour
  {
    hide Fallen, SumError, ValidCount, Falls, PixelRgb;
    CountIs(frame, anchors, dy);
    CountBound(frame, anchors, dy);
    SumZero(frame, anchors, dy);
    ZeroQuotient(SumError(frame, anchors, dy), ValidCount(frame, anchors, dy) as real);
  }

  lemma ZeroQuotient(n: real, d: real)
    requires d > 0.0
    ensures n / d == 0.0 <==> n == 0.0
  {
    QuotientAtMost(n, d, 0.0);
  }

  lemma {:induction false} SumsConcat(frame: Frame, a: seq<AnchorPixel>, b: seq<AnchorPixel>, dy: int)
    requires frame.data.Some?
    ensures SumError(frame, a + b, dy) == SumError(frame, a, dy) + SumError(frame, b, dy)
    ensures ValidCount(frame, a + b, dy) == ValidCount(frame, a, dy) + ValidCount(frame, b, dy)
    decreases |b|
  {
    hide ColourError, PixelRgb, InFrame;
    if b == [] {
      assert a + b == a;
    } else {
      var m := |b| - 1;
      assert (a + b)[..|a + b| - 1] == a + b[..m] && (a + b)[|a + b| - 1] == b[m];
      SumsConcat(frame, a, b[..m], dy);
    }
  }

  /** Two lists together score the mean of their scores, weighted by their anchors in the frame. */
  lemma ScoreMean(frame: Frame, a: seq<AnchorPixel>, b: seq<AnchorPixel>, dy: int)
    requires frame.data.Some? && |Fallen(frame, a, dy)| >= 4 && |Fallen(frame, b, dy)| >= 4
    ensures var (m, n) := (|Fallen(frame, a, dy)| as real, |Fallen(frame, b, dy)| as real);
            Score(frame, a + b, dy) * (m + n) == Score(frame, a, dy) * m + Score(frame, b, dy) * n
  {
    hide Fallen, SumError, ValidCount;
    CountIs(frame, a, dy);
    CountIs(frame, b, dy);
    CountBound(frame, a, dy);
    CountBound(frame, b, dy);
    SumsConcat(frame, a, b, dy);
    DivideBack(SumError(frame, a, dy), ValidCount(frame, a, dy) as real);
    DivideBack(SumError(frame, b, dy), ValidCount(frame, b, dy) as real);
    DivideBack(SumError(frame, a + b, dy), ValidCount(frame, a + b, dy) as real);
  }

  lemma DivideBack(n: real, d: real)
    requires d > 0.0
    ensures n / d * d == n
  {
  }

  // ---------- Where anchors are taken ----------

  /** The i-th of six points that divide a side into sevenths. */
  function Spaced(from: int, to: int, i: nat): int { from + i * (to - from) / 7 }

  lemma SpacedIs(from: int, to: int, i: nat)
    requires from <= to
    ensures Between(from, to, i) == Spaced(from, to, i)
  {
  }

  /** One of the first n points along a side, fourteen pixels above or below, left or right. */
  ghost predicate InRows(w: Window, n: nat, x: int, y: int) {
    (y == w.y1 - 14 || y == w.y2 + 14) && exists i: nat :: 1 <= i <= n && x == Spaced(w.x1, w.x2, i)
  }

  ghost predicate InColumns(w: Window, n: nat, x: int, y: int) {
    (x == w.x1 - 14 || x == w.x2 + 14) && exists i: nat :: 1 <= i <= n && y == Spaced(w.y1, w.y2, i)
  }

  /** A pixel of the frame in its own colour. */
  predicate Shows(frame: Frame, x: int, y: int, c: Rgb)
    requires frame.data.Some?
  {
    0 <= x < frame.width && 0 <= y < frame.height && c == PixelRgb(frame, x, y)
  }

  lemma {:induction false} RowPlaces(frame: Frame, w: Window, n: nat, x: int, y: int, c: Rgb)
    requires frame.data.Some? && w.x1 <= w.x2
    ensures AnchorPixel(x, y, c) in RowAnchors(frame, w, n) <==> Shows(frame, x, y, c) && InRows(w, n, x, y)
  {
    hide PixelRgb, Spaced;
    if n > 0 {
      RowPlaces(frame, w, n - 1, x, y, c);
      SpacedIs(w.x1, w.x2, n);
    }
  }

  lemma {:induction false} ColumnPlaces(frame: Frame, w: Window, n: nat, x: int, y: int, c: Rgb)
    requires frame.data.Some? && w.y1 <= w.y2
    ensures AnchorPixel(x, y, c) in ColumnAnchors(frame, w, n) <==> Shows(frame, x, y, c) && InColumns(w, n, x, y)
  {
    hide PixelRgb, Spaced;
    if n > 0 {
      ColumnPlaces(frame, w, n - 1, x, y, c);
      SpacedIs(w.y1, w.y2, n);
    }
  }

  /** An anchor is taken exactly at the six points along each side of the padded shield, fourteen
      pixels outside, where these lie in the frame; and it has the pixel's colour. */
  lemma SampledExactly(frame: Frame, box: BoundingBox, padding: real, x: int, y: int, c: Rgb)
    requires HasPixels(frame)
    ensures var w := PixelWindow(frame, box, padding);
            AnchorPixel(x, y, c) in Sampled(frame, box, padding)
            <==> Shows(frame, x, y, c) && (InRows(w, 6, x, y) || InColumns(w, 6, x, y))
  {
    hide PixelWindow, Shows, InRows, InColumns, RowAnchors, ColumnAnchors;
    WindowOrdered(frame, box, padding);
    var w := PixelWindow(frame, box, padding);
    RowPlaces(frame, w, SAMPLES, x, y, c);
    ColumnPlaces(frame, w, SAMPLES, x, y, c);
  }

  /** `p` is the pixel that a coordinate falls into; the far end counts as the last one. */
  predicate FallsInto(v: real, side: nat, p: int) {
    p as real <= v * side as real && (v * side as real < p as real + 1.0 || p == side - 1)
  }

  lemma ToPixelIs(v: real, side: nat)
    requires 0.0 <= v && side > 0
    ensures FallsInto(v, side, ToPixel(v, side))
  {
    ScaleNonNegative(v, side as real);
  }

  /** The window's edges are the pixels of the padded shield's edges. */
  lemma WindowEdges(frame: Frame, box: BoundingBox, padding: real)
    requires HasPixels(frame) && box.InUnitSquare() && 0.0 <= padding
    ensures var w, e := PixelWindow(frame, box, padding), box.Expanded(padding);
            && FallsInto(e.Left(), frame.width, w.x1) && FallsInto(e.Right(), frame.width, w.x2)
            && FallsInto(e.Top(), frame.height, w.y1) && FallsInto(e.Bottom(), frame.height, w.y2)
  {
    hide BoundingBox.Expanded, ToPixel, FallsInto;
    ExpandedGrows(box, padding);
    var e := box.Expanded(padding);
    ToPixelIs(e.Left(), frame.width);
    ToPixelIs(e.Right(), frame.width);
    ToPixelIs(e.Top(), frame.height);
    ToPixelIs(e.Bottom(), frame.height);
  }
}
