/** Screen rectangles in normalised coordinates (`BoundingBox`).  Every `float` of the
    program is a `real` here, so nothing below speaks about rounding or NaN. */
module Geometry {

  function Min(a: real, b: real): real { if b < a then b else a }

  function Max(a: real, b: real): real { if a < b then b else a }

  function Clamp(v: real, lo: real, hi: real): real {
    if v < lo then lo else if hi < v then hi else v
  }

  datatype BoundingBox = BoundingBox(
    x: real, y: real, width: real, height: real,
    confidence: real, classId: int, timestampMs: nat)
  {
    function Left(): real { x }
    function Top(): real { y }
    function Right(): real { x + width }
    function Bottom(): real { y + height }
    function Area(): real { width * height }

    /** Neither side is negative. */
    predicate Sized() { 0.0 <= width && 0.0 <= height }

    predicate InUnitSquare() {
      Sized() && 0.0 <= x && 0.0 <= y && Right() <= 1.0 && Bottom() <= 1.0
    }

    /** `other` lies inside this rectangle, edges included. */
    predicate Covers(other: BoundingBox) {
      && Left() <= other.Left() && other.Right() <= Right()
      && Top() <= other.Top() && other.Bottom() <= Bottom()
    }

    /** Equal as rectangles, whatever else the records carry. */
    predicate SameRect(other: BoundingBox) {
      x == other.x && y == other.y && width == other.width && height == other.height
    }

    function Expanded(ratio: real): BoundingBox {
      var dw := width * ratio;
      var dh := height * ratio;
      var nx1 := Max(0.0, x - dw * 0.5);
      var ny1 := Max(0.0, y - dh * 0.5);
      var nx2 := Min(1.0, x + width + dw * 0.5);
      var ny2 := Min(1.0, y + height + dh * 0.5);
      BoundingBox(nx1, ny1, Max(0.0, nx2 - nx1), Max(0.0, ny2 - ny1),
                  confidence, classId, timestampMs)
    }

    /** Extent of the common part along each axis, never negative. */
    function OverlapWidth(other: BoundingBox): real {
      Max(0.0, Min(Right(), other.Right()) - Max(Left(), other.Left()))
    }

    function OverlapHeight(other: BoundingBox): real {
      Max(0.0, Min(Bottom(), other.Bottom()) - Max(Top(), other.Top()))
    }

    function Intersection(other: BoundingBox): real {
      OverlapWidth(other) * OverlapHeight(other)
    }

    /** Intersection over union. */
    function Iou(other: BoundingBox): real {
      var intersection := Intersection(other);
      var unionArea := Area() + other.Area() - intersection;
      if unionArea <= 0.0 then 0.0 else intersection / unionArea
    }

    predicate Overlaps(other: BoundingBox, threshold: real) { Iou(other) > threshold }

    function United(other: BoundingBox): BoundingBox {
      var nx1 := Min(Left(), other.Left());
      var ny1 := Min(Top(), other.Top());
      var nx2 := Max(Right(), other.Right());
      var ny2 := Max(Bottom(), other.Bottom());
      BoundingBox(nx1, ny1, Max(0.0, nx2 - nx1), Max(0.0, ny2 - ny1),
                  Max(confidence, other.confidence),
                  if confidence >= other.confidence then classId else other.classId,
                  if timestampMs < other.timestampMs then other.timestampMs else timestampMs)
    }

    /** The exponential moving average the anchor tracker applies to a matched shield;
        everything but the rectangle is kept. */
    function Smoothed(det: BoundingBox, alpha: real): BoundingBox {
      this.(x := alpha * det.x + (1.0 - alpha) * x,
            y := alpha * det.y + (1.0 - alpha) * y,
            width := alpha * det.width + (1.0 - alpha) * width,
            height := alpha * det.height + (1.0 - alpha) * height)
    }
  }

  // ---------- Intersection over union ----------

  /** No two boxes of the list overlap beyond the threshold, in either order. */
  ghost predicate Separated(boxes: seq<BoundingBox>, threshold: real) {
    forall i, j :: 0 <= i < |boxes| && 0 <= j < |boxes| && i != j ==> boxes[i].Iou(boxes[j]) <= threshold
  }

  lemma IouSymmetric(a: BoundingBox, b: BoundingBox)
    ensures a.Iou(b) == b.Iou(a)
  {
    assert a.OverlapWidth(b) == b.OverlapWidth(a);
    assert a.OverlapHeight(b) == b.OverlapHeight(a);
  }

  lemma ProductMonotone(a: real, b: real, c: real, d: real)
    requires 0.0 <= a <= c && 0.0 <= b <= d
    ensures 0.0 <= a * b <= c * d
  {
    assert a * b <= c * b;
    assert c * b <= c * d;
  }

  lemma IntersectionBounds(a: BoundingBox, b: BoundingBox)
    requires a.Sized() && b.Sized()
    ensures 0.0 <= a.Intersection(b) <= a.Area()
    ensures a.Intersection(b) <= b.Area()
  {
    ProductMonotone(a.OverlapWidth(b), a.OverlapHeight(b), a.width, a.height);
    ProductMonotone(a.OverlapWidth(b), a.OverlapHeight(b), b.width, b.height);
  }

  lemma QuotientAtMost(n: real, d: real, bound: real)
    requires 0.0 < d
    ensures n / d <= bound <==> n <= bound * d
    ensures n / d >= bound <==> n >= bound * d
  {
    assert n / d * d == n;
    if n / d < bound { assert n / d * d < bound * d; }
    if n / d > bound { assert n / d * d > bound * d; }
  }

  /** IoU of two real rectangles is a ratio between 0 and 1, and it is 1 exactly for
      two copies of one rectangle with an area. */
  lemma IouRange(a: BoundingBox, b: BoundingBox)
    requires a.Sized() && b.Sized()
    ensures 0.0 <= a.Iou(b) <= 1.0
    ensures a.Iou(b) > 0.0 <==> a.OverlapWidth(b) > 0.0 && a.OverlapHeight(b) > 0.0
    ensures a.Iou(b) == 1.0 <==> a.SameRect(b) && a.Area() > 0.0
  {
    IntersectionBounds(a, b);
    var i := a.Intersection(b);
    var u := a.Area() + b.Area() - i;
    if u > 0.0 {
      QuotientAtMost(i, u, 0.0);
      QuotientAtMost(i, u, 1.0);
    }
    if a.OverlapWidth(b) > 0.0 && a.OverlapHeight(b) > 0.0 {
      assert i > 0.0;
    }
    if a.Iou(b) == 1.0 { FullOverlap(a, b); }
    if a.SameRect(b) && a.Area() > 0.0 {
      assert a.OverlapWidth(b) == a.width && a.OverlapHeight(b) == a.height;
      assert i == u;
    }
  }

  lemma FullOverlap(a: BoundingBox, b: BoundingBox)
    requires a.Sized() && b.Sized() && a.Iou(b) == 1.0
    ensures a.SameRect(b) && a.Area() > 0.0
  {
    IntersectionBounds(a, b);
    var i := a.Intersection(b);
    var u := a.Area() + b.Area() - i;
    QuotientAtMost(i, u, 1.0);
    assert i == a.Area() == b.Area() && i > 0.0;
    FullSpan(a.OverlapWidth(b), a.OverlapHeight(b), a.width, a.height);
    FullSpan(a.OverlapWidth(b), a.OverlapHeight(b), b.width, b.height);
  }

  lemma FullSpan(p: real, q: real, w: real, h: real)
    requires 0.0 <= p <= w && 0.0 <= q <= h && p * q == w * h && p * q > 0.0
    ensures p == w && q == h
  {
    if p < w { ProductStrict(p, q, w, h); }
    if q < h { ProductStrict(q, p, h, w); }
  }

  lemma ProductStrict(p: real, q: real, w: real, h: real)
    requires 0.0 <= p < w && 0.0 < q <= h
    ensures p * q < w * h && q * p < h * w
  {
    assert p * q < w * q;
    assert w * q <= w * h;
  }

  /** Two boxes that match at a non-negative threshold both have an area, and they meet
      in a proper rectangle; nothing has to be assumed about their sizes. */
  lemma OverlapHasArea(a: BoundingBox, b: BoundingBox, threshold: real)
    requires 0.0 <= threshold && a.Overlaps(b, threshold)
    ensures a.OverlapWidth(b) > 0.0 && a.OverlapHeight(b) > 0.0
    ensures a.width > 0.0 && a.height > 0.0 && b.width > 0.0 && b.height > 0.0
  {
    if a.OverlapWidth(b) == 0.0 || a.OverlapHeight(b) == 0.0 { DisjointIou(a, b); }
  }

  lemma DisjointIou(a: BoundingBox, b: BoundingBox)
    requires a.OverlapWidth(b) == 0.0 || a.OverlapHeight(b) == 0.0
    ensures a.Iou(b) == 0.0
  {
    hide BoundingBox.Intersection, BoundingBox.Area;
    assert a.Intersection(b) == 0.0 by { ZeroProduct(a, b); }
  }

  lemma ZeroProduct(a: BoundingBox, b: BoundingBox)
    requires a.OverlapWidth(b) == 0.0 || a.OverlapHeight(b) == 0.0
    ensures a.Intersection(b) == 0.0
  {
    hide BoundingBox.OverlapWidth, BoundingBox.OverlapHeight;
  }

  /** The greatest rectangle inside both boxes. */
  ghost predicate Common(c: BoundingBox, a: BoundingBox, b: BoundingBox) {
    && c.Sized() && a.Covers(c) && b.Covers(c)
    && forall d: BoundingBox :: d.Sized() && a.Covers(d) && b.Covers(d) ==> c.Covers(d)
  }

  /** IoU is the area of what two boxes have in common over the area of the two together: with
      a common rectangle the ratio of the areas, and without one, 0. */
  lemma IouIsRatio(a: BoundingBox, b: BoundingBox, c: BoundingBox)
    requires a.Sized() && b.Sized() && Common(c, a, b)
    ensures var (shared, both) := (c.width * c.height, a.width * a.height + b.width * b.height - c.width * c.height);
            if both > 0.0 then a.Iou(b) == shared / both else a.Iou(b) == 0.0
  {
    hide BoundingBox.Iou, BoundingBox.Intersection, BoundingBox.Area, Common;
    SharedArea(a, b, c);
    OwnArea(a);
    OwnArea(b);
    IouIs(a, b);
  }

  lemma SharedArea(a: BoundingBox, b: BoundingBox, c: BoundingBox)
    requires Common(c, a, b)
    ensures a.Intersection(b) == c.width * c.height
  {
    CommonSpans(a, b, c);
    hide BoundingBox.OverlapWidth, BoundingBox.OverlapHeight, Common;
  }

  lemma OwnArea(a: BoundingBox)
    ensures a.Area() == a.width * a.height
  {
  }

  lemma IouIs(a: BoundingBox, b: BoundingBox)
    ensures var (shared, both) := (a.Intersection(b), a.Area() + b.Area() - a.Intersection(b));
            if both > 0.0 then a.Iou(b) == shared / both else a.Iou(b) == 0.0
  {
    hide BoundingBox.Intersection, BoundingBox.Area;
  }

  lemma CommonSpans(a: BoundingBox, b: BoundingBox, c: BoundingBox)
    requires Common(c, a, b)
    ensures a.OverlapWidth(b) == c.width && a.OverlapHeight(b) == c.height
  {
    var x, y := Max(a.Left(), b.Left()), Max(a.Top(), b.Top());
    var d := c.(x := x, y := y, width := Min(a.Right(), b.Right()) - x, height := Min(a.Bottom(), b.Bottom()) - y);
    assert a.Covers(d) && b.Covers(d) && d.Sized();
    assert c.Covers(d) && d.Covers(c);
  }

  lemma NothingCommon(a: BoundingBox, b: BoundingBox)
    requires a.Sized() && b.Sized() && forall c: BoundingBox :: c.Sized() ==> !(a.Covers(c) && b.Covers(c))
    ensures a.Iou(b) == 0.0
  {
    if a.OverlapWidth(b) != 0.0 && a.OverlapHeight(b) != 0.0 {
      var x, y := Max(a.Left(), b.Left()), Max(a.Top(), b.Top());
      var d := a.(x := x, y := y, width := Min(a.Right(), b.Right()) - x, height := Min(a.Bottom(), b.Bottom()) - y);
      assert d.Sized() && a.Covers(d) && b.Covers(d);
    } else {
      DisjointIou(a, b);
    }
  }

  // ---------- Uniting and expanding ----------

  /** The united box is the smallest rectangle covering both. */
  lemma UnitedIsHull(a: BoundingBox, b: BoundingBox)
    requires a.Sized() && b.Sized()
    ensures a.United(b).Sized() && a.United(b).Covers(a) && a.United(b).Covers(b)
    ensures forall c: BoundingBox :: c.Covers(a) && c.Covers(b) ==> c.Covers(a.United(b))
  {
  }

  /** It has the greater confidence with that box's class, the first one's when they are equally
      confident, and the later time. */
  lemma UnitedLabels(a: BoundingBox, b: BoundingBox)
    ensures var u := a.United(b);
            && (u.confidence, u.classId) == (if a.confidence < b.confidence then (b.confidence, b.classId)
                                             else (a.confidence, a.classId))
            && u.timestampMs in {a.timestampMs, b.timestampMs}
            && u.timestampMs >= a.timestampMs && u.timestampMs >= b.timestampMs
  {
  }

  lemma CoversTransitive(a: BoundingBox, b: BoundingBox, c: BoundingBox)
    requires a.Covers(b) && b.Covers(c)
    ensures a.Covers(c)
  {
  }

  lemma ScaleNonNegative(a: real, r: real)
    requires 0.0 <= a && 0.0 <= r
    ensures 0.0 <= a * r
  {
  }

  /** The padding on each side, along each axis. */
  predicate Pads(b: BoundingBox, ratio: real, padX: real, padY: real) {
    padX == b.width * ratio * 0.5 && padY == b.height * ratio * 0.5
  }

  lemma PaddingOrder(outer: BoundingBox, inner: BoundingBox, ratio: real)
    returns (ox: real, oy: real, ix: real, iy: real)
    requires 0.0 <= inner.width <= outer.width && 0.0 <= inner.height <= outer.height && 0.0 <= ratio
    ensures Pads(outer, ratio, ox, oy) && Pads(inner, ratio, ix, iy)
    ensures 0.0 <= ix <= ox && 0.0 <= iy <= oy
  {
    ox, oy := outer.width * ratio * 0.5, outer.height * ratio * 0.5;
    ix, iy := inner.width * ratio * 0.5, inner.height * ratio * 0.5;
    LargerPadding(outer.width, inner.width, ratio);
    LargerPadding(outer.height, inner.height, ratio);
  }

  lemma ExpandedEdges(b: BoundingBox, ratio: real, padX: real, padY: real)
    requires b.InUnitSquare() && 0.0 <= padX && 0.0 <= padY && Pads(b, ratio, padX, padY)
    ensures var e := b.Expanded(ratio);
            && e.Left() == Max(0.0, b.x - padX) && e.Right() == Min(1.0, b.x + b.width + padX)
            && e.Top() == Max(0.0, b.y - padY) && e.Bottom() == Min(1.0, b.y + b.height + padY)
            && e.Sized()
  {
  }

  lemma ExpandedLabels(b: BoundingBox, ratio: real)
    ensures var e := b.Expanded(ratio);
            e.confidence == b.confidence && e.classId == b.classId && e.timestampMs == b.timestampMs
  {
  }

  /** Padding keeps a box of the unit square in the unit square and only grows it; nothing but the
      rectangle changes. */
  lemma ExpandedGrows(b: BoundingBox, ratio: real)
    requires b.InUnitSquare() && 0.0 <= ratio
    ensures b.Expanded(ratio).InUnitSquare() && b.Expanded(ratio).Covers(b)
    ensures var e := b.Expanded(ratio);
            e.confidence == b.confidence && e.classId == b.classId && e.timestampMs == b.timestampMs
  {
    ExpandedLabels(b, ratio);
    hide BoundingBox.Expanded, Pads;
    var ox, oy, ix, iy := PaddingOrder(b, b, ratio);
    ExpandedEdges(b, ratio, ix, iy);
  }

  /** Padding is monotone: the padded outer box covers the padded inner box. */
  lemma ExpandedMonotone(outer: BoundingBox, inner: BoundingBox, ratio: real)
    requires outer.InUnitSquare() && inner.InUnitSquare() && 0.0 <= ratio
    requires outer.Covers(inner)
    ensures outer.Expanded(ratio).Covers(inner.Expanded(ratio))
  {
    hide BoundingBox.Expanded, Pads, Min, Max;
    var ox, oy, ix, iy := PaddingOrder(outer, inner, ratio);
    PaddedSpan(outer.x, outer.width, ox, inner.x, inner.width, ix);
    PaddedSpan(outer.y, outer.height, oy, inner.y, inner.height, iy);
    ExpandedEdges(outer, ratio, ox, oy);
    ExpandedEdges(inner, ratio, ix, iy);
  }

  lemma PaddedSpan(ox: real, ow: real, oPad: real, ix: real, iw: real, iPad: real)
    requires 0.0 <= iPad <= oPad && 0.0 <= iw && 0.0 <= ow
    requires 0.0 <= ox <= ix && ix + iw <= ox + ow <= 1.0
    ensures Max(0.0, ox - oPad) <= Max(0.0, ix - iPad)
    ensures Min(1.0, ix + iw + iPad) <= Min(1.0, ox + ow + oPad)
  {
  }

  lemma LargerPadding(outer: real, inner: real, ratio: real)
    requires 0.0 <= inner <= outer && 0.0 <= ratio
    ensures 0.0 <= inner * ratio * 0.5 <= outer * ratio * 0.5
  {
    ScaleNonNegative(inner, ratio);
    ScaleNonNegative(outer - inner, ratio);
    assert (outer - inner) * ratio == outer * ratio - inner * ratio;
  }

  // ---------- Smoothing ----------

  /** `v'` is the average of `v` and its target `t` with weight `a` on the target. */
  predicate Blends(v': real, v: real, t: real, a: real) { v' == (1.0 - a) * v + a * t }

  /** `x`, `y`, `z` are the weights of a squared average. */
  predicate Weights(x: real, y: real, z: real) {
    0.0 <= x && 0.0 <= y && 0.0 <= z && x + 2.0 * y + z == 1.0
  }

  predicate Times(p: real, a: real, b: real) { p == a * b }

  predicate Combines(v: real, x: real, y: real, z: real, c0: real, c1: real, c2: real) {
    v == x * c0 + y * c1 + z * c2
  }

  /** What makes the ratio of an intersection to a sum of areas grow. */
  predicate Contracting(i: real, s: real, t: real, m: real, n: real) {
    m * (s + t) >= i * n + 2.0 * (i * t) && t * (s + t) >= 2.0 * (i * t)
  }

  /** The intersection `i'` over the area sum `s' + t` is at least `i` over `s + t`. */
  predicate RatioGrows(i': real, s': real, i: real, s: real, t: real) {
    i' * (s + t) >= i * (s' + t)
  }

  lemma ScaledOrder(from: real, to: real, a: real)
    requires 0.0 <= a <= 1.0
    ensures from <= to ==> a * to + (1.0 - a) * from <= to
    ensures from >= to ==> a * to + (1.0 - a) * from >= to
  {
    assert a * to + (1.0 - a) * from - to == (1.0 - a) * (from - to);
    if from <= to { ScaleNonNegative(1.0 - a, to - from); } else { ScaleNonNegative(1.0 - a, from - to); }
  }

  /** Along one axis, the common part of the smoothed span and the target span is the
      same average of the old common part and the whole target. */
  lemma SmoothedOverlapSpan(l: real, w: real, tl: real, tw: real, a: real, l': real, w': real)
    requires 0.0 <= a <= 1.0
    requires Blends(l', l, tl, a) && Blends(w', w, tw, a)
    requires 0.0 < Min(l + w, tl + tw) - Max(l, tl)
    ensures Blends(Min(l' + w', tl + tw) - Max(l', tl), Min(l + w, tl + tw) - Max(l, tl), tw, a)
    ensures Min(l' + w', tl + tw) - Max(l', tl) >= 0.0
  {
    assert l' + w' == a * (tl + tw) + (1.0 - a) * (l + w);
    ScaledOrder(l, tl, a);
    ScaledOrder(l + w, tl + tw, a);
    var lo, hi := Max(l, tl), Min(l + w, tl + tw);
    assert Max(l', tl) == a * tl + (1.0 - a) * lo;
    assert Min(l' + w', tl + tw) == a * (tl + tw) + (1.0 - a) * hi;
    assert (1.0 - a) * hi - (1.0 - a) * lo == (1.0 - a) * (hi - lo);
    ScaleNonNegative(1.0 - a, hi - lo);
    ScaleNonNegative(a, tw);
  }

  predicate SquareWeights(a: real, x: real, y: real, z: real) {
    Times(x, 1.0 - a, 1.0 - a) && Times(y, a, 1.0 - a) && Times(z, a, a)
  }

  lemma SquaredWeights(a: real) returns (x: real, y: real, z: real)
    requires 0.0 <= a <= 1.0
    ensures Weights(x, y, z) && SquareWeights(a, x, y, z)
  {
    x, y, z := (1.0 - a) * (1.0 - a), a * (1.0 - a), a * a;
    ScaleNonNegative(1.0 - a, 1.0 - a);
    ScaleNonNegative(a, 1.0 - a);
    ScaleNonNegative(a, a);
  }

  lemma Product(a: real, b: real) returns (p: real)
    ensures Times(p, a, b)
  {
    p := a * b;
  }

  lemma TimesCommutes(p: real, a: real, b: real)
    requires Times(p, a, b)
    ensures Times(p, b, a)
  {
  }

  /** (a b)(c d) == (a c)(b d) */
  lemma Regroup(a: real, b: real, c: real, d: real, ab: real, cd: real, ac: real, bd: real)
    requires Times(ab, a, b) && Times(cd, c, d) && Times(ac, a, c) && Times(bd, b, d)
    ensures ab * cd == ac * bd
  {
    assert (a * b) * (c * d) == (a * c) * (b * d);
    EqualFactors(ab, a * b, cd, c * d);
    EqualFactors(ac, a * c, bd, b * d);
  }

  lemma EqualFactors(u: real, u': real, v: real, v': real)
    requires u == u' && v == v'
    ensures u * v == u' * v'
  {
  }

  /** (a b)(c d) is at least (a e)(c b) when e is at most d. */
  lemma SwapOrder(a: real, b: real, c: real, d: real, e: real, ab: real, cd: real, ae: real, cb: real)
    requires 0.0 <= a && 0.0 <= b && 0.0 <= c && e <= d
    requires Times(ab, a, b) && Times(cd, c, d) && Times(ae, a, e) && Times(cb, c, b)
    ensures ab * cd >= ae * cb
  {
    ScaleNonNegative(a, b);
    ScaleNonNegative(a * b, c);
    ScaleNonNegative(a * b * c, d - e);
    assert (a * b) * (c * d) - (a * e) * (c * b) == a * b * c * (d - e);
    EqualFactors(ab, a * b, cd, c * d);
    EqualFactors(ae, a * e, cb, c * b);
  }

  lemma SumProduct(u: real, v: real, c: real, d: real, p: real, q: real, pq: real)
    requires p == u + v && q == c + d && Times(pq, p, q)
    ensures pq == u * c + u * d + v * c + v * d
  {
    assert (u + v) * (c + d) == u * c + u * d + v * c + v * d;
    EqualFactors(p, u + v, q, c + d);
  }

  /** `m` is the mixed term of a p-by-q and a tw-by-th rectangle. */
  predicate Mixed(m: real, p: real, q: real, tw: real, th: real) { m == p * th + q * tw }

  lemma MixedParts(m: real, p: real, q: real, tw: real, th: real) returns (c: real, d: real)
    requires Mixed(m, p, q, tw, th)
    ensures Times(c, p, th) && Times(d, q, tw) && m == c + d
  {
    c, d := p * th, q * tw;
  }

  lemma BlendParts(p': real, p: real, t: real, a: real) returns (u: real, v: real)
    requires Blends(p', p, t, a)
    ensures Times(u, 1.0 - a, p) && Times(v, a, t) && p' == u + v
  {
    u, v := (1.0 - a) * p, a * t;
  }

  lemma CombinesParts(v: real, x: real, y: real, z: real, c0: real, c1: real, c2: real, d: real, e: real)
    requires c1 == d + e && v == x * c0 + y * d + y * e + z * c2
    ensures Combines(v, x, y, z, c0, c1, c2)
  {
    assert y * (d + e) == y * d + y * e;
    EqualFactors(y, y, c1, d + e);
  }

  /** The product of two averages is a squared average. */
  lemma BlendedProduct(p: real, q: real, tw: real, th: real, a: real, p': real, q': real,
                       x: real, y: real, z: real, i': real, i: real, m: real, t: real)
    requires Blends(p', p, tw, a) && Blends(q', q, th, a) && SquareWeights(a, x, y, z)
    requires Times(i', p', q') && Times(i, p, q) && Times(t, tw, th) && Mixed(m, p, q, tw, th)
    ensures Combines(i', x, y, z, i, m, t)
  {
    hide Blends, Times, Mixed, Combines;
    var b := 1.0 - a;
    var u, v := BlendParts(p', p, tw, a);
    var u', v' := BlendParts(q', q, th, a);
    var c, d := MixedParts(m, p, q, tw, th);
    SumProduct(u, v, u', v', p', q', i');
    Regroup(b, p, b, q, u, u', x, i);
    TimesCommutes(y, a, b);
    Regroup(b, p, a, th, u, v', y, c);
    TimesCommutes(d, q, tw);
    Regroup(a, tw, b, q, v, u', y, d);
    Regroup(a, tw, a, th, v, v', z, t);
    CombinesParts(i', x, y, z, i, m, t, c, d);
  }

  lemma TargetTerms(i: real, s: real, t: real)
    requires 0.0 <= i <= s && i <= t
    ensures t * (s + t) >= 2.0 * (i * t)
  {
    ScaleNonNegative(t, s + t - 2.0 * i);
  }

  lemma SpansContracting(p: real, q: real, w: real, h: real, tw: real, th: real,
                         i: real, s: real, t: real, m: real, n: real)
    requires 0.0 <= p <= w && p <= tw && 0.0 <= q <= h && q <= th
    requires Times(i, p, q) && Times(s, w, h) && Times(t, tw, th)
    requires Mixed(m, p, q, tw, th) && Mixed(n, w, h, tw, th)
    ensures Contracting(i, s, t, m, n)
  {
    hide Mixed, Times;
    MixedContracting(p, q, w, h, tw, th, i, s, t, m, n);
    assert 0.0 <= i <= s && i <= t by {
      TimesOrder(p, q, w, h, i, s);
      TimesOrder(p, q, tw, th, i, t);
    }
    TargetTerms(i, s, t);
  }

  lemma TimesOrder(p: real, q: real, w: real, h: real, i: real, s: real)
    requires 0.0 <= p <= w && 0.0 <= q <= h && Times(i, p, q) && Times(s, w, h)
    ensures 0.0 <= i <= s
  {
    ProductMonotone(p, q, w, h);
  }

  lemma MixedContracting(p: real, q: real, w: real, h: real, tw: real, th: real,
                         i: real, s: real, t: real, m: real, n: real)
    requires 0.0 <= p <= w && p <= tw && 0.0 <= q <= h && q <= th
    requires Times(i, p, q) && Times(s, w, h) && Times(t, tw, th)
    requires Mixed(m, p, q, tw, th) && Mixed(n, w, h, tw, th)
    ensures m * (s + t) >= i * n + 2.0 * (i * t)
  {
    hide Times, Mixed;
    var c, d := MixedParts(m, p, q, tw, th);
    var e, f := MixedParts(n, w, h, tw, th);
    TimesCommutes(i, p, q);
    TimesCommutes(s, w, h);
    TimesCommutes(t, tw, th);
    SwapOrder(p, th, w, h, q, c, s, i, e);
    SwapOrder(q, tw, h, w, p, d, s, i, f);
    SwapOrder(p, th, tw, th, q, c, t, i, t);
    SwapOrder(q, tw, th, tw, p, d, t, i, t);
    MixedSums(c, d, e, f, i, s, t, m, n);
  }

  lemma MixedSums(c: real, d: real, e: real, f: real, i: real, s: real, t: real, m: real, n: real)
    requires m == c + d && n == e + f
    requires c * s >= i * e && d * s >= i * f && c * t >= i * t && d * t >= i * t
    ensures m * (s + t) >= i * n + 2.0 * (i * t)
  {
    EqualFactors(m, c + d, s + t, s + t);
    EqualFactors(i, i, n, e + f);
    assert (c + d) * (s + t) == c * s + c * t + d * s + d * t;
    assert i * (e + f) == i * e + i * f;
  }

  lemma WeightedSum(x: real, y: real, z: real, c0: real, c1: real, c2: real, f: real, v: real)
    returns (e0: real, e1: real, e2: real, vf: real)
    requires Combines(v, x, y, z, c0, c1, c2)
    ensures Times(e0, c0, f) && Times(e1, c1, f) && Times(e2, c2, f) && Times(vf, v, f)
    ensures Combines(vf, x, y, z, e0, e1, e2)
  {
    e0, e1, e2, vf := c0 * f, c1 * f, c2 * f, v * f;
    assert v * f == (x * c0 + y * c1 + z * c2) * f;
    assert (x * c0) * f == x * (c0 * f) && (y * c1) * f == y * (c1 * f) && (z * c2) * f == z * (c2 * f);
  }

  lemma UnitWeights(x: real, y: real, z: real, v: real)
    requires Weights(x, y, z)
    ensures Combines(v, x, y, z, v, 2.0 * v, v)
  {
    assert v == (x + 2.0 * y + z) * v;
  }

  lemma CombinesSum(x: real, y: real, z: real, v: real, c0: real, c1: real, c2: real,
                    v': real, d0: real, d1: real, d2: real)
    requires Combines(v, x, y, z, c0, c1, c2) && Combines(v', x, y, z, d0, d1, d2)
    ensures Combines(v + v', x, y, z, c0 + d0, c1 + d1, c2 + d2)
  {
  }

  lemma CombinesOrder(x: real, y: real, z: real, v: real, c0: real, c1: real, c2: real,
                      v': real, d0: real, d1: real, d2: real)
    requires Weights(x, y, z)
    requires Combines(v, x, y, z, c0, c1, c2) && Combines(v', x, y, z, d0, d1, d2)
    requires c0 == d0 && c1 >= d1 && c2 >= d2
    ensures v >= v'
  {
    ScaleNonNegative(y, c1 - d1);
    ScaleNonNegative(z, c2 - d2);
    assert y * (c1 - d1) == y * c1 - y * d1 && z * (c2 - d2) == z * c2 - z * d2;
  }

  lemma BlendedRatio(i: real, s: real, t: real, m: real, n: real, i': real, s': real, x: real, y: real, z: real)
    requires Weights(x, y, z) && Contracting(i, s, t, m, n)
    requires Combines(i', x, y, z, i, m, t) && Combines(s', x, y, z, s, n, t)
    ensures RatioGrows(i', s', i, s, t)
  {
    hide Combines, Weights, Contracting, RatioGrows, Times;
    var a0, a1, a2, av := WeightedSum(x, y, z, i, m, t, s + t, i');
    var b0, b1, b2, bv := WeightedSum(x, y, z, s, n, t, i, s');
    var it := Product(i, t);
    UnitWeights(x, y, z, it);
    CombinesSum(x, y, z, bv, b0, b1, b2, it, it, 2.0 * it, it);
    ContractingOrder(i, s, t, m, n, a0, a1, a2, b0, b1, b2, it);
    CombinesOrder(x, y, z, av, a0, a1, a2, bv + it, b0 + it, b1 + 2.0 * it, b2 + it);
    RatioFromOrder(i', s', i, s, t, av, bv, it);
  }

  lemma ContractingOrder(i: real, s: real, t: real, m: real, n: real,
                         a0: real, a1: real, a2: real, b0: real, b1: real, b2: real, it: real)
    requires Contracting(i, s, t, m, n)
    requires Times(a0, i, s + t) && Times(a1, m, s + t) && Times(a2, t, s + t)
    requires Times(b0, s, i) && Times(b1, n, i) && Times(b2, t, i) && Times(it, i, t)
    ensures a0 == b0 + it && a1 >= b1 + 2.0 * it && a2 >= b2 + it
  {
  }

  lemma RatioFromOrder(i': real, s': real, i: real, s: real, t: real, av: real, bv: real, it: real)
    requires Times(av, i', s + t) && Times(bv, s', i) && Times(it, i, t) && av >= bv + it
    ensures RatioGrows(i', s', i, s, t)
  {
  }

  lemma BlendedBelow(p: real, w: real, tw: real, a: real, p': real, w': real)
    requires 0.0 < p <= w && p <= tw && 0.0 <= a <= 1.0
    requires Blends(p', p, tw, a) && Blends(w', w, tw, a)
    ensures 0.0 <= p' <= w'
  {
    ScaleNonNegative(1.0 - a, p);
    ScaleNonNegative(a, tw);
    ScaleNonNegative(1.0 - a, w - p);
    assert (1.0 - a) * (w - p) == (1.0 - a) * w - (1.0 - a) * p;
  }

  lemma SpanRatio(p: real, q: real, w: real, h: real, tw: real, th: real, a: real,
                  p': real, q': real, w': real, h': real,
                  i': real, s': real, i: real, s: real, t: real)
    requires 0.0 < p <= w && p <= tw && 0.0 < q <= h && q <= th && 0.0 <= a <= 1.0
    requires Blends(p', p, tw, a) && Blends(q', q, th, a)
    requires Blends(w', w, tw, a) && Blends(h', h, th, a)
    requires Times(i', p', q') && Times(s', w', h')
    requires Times(i, p, q) && Times(s, w, h) && Times(t, tw, th)
    ensures RatioGrows(i', s', i, s, t)
  {
    hide Blends, Combines, Weights, SquareWeights, Contracting, RatioGrows, Times, Mixed;
    var x, y, z := SquaredWeights(a);
    var m := MixedTerm(p, q, tw, th);
    var n := MixedTerm(w, h, tw, th);
    BlendedProduct(p, q, tw, th, a, p', q', x, y, z, i', i, m, t);
    BlendedProduct(w, h, tw, th, a, w', h', x, y, z, s', s, n, t);
    SpansContracting(p, q, w, h, tw, th, i, s, t, m, n);
    BlendedRatio(i, s, t, m, n, i', s', x, y, z);
  }

  lemma MixedTerm(p: real, q: real, tw: real, th: real) returns (m: real)
    ensures Mixed(m, p, q, tw, th)
  {
    m := p * th + q * tw;
  }

  /** The areas of a box against a target: `i` shared, `s` its own, `t` the target's. */
  predicate Areas(i: real, s: real, t: real) { 0.0 <= i <= s && i <= t && 0.0 < t }

  lemma BlendedSpanBelow(p: real, tw: real, a: real, p': real)
    requires 0.0 < p <= tw && 0.0 <= a <= 1.0 && Blends(p', p, tw, a)
    ensures p' <= tw
  {
    ScaledOrder(p, tw, a);
  }

  lemma QuotientOrder(i: real, s: real, t: real, i': real, s': real)
    requires Areas(i, s, t) && Areas(i', s', t) && RatioGrows(i', s', i, s, t)
    ensures i' / (s' + t - i') >= i / (s + t - i)
  {
    var u, u' := s + t - i, s' + t - i';
    assert i * (s' + t) - i * i' == i * u' && i' * (s + t) - i' * i == i' * u;
    QuotientCompare(i, u, i', u');
  }

  lemma CancelFactor(u: real, v: real, d: real)
    requires 0.0 < d && u * d <= v * d
    ensures u <= v
  {
    assert (u - v) * d <= 0.0;
    SignKept(d, u - v);
  }

  lemma QuotientCompare(n1: real, d1: real, n2: real, d2: real)
    requires 0.0 < d1 && 0.0 < d2 && n1 * d2 <= n2 * d1
    ensures n1 / d1 <= n2 / d2
  {
    var q := n2 / d2;
    assert q * d2 == n2;
    assert n1 * d2 <= (q * d1) * d2;
    CancelFactor(n1, q * d1, d2);
    QuotientAtMost(n1, d1, q);
  }

  lemma SmoothedBlends(s: BoundingBox, det: BoundingBox, a: real)
    ensures var r := s.Smoothed(det, a);
            && Blends(r.x, s.x, det.x, a) && Blends(r.width, s.width, det.width, a)
            && Blends(r.y, s.y, det.y, a) && Blends(r.height, s.height, det.height, a)
  {
  }

  lemma SmoothedOverlap(s: BoundingBox, det: BoundingBox, r: BoundingBox, a: real)
    requires 0.0 <= a <= 1.0
    requires Blends(r.x, s.x, det.x, a) && Blends(r.width, s.width, det.width, a)
    requires Blends(r.y, s.y, det.y, a) && Blends(r.height, s.height, det.height, a)
    requires s.OverlapWidth(det) > 0.0 && s.OverlapHeight(det) > 0.0
    ensures Blends(r.OverlapWidth(det), s.OverlapWidth(det), det.width, a)
    ensures Blends(r.OverlapHeight(det), s.OverlapHeight(det), det.height, a)
  {
    hide Min, Blends;
    SmoothedOverlapSpan(s.x, s.width, det.x, det.width, a, r.x, r.width);
    SmoothedOverlapSpan(s.y, s.height, det.y, det.height, a, r.y, r.height);
  }

  lemma OverlapSpans(a: BoundingBox, b: BoundingBox)
    requires a.Sized() && b.Sized()
    ensures 0.0 <= a.OverlapWidth(b) <= a.width && a.OverlapWidth(b) <= b.width
    ensures 0.0 <= a.OverlapHeight(b) <= a.height && a.OverlapHeight(b) <= b.height
  {
  }

  lemma IouQuotient(s: BoundingBox, det: BoundingBox)
    requires Areas(s.Intersection(det), s.Area(), det.Area())
    ensures s.Iou(det) == s.Intersection(det) / (s.Area() + det.Area() - s.Intersection(det))
  {
    hide BoundingBox.Intersection, BoundingBox.Area;
  }

  lemma IouGrows(s: BoundingBox, r: BoundingBox, det: BoundingBox)
    requires Areas(s.Intersection(det), s.Area(), det.Area())
    requires Areas(r.Intersection(det), r.Area(), det.Area())
    requires RatioGrows(r.Intersection(det), r.Area(), s.Intersection(det), s.Area(), det.Area())
    ensures r.Iou(det) >= s.Iou(det)
  {
    hide BoundingBox.Iou, BoundingBox.Intersection, BoundingBox.Area, RatioGrows;
    IouQuotient(s, det);
    IouQuotient(r, det);
    QuotientOrder(s.Intersection(det), s.Area(), det.Area(), r.Intersection(det), r.Area());
  }

  /** One smoothing step never lowers the IoU between the shield and the detection that
      triggered it, so a shield that matched a detection still matches it afterwards. */
  lemma SmoothingNeverLowersIou(s: BoundingBox, det: BoundingBox, alpha: real, threshold: real)
    requires 0.0 <= alpha <= 1.0 && 0.0 <= threshold
    requires s.Overlaps(det, threshold)
    ensures s.Smoothed(det, alpha).Iou(det) >= s.Iou(det)
    ensures s.Smoothed(det, alpha).Overlaps(det, threshold)
  {
    hide BoundingBox.Iou, BoundingBox.OverlapWidth, BoundingBox.OverlapHeight, BoundingBox.Smoothed;
    hide BoundingBox.Intersection, BoundingBox.Area, Blends, RatioGrows, Areas;
    OverlapHasArea(s, det, threshold);
    OverlapSpans(s, det);
    var r := s.Smoothed(det, alpha);
    SmoothedBlends(s, det, alpha);
    SmoothedOverlap(s, det, r, alpha);
    SmoothedRatio(s, det, r, alpha);
    BoxAreas(s, det);
    BlendedBelow(s.OverlapWidth(det), s.width, det.width, alpha, r.OverlapWidth(det), r.width);
    BlendedBelow(s.OverlapHeight(det), s.height, det.height, alpha, r.OverlapHeight(det), r.height);
    BlendedSpanBelow(s.OverlapWidth(det), det.width, alpha, r.OverlapWidth(det));
    BlendedSpanBelow(s.OverlapHeight(det), det.height, alpha, r.OverlapHeight(det));
    BoxAreas(r, det);
    IouGrows(s, r, det);
  }

  lemma AreaProducts(s: BoundingBox, det: BoundingBox)
    ensures Times(s.Intersection(det), s.OverlapWidth(det), s.OverlapHeight(det))
    ensures Times(s.Area(), s.width, s.height)
  {
  }

  lemma BoxAreas(s: BoundingBox, det: BoundingBox)
    requires 0.0 <= s.OverlapWidth(det) <= s.width && s.OverlapWidth(det) <= det.width && 0.0 < det.width
    requires 0.0 <= s.OverlapHeight(det) <= s.height && s.OverlapHeight(det) <= det.height && 0.0 < det.height
    ensures Areas(s.Intersection(det), s.Area(), det.Area())
  {
    hide BoundingBox.OverlapWidth, BoundingBox.OverlapHeight;
    var p, q := s.OverlapWidth(det), s.OverlapHeight(det);
    ProductPositive(det.width, det.height);
    ProductMonotone(p, q, s.width, s.height);
    ProductMonotone(p, q, det.width, det.height);
  }

  lemma SmoothedRatio(s: BoundingBox, det: BoundingBox, r: BoundingBox, a: real)
    requires 0.0 <= a <= 1.0
    requires 0.0 < s.OverlapWidth(det) <= s.width && s.OverlapWidth(det) <= det.width
    requires 0.0 < s.OverlapHeight(det) <= s.height && s.OverlapHeight(det) <= det.height
    requires Blends(r.OverlapWidth(det), s.OverlapWidth(det), det.width, a)
    requires Blends(r.OverlapHeight(det), s.OverlapHeight(det), det.height, a)
    requires Blends(r.width, s.width, det.width, a) && Blends(r.height, s.height, det.height, a)
    ensures RatioGrows(r.Intersection(det), r.Area(), s.Intersection(det), s.Area(), det.Area())
  {
    hide BoundingBox.OverlapWidth, BoundingBox.OverlapHeight, BoundingBox.Intersection, BoundingBox.Area;
    hide Blends, RatioGrows, Times;
    AreaProducts(s, det);
    AreaProducts(r, det);
    AreaProducts(det, det);
    SpanRatio(s.OverlapWidth(det), s.OverlapHeight(det), s.width, s.height, det.width, det.height, a,
              r.OverlapWidth(det), r.OverlapHeight(det), r.width, r.height,
              r.Intersection(det), r.Area(), s.Intersection(det), s.Area(), det.Area());
  }

  lemma ProductPositive(a: real, b: real)
    requires 0.0 < a && 0.0 < b
    ensures 0.0 < a * b
  {
  }

  lemma SmoothedSized(s: BoundingBox, det: BoundingBox, alpha: real)
    requires 0.0 <= alpha <= 1.0 && s.Sized() && det.Sized()
    ensures s.Smoothed(det, alpha).Sized()
  {
    ScaleNonNegative(alpha, det.width); ScaleNonNegative(1.0 - alpha, s.width);
    ScaleNonNegative(alpha, det.height); ScaleNonNegative(1.0 - alpha, s.height);
  }

  /** Smoothing two boxes of the unit square stays in the unit square. */
  lemma SmoothedInUnitSquare(s: BoundingBox, det: BoundingBox, alpha: real)
    requires 0.0 <= alpha <= 1.0 && s.InUnitSquare() && det.InUnitSquare()
    ensures s.Smoothed(det, alpha).InUnitSquare()
  {
    var r := s.Smoothed(det, alpha);
    SmoothedSized(s, det, alpha);
    ScaleNonNegative(alpha, det.x); ScaleNonNegative(1.0 - alpha, s.x);
    ScaleNonNegative(alpha, det.y); ScaleNonNegative(1.0 - alpha, s.y);
    assert r.Right() == alpha * det.Right() + (1.0 - alpha) * s.Right();
    assert r.Bottom() == alpha * det.Bottom() + (1.0 - alpha) * s.Bottom();
    ScaleNonNegative(alpha, 1.0 - det.Right()); ScaleNonNegative(1.0 - alpha, 1.0 - s.Right());
    ScaleNonNegative(alpha, 1.0 - det.Bottom()); ScaleNonNegative(1.0 - alpha, 1.0 - s.Bottom());
  }

  /** The smoothed box itself covers the detection exactly when the old one already did, or
      when nothing of the old one is kept; for more than that, padding is needed (see below).
      A weight above 1 overshoots, and then the detection must have covered the old box. */
  lemma SmoothedCoversIff(s: BoundingBox, det: BoundingBox, alpha: real)
    ensures s.Smoothed(det, alpha).Covers(det)
       <==> alpha == 1.0 || if alpha < 1.0 then s.Covers(det) else det.Covers(s)
  {
    var r := s.Smoothed(det, alpha);
    SumBlends(s.x, s.width, det.x, det.width, alpha);
    SumBlends(s.y, s.height, det.y, det.height, alpha);
    BlendSide(r.Left(), s.Left(), det.Left(), alpha);
    BlendSide(r.Top(), s.Top(), det.Top(), alpha);
    BlendSide(r.Right(), s.Right(), det.Right(), alpha);
    BlendSide(r.Bottom(), s.Bottom(), det.Bottom(), alpha);
    hide BoundingBox.Smoothed, Blends;
  }

  lemma SumBlends(x: real, w: real, tx: real, tw: real, a: real)
    ensures Blends((a * tx + (1.0 - a) * x) + (a * tw + (1.0 - a) * w), x + w, tx + tw, a)
  {
  }

  /** On which side of its target an average lies. */
  lemma BlendSide(v': real, v: real, t: real, a: real)
    requires Blends(v', v, t, a)
    ensures v' <= t <==> a == 1.0 || if a < 1.0 then v <= t else t <= v
    ensures t <= v' <==> a == 1.0 || if a < 1.0 then t <= v else v <= t
  {
    assert v' - t == (1.0 - a) * (v - t);
    if a != 1.0 { SignKept(1.0 - a, v - t); }
  }

  // ---------- What padding makes up for ----------

  predicate Scaled(a: real, b: real, factor: real) { a == factor * b }

  /** Each edge coordinate of `now` is `factor` times as far from the detection as that of `before`. */
  predicate Nearer(now: BoundingBox, before: BoundingBox, det: BoundingBox, factor: real) {
    && Scaled(now.x - det.x, before.x - det.x, factor)
    && Scaled(now.y - det.y, before.y - det.y, factor)
    && Scaled(now.width - det.width, before.width - det.width, factor)
    && Scaled(now.height - det.height, before.height - det.height, factor)
  }

  lemma SmoothedNearer(s: BoundingBox, det: BoundingBox, alpha: real)
    ensures Nearer(s.Smoothed(det, alpha), s, det, 1.0 - alpha)
  {
  }

  lemma SmoothedLabels(s: BoundingBox, det: BoundingBox, alpha: real)
    ensures var r := s.Smoothed(det, alpha);
            r.confidence == s.confidence && r.classId == s.classId && r.timestampMs == s.timestampMs
  {
  }

  /** On one side: what is left of the distance is no more than the padding of a span. */
  predicate Reaches(distance: real, factor: real, span: real, ratio: real) {
    factor * distance <= span * ratio * 0.5
  }

  /** What is left of the distance by which the detection sticks out of `before` is on no side
      more than the padding. */
  predicate PaddingReaches(now: BoundingBox, before: BoundingBox, det: BoundingBox, factor: real, ratio: real) {
    && Reaches(before.Left() - det.Left(), factor, now.width, ratio)
    && Reaches(det.Right() - before.Right(), factor, now.width, ratio)
    && Reaches(before.Top() - det.Top(), factor, now.height, ratio)
    && Reaches(det.Bottom() - before.Bottom(), factor, now.height, ratio)
  }

  /** A box that has come nearer to a detection covers it, once padded, exactly when the padding
      makes up for what is left of the distance. */
  lemma PaddedCoversIff(now: BoundingBox, before: BoundingBox, det: BoundingBox, factor: real, ratio: real)
    requires now.InUnitSquare() && det.InUnitSquare() && 0.0 <= ratio && Nearer(now, before, det, factor)
    ensures now.Expanded(ratio).Covers(det) <==> PaddingReaches(now, before, det, factor, ratio)
  {
    hide BoundingBox.Expanded, Scaled, Reaches, Pads, Min, Max;
    NearerSpan(now.x, now.width, before.x, before.width, det.x, det.width, factor);
    NearerSpan(now.y, now.height, before.y, before.height, det.y, det.height, factor);
    var padX, padY, _, _ := PaddingOrder(now, now, ratio);
    ExpandedEdges(now, ratio, padX, padY);
    PadsReach(now, ratio, padX, padY);
    SpanPadded(now.x, now.width, before.x, before.width, det.x, det.width, factor, ratio, padX);
    SpanPadded(now.y, now.height, before.y, before.height, det.y, det.height, factor, ratio, padY);
  }

  /** `pad` is half the padding of a span. */
  predicate IsPad(pad: real, span: real, ratio: real) { pad == span * ratio * 0.5 }

  lemma PadsReach(b: BoundingBox, ratio: real, padX: real, padY: real)
    requires Pads(b, ratio, padX, padY)
    ensures IsPad(padX, b.width, ratio) && IsPad(padY, b.height, ratio)
  {
  }

  lemma SpanPadded(l': real, w': real, l: real, w: real, tl: real, tw: real, factor: real, ratio: real, pad: real)
    requires 0.0 <= tl && tl + tw <= 1.0 && 0.0 <= pad && IsPad(pad, w', ratio)
    requires Scaled(l' - tl, l - tl, factor) && Scaled(tl + tw - (l' + w'), tl + tw - (l + w), factor)
    ensures Max(0.0, l' - pad) <= tl <==> Reaches(l - tl, factor, w', ratio)
    ensures tl + tw <= Min(1.0, l' + w' + pad) <==> Reaches(tl + tw - (l + w), factor, w', ratio)
  {
    hide Scaled, Reaches, IsPad;
    ReachesIff(l' - tl, l - tl, factor, w', ratio, pad);
    ReachesIff(tl + tw - (l' + w'), tl + tw - (l + w), factor, w', ratio, pad);
  }

  lemma ReachesIff(distance': real, distance: real, factor: real, span: real, ratio: real, pad: real)
    requires Scaled(distance', distance, factor) && IsPad(pad, span, ratio)
    ensures Reaches(distance, factor, span, ratio) <==> distance' <= pad
  {
  }

  lemma NearerSpan(l': real, w': real, l: real, w: real, tl: real, tw: real, factor: real)
    requires Scaled(l' - tl, l - tl, factor) && Scaled(w' - tw, w - tw, factor)
    ensures Scaled(tl + tw - (l' + w'), tl + tw - (l + w), factor)
  {
  }

  /** The case of one smoothing step. */
  lemma SmoothedPaddedIff(s: BoundingBox, det: BoundingBox, alpha: real, ratio: real)
    requires s.InUnitSquare() && det.InUnitSquare() && 0.0 <= alpha <= 1.0 && 0.0 <= ratio
    ensures s.Smoothed(det, alpha).Expanded(ratio).Covers(det)
       <==> PaddingReaches(s.Smoothed(det, alpha), s, det, 1.0 - alpha, ratio)
  {
    hide BoundingBox.Smoothed, BoundingBox.Expanded, BoundingBox.Covers, BoundingBox.InUnitSquare;
    hide PaddingReaches, Nearer;
    SmoothedInUnitSquare(s, det, alpha);
    SmoothedNearer(s, det, alpha);
    PaddedCoversIff(s.Smoothed(det, alpha), s, det, 1.0 - alpha, ratio);
  }

  /** A box so near that the padding always makes up for the rest, wherever it came from: a
      matched shield sticks out of a detection by less than the detection's own size. */
  lemma NearCovers(now: BoundingBox, before: BoundingBox, det: BoundingBox, factor: real, ratio: real, threshold: real)
    requires now.InUnitSquare() && det.InUnitSquare() && 0.0 <= ratio && Nearer(now, before, det, factor)
    requires 0.0 <= threshold && before.Overlaps(det, threshold)
    requires 0.0 <= factor && factor * (1.0 + ratio * 0.5) <= ratio * 0.5
    ensures now.Expanded(ratio).Covers(det)
  {
    hide BoundingBox.Expanded, BoundingBox.InUnitSquare, BoundingBox.Covers, BoundingBox.Overlaps;
    hide Scaled, Reaches;
    OverlapHasArea(before, det, threshold);
    NearSpan(before.x, before.width, det.x, det.width, now.width, factor, ratio);
    NearSpan(before.y, before.height, det.y, det.height, now.height, factor, ratio);
    PaddedCoversIff(now, before, det, factor, ratio);
  }

  lemma NearSpan(l: real, w: real, tl: real, tw: real, w': real, factor: real, ratio: real)
    requires 0.0 <= factor && 0.0 <= ratio && factor * (1.0 + ratio * 0.5) <= ratio * 0.5
    requires 0.0 < w && 0.0 < tw && l < tl + tw && tl < l + w
    requires Scaled(w' - tw, w - tw, factor)
    ensures Reaches(l - tl, factor, w', ratio)
    ensures Reaches(tl + tw - (l + w), factor, w', ratio)
  {
    var half := ratio * 0.5;
    ScaleNonNegative(factor, tw - (l - tl));
    ScaleNonNegative(factor, tw - ((tl + tw) - (l + w)));
    ScaleNonNegative(factor, w);
    ScaleNonNegative(factor * w, half);
    ScaleNonNegative(tw, half - factor * (1.0 + half));
    assert w' == tw - factor * tw + factor * w;
    assert w' * half == tw * half - factor * tw * half + factor * w * half;
    assert tw * (half - factor * (1.0 + half)) == tw * half - factor * tw - factor * tw * half;
  }

  /** A shield and a detection that match at the daemon's threshold and where, after one step
      with the default weight, even the daemon's padding leaves part of the detection uncovered. */
  lemma SmoothedMisses() returns (s: BoundingBox, det: BoundingBox)
    ensures s == BoundingBox(0.0, 0.0, 0.4, 0.4, 1.0, 0, 0) && det == s.(x := 0.28)
    ensures s.InUnitSquare() && det.InUnitSquare() && s.Overlaps(det, 0.15)
    ensures !s.Smoothed(det, 0.7).Expanded(0.35).Covers(det)
  {
    s := BoundingBox(0.0, 0.0, 0.4, 0.4, 1.0, 0, 0);
    det := s.(x := 0.28);
    MissOverlaps(s, det);
    MissSticksOut(s, det);
    hide BoundingBox.Smoothed, BoundingBox.Expanded, BoundingBox.Covers, BoundingBox.Overlaps;
    SmoothedPaddedIff(s, det, 0.7, 0.35);
  }

  lemma MissOverlaps(s: BoundingBox, det: BoundingBox)
    requires s == BoundingBox(0.0, 0.0, 0.4, 0.4, 1.0, 0, 0) && det == s.(x := 0.28)
    ensures s.Overlaps(det, 0.15)
  {
    hide BoundingBox.Intersection, BoundingBox.Area;
    assert s.Intersection(det) == 0.048 by { AreaProducts(s, det); CommonPart(s, det); }
    assert s.Area() == 0.16 && det.Area() == 0.16 by { AreaProducts(s, det); AreaProducts(det, s); }
    assert 0.048 / 0.272 > 0.15;
  }

  lemma CommonPart(s: BoundingBox, det: BoundingBox)
    requires s == BoundingBox(0.0, 0.0, 0.4, 0.4, 1.0, 0, 0) && det == s.(x := 0.28)
    ensures s.OverlapWidth(det) == 0.12 && s.OverlapHeight(det) == 0.4
  {
  }

  lemma MissSticksOut(s: BoundingBox, det: BoundingBox)
    requires s == BoundingBox(0.0, 0.0, 0.4, 0.4, 1.0, 0, 0) && det == s.(x := 0.28)
    ensures !PaddingReaches(s.Smoothed(det, 0.7), s, det, 1.0 - 0.7, 0.35)
  {
    hide Reaches, BoundingBox.Smoothed;
    assert s.Smoothed(det, 0.7).width == 0.4 by { SmoothedSameWidth(s, det); }
    assert det.Right() - s.Right() == 0.28;
    assert 1.0 - 0.7 == 0.3;
    NotReached();
  }

  lemma SmoothedSameWidth(s: BoundingBox, det: BoundingBox)
    requires s.width == det.width
    ensures s.Smoothed(det, 0.7).width == s.width
  {
  }

  lemma NotReached()
    ensures !Reaches(0.28, 0.3, 0.4, 0.35)
  {
  }

  lemma SignKept(b: real, v: real)
    requires b != 0.0
    ensures b * v <= 0.0 <==> if b > 0.0 then v <= 0.0 else v >= 0.0
    ensures b * v >= 0.0 <==> if b > 0.0 then v >= 0.0 else v <= 0.0
    decreases b < 0.0
  {
    if b < 0.0 {
      SignKept(-b, v);
      assert -b * v == -(b * v);
    } else {
      if v > 0.0 { assert b * v > 0.0; }
      if v < 0.0 { assert b * v < 0.0; }
    }
  }
}
