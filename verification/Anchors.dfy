/** The pixel anchors of the shield tracker: points sampled just outside a shield, and the
    mean colour error they show on a later frame at a vertical offset. */
module Anchors {
  import opened Geometry
  import opened Frames

  datatype AnchorPixel = AnchorPixel(x: int, y: int, colour: Rgb)

  const NO_MATCH: real := 999.0
  const MARGIN: int := 14
  const SAMPLES: nat := 6

  predicate InFrame(frame: Frame, x: int, y: int) {
    0 <= x < frame.width && 0 <= y < frame.height
  }

  function Abs(i: int): nat { if i < 0 then -i else i }

  function ColourError(a: Rgb, b: Rgb): real {
    (Abs(a.r - b.r) + Abs(a.g - b.g) + Abs(a.b - b.b)) as real / 3.0
  }

  // ---------- Evaluating anchors ----------

  /** Sum of the errors of the anchors that fall inside the frame at offset `dy`. */
  function SumError(frame: Frame, anchors: seq<AnchorPixel>, dy: int): real
    requires frame.data.Some?
  {
    if anchors == [] then 0.0
    else
      var a := anchors[|anchors| - 1];
      SumError(frame, anchors[..|anchors| - 1], dy)
      + if InFrame(frame, a.x, a.y + dy) then ColourError(PixelRgb(frame, a.x, a.y + dy), a.colour) else 0.0
  }

  function ValidCount(frame: Frame, anchors: seq<AnchorPixel>, dy: int): nat {
    if anchors == [] then 0
    else
      var a := anchors[|anchors| - 1];
      ValidCount(frame, anchors[..|anchors| - 1], dy) + if InFrame(frame, a.x, a.y + dy) then 1 else 0
  }

  function Score(frame: Frame, anchors: seq<AnchorPixel>, dy: int): real {
    if frame.data.None? || anchors == [] || ValidCount(frame, anchors, dy) < 4 then NO_MATCH
    else SumError(frame, anchors, dy) / ValidCount(frame, anchors, dy) as real
  }

  method EvalAnchors(frame: Frame, anchors: seq<AnchorPixel>, dy: int) returns (score: real)
    ensures score == Score(frame, anchors, dy)
  {
    if frame.data.None? || anchors == [] { return NO_MATCH; }
    var sumDiff, validCount := 0.0, 0;
    var i := 0;
    while i < |anchors|
      invariant 0 <= i <= |anchors|
      invariant sumDiff == SumError(frame, anchors[..i], dy)
      invariant validCount == ValidCount(frame, anchors[..i], dy)
    {
      var pt := anchors[i];
      assert anchors[..i + 1][..i] == anchors[..i];
      var ny := pt.y + dy;
      if 0 <= ny < frame.height && 0 <= pt.x < frame.width {
        sumDiff := sumDiff + ColourError(PixelRgb(frame, pt.x, ny), pt.colour);
        validCount := validCount + 1;
      }
      i := i + 1;
    }
    assert anchors[..i] == anchors;
    score := if validCount >= 4 then sumDiff / validCount as real else NO_MATCH;
  }

  // ---------- Moving anchors ----------

  function Shifted(anchors: seq<AnchorPixel>, dy: int): (r: seq<AnchorPixel>)
    ensures |r| == |anchors| && forall k :: 0 <= k < |r| ==> r[k] == anchors[k].(y := anchors[k].y + dy)
  {
    seq(|anchors|, k requires 0 <= k < |anchors| => anchors[k].(y := anchors[k].y + dy))
  }

  /** Anchors moved by `dy` score at any further offset what the originals score at the sum;
      so after following a scroll they fit the scrolled frame as well as the test showed. */
  lemma {:induction false} ShiftedSums(frame: Frame, anchors: seq<AnchorPixel>, dy: int, further: int)
    requires frame.data.Some?
    ensures SumError(frame, Shifted(anchors, dy), further) == SumError(frame, anchors, dy + further)
    ensures ValidCount(frame, Shifted(anchors, dy), further) == ValidCount(frame, anchors, dy + further)
  {
    if anchors != [] {
      var n := |anchors| - 1;
      ShiftedSums(frame, anchors[..n], dy, further);
      assert Shifted(anchors, dy)[..n] == Shifted(anchors[..n], dy);
    }
  }

  lemma ShiftedScore(frame: Frame, anchors: seq<AnchorPixel>, dy: int, further: int)
    ensures Score(frame, Shifted(anchors, dy), further) == Score(frame, anchors, dy + further)
  {
    if frame.data.Some? { ShiftedSums(frame, anchors, dy, further); }
  }

  /** A score below the mismatch value rests on at least four anchors inside the frame. */
  lemma {:induction false} ScoreNeedsFour(frame: Frame, anchors: seq<AnchorPixel>, dy: int)
    requires Score(frame, anchors, dy) < NO_MATCH
    ensures 4 <= ValidCount(frame, anchors, dy) <= |anchors|
  {
    CountBound(frame, anchors, dy);
  }

  lemma {:induction false} CountBound(frame: Frame, anchors: seq<AnchorPixel>, dy: int)
    ensures ValidCount(frame, anchors, dy) <= |anchors|
  {
    if anchors != [] { CountBound(frame, anchors[..|anchors| - 1], dy); }
  }

  // ---------- Sampling anchors ----------

  /** The pixel window of the padded shield. */
  datatype Window = Window(x1: int, y1: int, x2: int, y2: int)

  function ClampInt(v: int, lo: int, hi: int): int
    requires lo <= hi
  {
    if v < lo then lo else if hi < v then hi else v
  }

  /** A coordinate in pixels; a padded box has no negative one, so the cast to int is the floor. */
  function ToPixel(v: real, side: nat): int
    requires side > 0
  {
    ClampInt((v * side as real).Floor, 0, side - 1)
  }

  function PixelWindow(frame: Frame, box: BoundingBox, padding: real): Window
    requires HasPixels(frame)
  {
    var exp := box.Expanded(padding);
    Window(ToPixel(exp.x, frame.width), ToPixel(exp.y, frame.height),
           ToPixel(exp.x + exp.width, frame.width), ToPixel(exp.y + exp.height, frame.height))
  }

  /** The anchor at a point, when the point is inside the frame. */
  function AnchorAt(frame: Frame, x: int, y: int): (r: seq<AnchorPixel>)
    requires frame.data.Some?
    ensures |r| == if InFrame(frame, x, y) then 1 else 0
  {
    if InFrame(frame, x, y) then [AnchorPixel(x, y, PixelRgb(frame, x, y))] else []
  }

  /** The i-th of SAMPLES points strictly between `from` and `to`. */
  function Between(from: int, to: int, i: nat): int
    requires from <= to
  {
    from + i * (to - from) / (SAMPLES + 1)
  }

  /** The first n pairs above and below the window. */
  function RowAnchors(frame: Frame, w: Window, n: nat): seq<AnchorPixel>
    requires frame.data.Some? && w.x1 <= w.x2
  {
    if n == 0 then []
    else
      var px := Between(w.x1, w.x2, n);
      RowAnchors(frame, w, n - 1) + AnchorAt(frame, px, w.y1 - MARGIN) + AnchorAt(frame, px, w.y2 + MARGIN)
  }

  /** The first n pairs left and right of the window. */
  function ColumnAnchors(frame: Frame, w: Window, n: nat): seq<AnchorPixel>
    requires frame.data.Some? && w.y1 <= w.y2
  {
    if n == 0 then []
    else
      var py := Between(w.y1, w.y2, n);
      ColumnAnchors(frame, w, n - 1) + AnchorAt(frame, w.x1 - MARGIN, py) + AnchorAt(frame, w.x2 + MARGIN, py)
  }

  lemma WindowOrdered(frame: Frame, box: BoundingBox, padding: real)
    requires HasPixels(frame)
    ensures var w := PixelWindow(frame, box, padding);
            0 <= w.x1 <= w.x2 < frame.width && 0 <= w.y1 <= w.y2 < frame.height
  {
    hide ToPixel, BoundingBox.Expanded;
    var exp := box.Expanded(padding);
    PaddedNotNegative(box, padding);
    ToPixelMonotone(exp.x, exp.x + exp.width, frame.width);
    ToPixelMonotone(exp.y, exp.y + exp.height, frame.height);
  }

  lemma PaddedNotNegative(box: BoundingBox, padding: real)
    ensures box.Expanded(padding).Sized()
  {
  }

  lemma ToPixelMonotone(a: real, b: real, side: nat)
    requires a <= b && side > 0
    ensures 0 <= ToPixel(a, side) <= ToPixel(b, side) < side
  {
    ScaleNonNegative(b - a, side as real);
    assert (b - a) * side as real == b * side as real - a * side as real;
    assert (a * side as real).Floor <= (b * side as real).Floor;
  }

  function Sampled(frame: Frame, box: BoundingBox, padding: real): seq<AnchorPixel> {
    if !HasPixels(frame) then []
    else
      WindowOrdered(frame, box, padding);
      var w := PixelWindow(frame, box, padding);
      RowAnchors(frame, w, SAMPLES) + ColumnAnchors(frame, w, SAMPLES)
  }

  method SampleRows(frame: Frame, w: Window) returns (pts: seq<AnchorPixel>)
    requires frame.data.Some? && w.x1 <= w.x2
    ensures pts == RowAnchors(frame, w, SAMPLES)
  {
    pts := [];
    for i := 1 to SAMPLES + 1
      invariant pts == RowAnchors(frame, w, i - 1)
    {
      var px := w.x1 + i * (w.x2 - w.x1) / (SAMPLES + 1);
      pts := pts + AnchorAt(frame, px, w.y1 - MARGIN);
      pts := pts + AnchorAt(frame, px, w.y2 + MARGIN);
    }
  }

  method SampleColumns(frame: Frame, w: Window) returns (pts: seq<AnchorPixel>)
    requires frame.data.Some? && w.y1 <= w.y2
    ensures pts == ColumnAnchors(frame, w, SAMPLES)
  {
    pts := [];
    for i := 1 to SAMPLES + 1
      invariant pts == ColumnAnchors(frame, w, i - 1)
    {
      var py := w.y1 + i * (w.y2 - w.y1) / (SAMPLES + 1);
      pts := pts + AnchorAt(frame, w.x1 - MARGIN, py);
      pts := pts + AnchorAt(frame, w.x2 + MARGIN, py);
    }
  }

  method SampleAnchors(frame: Frame, box: BoundingBox, padding: real) returns (pts: seq<AnchorPixel>)
    ensures pts == Sampled(frame, box, padding)
  {
    if !HasPixels(frame) { return []; }
    hide PixelWindow;
    WindowOrdered(frame, box, padding);
    var w := PixelWindow(frame, box, padding);
    var rows := SampleRows(frame, w);
    var columns := SampleColumns(frame, w);
    pts := rows + columns;
  }

  /** An anchor that shows its own colour on the frame. */
  ghost predicate Exact(frame: Frame, a: AnchorPixel)
    requires frame.data.Some?
  {
    InFrame(frame, a.x, a.y) && a.colour == PixelRgb(frame, a.x, a.y)
  }

  lemma {:induction false} RowsExact(frame: Frame, w: Window, n: nat)
    requires frame.data.Some? && w.x1 <= w.x2
    ensures forall a :: a in RowAnchors(frame, w, n) ==> Exact(frame, a)
  {
    if n > 0 { RowsExact(frame, w, n - 1); }
  }

  lemma {:induction false} ColumnsExact(frame: Frame, w: Window, n: nat)
    requires frame.data.Some? && w.y1 <= w.y2
    ensures forall a :: a in ColumnAnchors(frame, w, n) ==> Exact(frame, a)
  {
    if n > 0 { ColumnsExact(frame, w, n - 1); }
  }

  lemma {:induction false} ExactSums(frame: Frame, anchors: seq<AnchorPixel>)
    requires frame.data.Some? && forall a :: a in anchors ==> Exact(frame, a)
    ensures SumError(frame, anchors, 0) == 0.0 && ValidCount(frame, anchors, 0) == |anchors|
  {
    if anchors != [] {
      ExactSums(frame, anchors[..|anchors| - 1]);
      assert anchors[|anchors| - 1] in anchors;
    }
  }

  /** Anchors just sampled score 0 on their own frame, provided there are four of them. */
  lemma SampledScoresZero(frame: Frame, box: BoundingBox, padding: real)
    requires |Sampled(frame, box, padding)| >= 4
    ensures Score(frame, Sampled(frame, box, padding), 0) == 0.0
  {
    WindowOrdered(frame, box, padding);
    var w := PixelWindow(frame, box, padding);
    RowsExact(frame, w, SAMPLES);
    ColumnsExact(frame, w, SAMPLES);
    ExactSums(frame, Sampled(frame, box, padding));
  }

  /** How many sides of the window keep the margin inside the frame. */
  function RoomySides(frame: Frame, w: Window): nat {
    (if w.y1 >= MARGIN then 1 else 0) + (if w.y2 + MARGIN < frame.height then 1 else 0)
    + (if w.x1 >= MARGIN then 1 else 0) + (if w.x2 + MARGIN < frame.width then 1 else 0)
  }

  lemma BetweenInside(from: int, to: int, i: nat)
    requires from <= to && i <= SAMPLES
    ensures from <= Between(from, to, i) <= to
  {
    var span := to - from;
    assert 0 <= i * span <= (SAMPLES + 1) * span;
  }

  lemma {:induction false} RowCount(frame: Frame, w: Window, n: nat)
    requires HasPixels(frame) && 0 <= w.x1 <= w.x2 < frame.width && 0 <= w.y1 <= w.y2 < frame.height && n <= SAMPLES
    ensures |RowAnchors(frame, w, n)|
         == n * ((if w.y1 >= MARGIN then 1 else 0) + (if w.y2 + MARGIN < frame.height then 1 else 0))
  {
    if n > 0 {
      RowCount(frame, w, n - 1);
      BetweenInside(w.x1, w.x2, n);
    }
  }

  lemma {:induction false} ColumnCount(frame: Frame, w: Window, n: nat)
    requires HasPixels(frame) && 0 <= w.x1 <= w.x2 < frame.width && 0 <= w.y1 <= w.y2 < frame.height && n <= SAMPLES
    ensures |ColumnAnchors(frame, w, n)|
         == n * ((if w.x1 >= MARGIN then 1 else 0) + (if w.x2 + MARGIN < frame.width then 1 else 0))
  {
    if n > 0 {
      ColumnCount(frame, w, n - 1);
      BetweenInside(w.y1, w.y2, n);
    }
  }

  /** Exactly six anchors are found per side of the padded shield that is at least fourteen
      pixels away from the frame's border; so sampling yields the four anchors a score needs
      exactly when some side has that room. */
  lemma SampledCount(frame: Frame, box: BoundingBox, padding: real)
    requires HasPixels(frame)
    ensures |Sampled(frame, box, padding)| == SAMPLES * RoomySides(frame, PixelWindow(frame, box, padding))
    ensures |Sampled(frame, box, padding)| >= 4 <==> RoomySides(frame, PixelWindow(frame, box, padding)) > 0
  {
    WindowOrdered(frame, box, padding);
    var w := PixelWindow(frame, box, padding);
    RowCount(frame, w, SAMPLES);
    ColumnCount(frame, w, SAMPLES);
  }

  // ---------- Boxes with room for anchors ----------

  datatype Side = LeftSide | TopSide | RightSide | BottomSide

  /** The ends of a padded span, before they are clamped to the screen. */
  function PaddedLow(from: real, length: real, padding: real): real { from - length * padding * 0.5 }

  function PaddedHigh(from: real, length: real, padding: real): real { from + length + length * padding * 0.5 }

  predicate LowRoom(v: real, side: nat) { MARGIN < side && MARGIN as real / side as real <= v }

  predicate HighRoom(v: real, side: nat) { MARGIN < side && v <= 1.0 - (MARGIN + 1) as real / side as real }

  /** The padded box stays the margin away from this side's border: a condition on the box that
      is linear in its coordinates. */
  predicate Room(side: Side, box: BoundingBox, frame: Frame, padding: real) {
    box.Sized() &&
    match side
    case LeftSide => LowRoom(PaddedLow(box.x, box.width, padding), frame.width)
    case TopSide => LowRoom(PaddedLow(box.y, box.height, padding), frame.height)
    case RightSide => HighRoom(PaddedHigh(box.x, box.width, padding), frame.width)
    case BottomSide => HighRoom(PaddedHigh(box.y, box.height, padding), frame.height)
  }

  lemma NearEdge(v: real, side: nat)
    requires LowRoom(v, side)
    ensures ToPixel(v, side) >= MARGIN
  {
    QuotientAtMost(MARGIN as real, side as real, v);
  }

  lemma LowRoomPositive(v: real, side: nat)
    requires LowRoom(v, side)
    ensures v >= 0.0 && side > 0
  {
    QuotientAtMost(MARGIN as real, side as real, 0.0);
  }

  lemma FarEdge(v: real, side: nat)
    requires HighRoom(v, side)
    ensures ToPixel(v, side) + MARGIN < side
  {
    QuotientAtMost((MARGIN + 1) as real, side as real, 1.0 - v);
    assert (1.0 - v) * side as real == side as real - v * side as real;
  }

  /** Zero is far enough from the far border, and nothing beyond 1 is. */
  lemma HighRoomRange(v: real, side: nat)
    requires HighRoom(v, side)
    ensures HighRoom(0.0, side) && v <= 1.0 && side > 0
  {
    QuotientAtMost((MARGIN + 1) as real, side as real, 1.0);
    QuotientAtMost((MARGIN + 1) as real, side as real, 0.0);
  }

  /** The clamped ends of a padded span, as `Expanded` computes them. */
  lemma ExpandedSpans(box: BoundingBox, padding: real)
    ensures var exp := box.Expanded(padding);
            && exp.x == Max(0.0, PaddedLow(box.x, box.width, padding))
            && exp.y == Max(0.0, PaddedLow(box.y, box.height, padding))
            && exp.x + exp.width == Max(exp.x, Min(1.0, PaddedHigh(box.x, box.width, padding)))
            && exp.y + exp.height == Max(exp.y, Min(1.0, PaddedHigh(box.y, box.height, padding)))
  {
  }

  lemma PaddedOrder(from: real, length: real, padding: real)
    requires 0.0 <= length && 0.0 <= padding
    ensures PaddedLow(from, length, padding) <= PaddedHigh(from, length, padding)
  {
    ScaleNonNegative(length, padding);
  }

  lemma RoomyWindow(side: Side, box: BoundingBox, frame: Frame, padding: real)
    requires HasPixels(frame) && 0.0 <= padding && Room(side, box, frame, padding)
    ensures RoomySides(frame, PixelWindow(frame, box, padding)) > 0
  {
    hide BoundingBox.Expanded, PaddedLow, PaddedHigh, LowRoom, HighRoom, ToPixel;
    ExpandedSpans(box, padding);
    PaddedOrder(box.x, box.width, padding);
    PaddedOrder(box.y, box.height, padding);
    var exp := box.Expanded(padding);
    match side
    case LeftSide =>
      LowRoomPositive(PaddedLow(box.x, box.width, padding), frame.width);
      NearEdge(exp.x, frame.width);
    case TopSide =>
      LowRoomPositive(PaddedLow(box.y, box.height, padding), frame.height);
      NearEdge(exp.y, frame.height);
    case RightSide =>
      HighRoomRange(PaddedHigh(box.x, box.width, padding), frame.width);
      FarEdge(exp.x + exp.width, frame.width);
    case BottomSide =>
      HighRoomRange(PaddedHigh(box.y, box.height, padding), frame.height);
      FarEdge(exp.y + exp.height, frame.height);
  }

  lemma RoomSampled(side: Side, box: BoundingBox, frame: Frame, padding: real)
    requires HasPixels(frame) && 0.0 <= padding && Room(side, box, frame, padding)
    ensures |Sampled(frame, box, padding)| >= 4
  {
    hide Sampled, Room, PixelWindow, RoomySides;
    SampledCount(frame, box, padding);
    RoomyWindow(side, box, frame, padding);
  }

  /** The padded ends of a smoothed span are averages of the padded ends. */
  lemma PaddedBlend(x': real, w': real, x: real, w: real, tx: real, tw: real, a: real, p: real)
    requires Blends(x', x, tx, a) && Blends(w', w, tw, a)
    ensures Blends(PaddedLow(x', w', p), PaddedLow(x, w, p), PaddedLow(tx, tw, p), a)
    ensures Blends(PaddedHigh(x', w', p), PaddedHigh(x, w, p), PaddedHigh(tx, tw, p), a)
  {
    assert w' * p == a * (tw * p) + (1.0 - a) * (w * p);
  }

  lemma BlendBetween(v': real, v: real, t: real, a: real, lo: real)
    requires Blends(v', v, t, a) && 0.0 <= a <= 1.0
    ensures lo <= v && lo <= t ==> lo <= v'
    ensures v <= lo && t <= lo ==> v' <= lo
  {
    if lo <= v && lo <= t {
      ScaleNonNegative(1.0 - a, v - lo);
      ScaleNonNegative(a, t - lo);
    }
    if v <= lo && t <= lo {
      ScaleNonNegative(1.0 - a, lo - v);
      ScaleNonNegative(a, lo - t);
    }
  }

  lemma RoomBlend(v': real, v: real, t: real, a: real, side: nat)
    requires Blends(v', v, t, a) && 0.0 <= a <= 1.0
    ensures LowRoom(v, side) && LowRoom(t, side) ==> LowRoom(v', side)
    ensures HighRoom(v, side) && HighRoom(t, side) ==> HighRoom(v', side)
  {
    if MARGIN < side {
      BlendBetween(v', v, t, a, MARGIN as real / side as real);
      BlendBetween(v', v, t, a, 1.0 - (MARGIN + 1) as real / side as real);
    }
    hide Blends;
  }

  /** Smoothing keeps the room that both boxes have. */
  lemma RoomSmoothed(side: Side, s: BoundingBox, det: BoundingBox, frame: Frame, padding: real, alpha: real)
    requires 0.0 <= alpha <= 1.0 && Room(side, s, frame, padding) && Room(side, det, frame, padding)
    ensures Room(side, s.Smoothed(det, alpha), frame, padding)
  {
    hide PaddedLow, PaddedHigh, LowRoom, HighRoom, Blends, BoundingBox.Smoothed;
    var r := s.Smoothed(det, alpha);
    SmoothedSized(s, det, alpha);
    SmoothedBlends(s, det, alpha);
    PaddedBlend(r.x, r.width, s.x, s.width, det.x, det.width, alpha, padding);
    PaddedBlend(r.y, r.height, s.y, s.height, det.y, det.height, alpha, padding);
    RoomBlend(PaddedLow(r.x, r.width, padding), PaddedLow(s.x, s.width, padding),
              PaddedLow(det.x, det.width, padding), alpha, frame.width);
    RoomBlend(PaddedLow(r.y, r.height, padding), PaddedLow(s.y, s.height, padding),
              PaddedLow(det.y, det.height, padding), alpha, frame.height);
    RoomBlend(PaddedHigh(r.x, r.width, padding), PaddedHigh(s.x, s.width, padding),
              PaddedHigh(det.x, det.width, padding), alpha, frame.width);
    RoomBlend(PaddedHigh(r.y, r.height, padding), PaddedHigh(s.y, s.height, padding),
              PaddedHigh(det.y, det.height, padding), alpha, frame.height);
  }
}
