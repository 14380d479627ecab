/** `OnnxDetector::detect` after inference: class selection, un-mapping of letterboxed boxes,
    and greedy non-maximum suppression. */
module Detection {
  import opened Frames
  import opened Geometry

  datatype Letterbox = Letterbox(scale: real, padX: int, padY: int, scaledW: int, scaledH: int, origW: nat, origH: nat)

  datatype DetectorConfig = DetectorConfig(confidenceThreshold: real, nmsIouThreshold: real, inputWidth: nat,
                                           inputHeight: nat)

  const MIN_SIZE: real := 0.005

  predicate IsExplicitClass(classId: int) { classId in {0, 2, 3, 4, 6, 13, 14, 15, 16, 17} }

  // ---------- Class selection ----------

  /** A model output: `4 + classes` rows of `cols` proposals in row-major order. */
  datatype Output = Output(rows: nat, cols: nat, data: seq<real>)

  predicate WellFormed(o: Output) { |o.data| == o.rows * o.cols }

  lemma CellInside(o: Output, row: nat, col: nat)
    requires WellFormed(o) && row < o.rows && col < o.cols
    ensures row * o.cols + col < |o.data|
  {
    MulMonotone(row + 1, o.rows, o.cols);
    assert (row + 1) * o.cols == row * o.cols + o.cols;
  }

  function Cell(o: Output, row: nat, col: nat): real
    requires WellFormed(o) && row < o.rows && col < o.cols
  {
    CellInside(o, row, col);
    o.data[row * o.cols + col]
  }

  /** The rows after the four coordinates hold one score a class. */
  function Classes(o: Output): nat { if o.rows < 4 then 0 else o.rows - 4 }

  function Score(o: Output, col: nat, c: nat): real
    requires WellFormed(o) && c < Classes(o) && col < o.cols
  {
    Cell(o, 4 + c, col)
  }

  /** The best score among the first n classes and its class; -1 while no score is positive. */
  function Best(o: Output, col: nat, n: nat): (r: (real, int))
    requires WellFormed(o) && n <= Classes(o) && col < o.cols
    ensures -1 <= r.1 < n
  {
    if n == 0 then (0.0, -1)
    else
      var (score, best) := Best(o, col, n - 1);
      if Score(o, col, n - 1) > score then (Score(o, col, n - 1), n - 1) else (score, best)
  }

  method ArgMax(o: Output, col: nat) returns (maxScore: real, bestClass: int)
    requires WellFormed(o) && col < o.cols
    ensures (maxScore, bestClass) == Best(o, col, Classes(o))
  {
    hide Score;
    maxScore, bestClass := 0.0, -1;
    for c := 0 to Classes(o)
      invariant (maxScore, bestClass) == Best(o, col, c)
    {
      var score := Score(o, col, c);
      if score > maxScore { maxScore, bestClass := score, c; }
    }
  }

  /** The selected class is the first with the largest score, when that is positive. */
  lemma {:induction false} BestIsFirstMaximum(o: Output, col: nat, n: nat)
    requires WellFormed(o) && n <= Classes(o) && col < o.cols
    ensures var (score, best) := Best(o, col, n);
            && 0.0 <= score && (best == -1 <==> score == 0.0) && -1 <= best < n
            && (forall c: nat :: c < n ==> Score(o, col, c) <= score)
            && (best >= 0 ==> Score(o, col, best) == score && forall c: nat :: c < best ==> Score(o, col, c) < score)
  {
    hide Score;
    if n > 0 { BestIsFirstMaximum(o, col, n - 1); }
  }

  // ---------- Un-mapping ----------

  function SpanOf(letterboxed: int, fallback: nat): real {
    if letterboxed > 0 then letterboxed as real else fallback as real
  }

  /** One axis: from letterbox pixels to the frame's unit interval, clamped. */
  function UnmapAxis(centre: real, size: real, pad: int, span: real): (real, real)
    requires span > 0.0
  {
    var c, s := (centre - pad as real) / span, size / span;
    var from := Clamp(c - s * 0.5, 0.0, 1.0);
    (from, Clamp(s, 0.0, 1.0 - from))
  }

  /** Both divisors are positive; the preprocessor never scales to less than one pixel. */
  predicate Spans(letterbox: Letterbox, config: DetectorConfig) {
    SpanOf(letterbox.scaledW, config.inputWidth) > 0.0 && SpanOf(letterbox.scaledH, config.inputHeight) > 0.0
  }

  function Unmap(letterbox: Letterbox, config: DetectorConfig, cx: real, cy: real, w: real, h: real,
                 confidence: real, classId: int): BoundingBox
    requires Spans(letterbox, config)
  {
    var (x, width) := UnmapAxis(cx, w, letterbox.padX, SpanOf(letterbox.scaledW, config.inputWidth));
    var (y, height) := UnmapAxis(cy, h, letterbox.padY, SpanOf(letterbox.scaledH, config.inputHeight));
    BoundingBox(x, y, width, height, confidence, classId, 0)
  }

  /** p is a visible coordinate between lo and hi. */
  predicate Visible(p: real, lo: real, hi: real) { 0.0 <= p <= 1.0 && lo <= p <= hi }

  /** The length of the visible part of a span. */
  function VisibleLength(left: real, right: real): real { Max(0.0, Min(right, 1.0) - Max(left, 0.0)) }

  /** `axis` starts at the first visible point of the true span (or at the border it lies beyond),
      stays inside the unit interval and covers every visible point; and it is no longer than the
      visible part exactly when the true span is not cut off at 0, or reaches 1, or is empty. */
  ghost predicate Fits(axis: (real, real), left: real, right: real) {
    && axis.0 == Clamp(left, 0.0, 1.0) && 0.0 <= axis.1 && axis.0 + axis.1 <= 1.0
    && (forall p: real :: Visible(p, left, right) ==> Visible(p, axis.0, axis.0 + axis.1))
    && (axis.1 == VisibleLength(left, right) <==> left >= 0.0 || right >= 1.0 || right <= left)
  }

  lemma UnmapAxisCovers(centre: real, size: real, pad: int, span: real)
    requires span > 0.0
    ensures var c, s := (centre - pad as real) / span, size / span;
            Fits(UnmapAxis(centre, size, pad, span), c - s * 0.5, c + s * 0.5)
  {
    ClampedSpanFits((centre - pad as real) / span, size / span);
  }

  /** One such span: it reaches from -0.05 to 0.05, and what is kept of it ends at 0.1. */
  lemma UnmapTooWide()
    ensures UnmapAxis(0.0, 10.0, 0, 100.0) == (0.0, 0.1)
  {
  }

  /** A span from `left` to `right` that is kept as a candidate's side: long enough, and starting
      early enough. */
  predicate IsKept(left: real, right: real) { right - left > 0.005 && left < 0.995 }

  /** A span that lies before 0 and is kept all the same. */
  predicate Phantom(left: real, right: real) { right <= 0.0 && right - left > 0.005 }

  /** A span is kept although nothing of it is visible exactly when it lies before 0 and is
      long enough: the length is not cut when the start is. */
  lemma PhantomIff(c: real, s: real)
    ensures var left, right, from := c - s * 0.5, c + s * 0.5, Clamp(c - s * 0.5, 0.0, 1.0);
            && (Clamp(s, 0.0, 1.0 - from) > MIN_SIZE <==> IsKept(left, right))
            && (IsKept(left, right) && VisibleLength(left, right) == 0.0 <==> Phantom(left, right))
  {
  }

  lemma ClampedSpanFits(c: real, s: real)
    ensures var from := Clamp(c - s * 0.5, 0.0, 1.0);
            Fits((from, Clamp(s, 0.0, 1.0 - from)), c - s * 0.5, c + s * 0.5)
  {
  }

  /** Every un-mapped box lies in the unit square. */
  lemma UnmapInUnitSquare(letterbox: Letterbox, config: DetectorConfig, cx: real, cy: real, w: real, h: real,
                          confidence: real, classId: int)
    requires Spans(letterbox, config)
    ensures Unmap(letterbox, config, cx, cy, w, h, confidence, classId).InUnitSquare()
  {
    UnmapAxisCovers(cx, w, letterbox.padX, SpanOf(letterbox.scaledW, config.inputWidth));
    UnmapAxisCovers(cy, h, letterbox.padY, SpanOf(letterbox.scaledH, config.inputHeight));
    hide UnmapAxis;
  }

  /** Where a box of the frame lies in the letterboxed input: centre and size in pixels. */
  function MapAxis(from: real, length: real, pad: int, span: real): (real, real) {
    (pad as real + (from + length * 0.5) * span, length * span)
  }

  lemma QuotientOfProduct(n: real, a: real, b: real)
    requires b != 0.0 && n == a * b
    ensures n / b == a
  {
  }

  /** Un-mapping a letterboxed box gives a visible part that covers the box's visible points;
      a box that was visible as a whole comes back unchanged. */
  lemma UnmapMap(from: real, length: real, pad: int, span: real)
    requires span > 0.0
    ensures var (centre, size) := MapAxis(from, length, pad, span);
            Fits(UnmapAxis(centre, size, pad, span), from, from + length)
    ensures 0.0 <= from && 0.0 <= length && from + length <= 1.0 ==>
              var (centre, size) := MapAxis(from, length, pad, span);
              UnmapAxis(centre, size, pad, span) == (from, length)
  {
    var (centre, size) := MapAxis(from, length, pad, span);
    QuotientOfProduct(centre - pad as real, from + length * 0.5, span);
    QuotientOfProduct(size, length, span);
    ClampedSpanFits(from + length * 0.5, length);
    HalfBack(from, length);
  }

  lemma HalfBack(from: real, length: real)
    ensures from + length * 0.5 - length * 0.5 == from
    ensures from + length * 0.5 + length * 0.5 == from + length
  {
  }

  // ---------- Candidates ----------

  /** The candidate of one proposal, if its class counts and it is confident and large enough. */
  function Candidate(o: Output, col: nat, letterbox: Letterbox, config: DetectorConfig): (r: seq<BoundingBox>)
    requires WellFormed(o) && col < o.cols && Spans(letterbox, config)
    ensures |r| <= 1
  {
    var (score, best) := Best(o, col, Classes(o));
    if score >= config.confidenceThreshold && IsExplicitClass(best) then
      var box := Unmap(letterbox, config, Cell(o, 0, col), Cell(o, 1, col), Cell(o, 2, col), Cell(o, 3, col),
                       score, best);
      if box.width > MIN_SIZE && box.height > MIN_SIZE then [box] else []
    else []
  }

  function Candidates(o: Output, n: nat, letterbox: Letterbox, config: DetectorConfig): seq<BoundingBox>
    requires WellFormed(o) && n <= o.cols && Spans(letterbox, config)
  {
    if n == 0 then [] else Candidates(o, n - 1, letterbox, config) + Candidate(o, n - 1, letterbox, config)
  }

  lemma {:induction false} CandidatesInUnitSquare(o: Output, n: nat, letterbox: Letterbox, config: DetectorConfig)
    requires WellFormed(o) && n <= o.cols && Spans(letterbox, config)
    ensures forall b :: b in Candidates(o, n, letterbox, config) ==>
              b.InUnitSquare() && b.confidence >= config.confidenceThreshold && IsExplicitClass(b.classId)
  {
    hide Cell, Score, UnmapAxis, BoundingBox.InUnitSquare;
    if n > 0 {
      CandidatesInUnitSquare(o, n - 1, letterbox, config);
      var (score, best) := Best(o, n - 1, Classes(o));
      if best >= 0 {
        UnmapInUnitSquare(letterbox, config, Cell(o, 0, n - 1), Cell(o, 1, n - 1), Cell(o, 2, n - 1), Cell(o, 3, n - 1),
                          score, best);
      }
    }
  }

  /** Where a proposal truly begins and ends along one axis, in the frame's unit interval. */
  function TrueSpan(centre: real, size: real, pad: int, span: real): (real, real)
    requires span > 0.0
  {
    var c, s := (centre - pad as real) / span, size / span;
    (c - s * 0.5, c + s * 0.5)
  }

  /** An entry of the output by its index. */
  function Raw(o: Output, i: nat): real { if i < |o.data| then o.data[i] else 0.0 }

  lemma RawCell(o: Output, row: nat, col: nat)
    requires WellFormed(o) && row < o.rows && col < o.cols
    ensures Cell(o, row, col) == Raw(o, row * o.cols + col)
  {
    CellInside(o, row, col);
  }

  /** The first four rows hold centre and size of a proposal in letterbox pixels. */
  function TrueX(o: Output, col: nat, letterbox: Letterbox, config: DetectorConfig): (real, real)
    requires Spans(letterbox, config)
  {
    TrueSpan(Raw(o, col), Raw(o, 2 * o.cols + col), letterbox.padX,
             if letterbox.scaledW > 0 then letterbox.scaledW as real else config.inputWidth as real)
  }

  function TrueY(o: Output, col: nat, letterbox: Letterbox, config: DetectorConfig): (real, real)
    requires Spans(letterbox, config)
  {
    TrueSpan(Raw(o, o.cols + col), Raw(o, 3 * o.cols + col), letterbox.padY,
             if letterbox.scaledH > 0 then letterbox.scaledH as real else config.inputHeight as real)
  }

  predicate Wanted(o: Output, col: nat, config: DetectorConfig)
    requires WellFormed(o) && col < o.cols
  {
    var (score, best) := Best(o, col, Classes(o));
    score >= config.confidenceThreshold && IsExplicitClass(best)
  }

  /** A proposal becomes a candidate exactly when its class is wanted and both spans are kept; and
      no part of the candidate is visible exactly when one of its spans is a phantom. */
  lemma InvisibleIff(o: Output, col: nat, letterbox: Letterbox, config: DetectorConfig)
    requires WellFormed(o) && col < o.cols && 4 <= o.rows && Spans(letterbox, config)
    ensures var (l, r) := TrueX(o, col, letterbox, config);
            var (t, b) := TrueY(o, col, letterbox, config);
            && (Candidate(o, col, letterbox, config) != [] <==> Wanted(o, col, config) && IsKept(l, r) && IsKept(t, b))
            && (Candidate(o, col, letterbox, config) != [] ==>
                  (VisibleLength(l, r) * VisibleLength(t, b) == 0.0 <==> Phantom(l, r) || Phantom(t, b)))
  {
    FirstRows(o, col);
    hide Cell, Raw, Best, IsKept, Phantom, VisibleLength;
    var (l, r) := TrueX(o, col, letterbox, config);
    var (t, b) := TrueY(o, col, letterbox, config);
    SpanKept(Cell(o, 0, col), Cell(o, 2, col), letterbox.padX, SpanOf(letterbox.scaledW, config.inputWidth));
    SpanKept(Cell(o, 1, col), Cell(o, 3, col), letterbox.padY, SpanOf(letterbox.scaledH, config.inputHeight));
    ZeroFactors(VisibleLength(l, r), VisibleLength(t, b));
  }

  lemma FirstRows(o: Output, col: nat)
    requires WellFormed(o) && 4 <= o.rows && col < o.cols
    ensures Cell(o, 0, col) == Raw(o, col) && Cell(o, 1, col) == Raw(o, o.cols + col)
    ensures Cell(o, 2, col) == Raw(o, 2 * o.cols + col) && Cell(o, 3, col) == Raw(o, 3 * o.cols + col)
  {
    RawCell(o, 0, col);
    RawCell(o, 1, col);
    RawCell(o, 2, col);
    RawCell(o, 3, col);
  }

  /** The score of a class, in the rows after the first four. */
  function RawScore(o: Output, col: nat, c: nat): real { Raw(o, (4 + c) * o.cols + col) }

  /** The class is an explicit one, the first with the proposal's greatest score. */
  ghost predicate RightClass(o: Output, col: nat, config: DetectorConfig, b: BoundingBox) {
    && b.classId in {0, 2, 3, 4, 6, 13, 14, 15, 16, 17} && b.classId < o.rows - 4
    && b.confidence == RawScore(o, col, b.classId) && b.confidence >= config.confidenceThreshold
    && b.confidence > 0.0
    && (forall c: nat :: c < o.rows - 4 ==> RawScore(o, col, c) <= b.confidence)
    && (forall c: nat :: c < b.classId ==> RawScore(o, col, c) < b.confidence)
  }

  /** A side begins where the true span does, or at the border, and is as long as it as far as
      the frame goes. */
  predicate RightSide(from: real, length: real, span: (real, real)) {
    && from == (if span.0 < 0.0 then 0.0 else span.0) && from < 1.0
    && length == (if span.1 - span.0 < 1.0 - from then span.1 - span.0 else 1.0 - from)
    && length > 0.005
  }

  ghost predicate RightBox(o: Output, col: nat, letterbox: Letterbox, config: DetectorConfig, b: BoundingBox)
    requires Spans(letterbox, config)
  {
    && RightSide(b.x, b.width, TrueX(o, col, letterbox, config))
    && RightSide(b.y, b.height, TrueY(o, col, letterbox, config))
    && RightClass(o, col, config, b) && b.timestampMs == 0
  }

  lemma SideRight(centre: real, size: real, pad: int, span: real)
    requires span > 0.0 && UnmapAxis(centre, size, pad, span).1 > MIN_SIZE
    ensures var (from, length) := UnmapAxis(centre, size, pad, span);
            RightSide(from, length, TrueSpan(centre, size, pad, span))
  {
    ClampedRight((centre - pad as real) / span, size / span);
  }

  lemma ClampedRight(c: real, s: real)
    requires Clamp(s, 0.0, 1.0 - Clamp(c - s * 0.5, 0.0, 1.0)) > MIN_SIZE
    ensures var from := Clamp(c - s * 0.5, 0.0, 1.0);
            RightSide(from, Clamp(s, 0.0, 1.0 - from), (c - s * 0.5, c + s * 0.5))
  {
  }

  lemma ClassRight(o: Output, col: nat, config: DetectorConfig, b: BoundingBox)
    requires WellFormed(o) && col < o.cols && (b.confidence, b.classId) == Best(o, col, Classes(o))
    requires b.confidence >= config.confidenceThreshold && IsExplicitClass(b.classId)
    ensures RightClass(o, col, config, b)
  {
    hide Cell, Best;
    BestIsFirstMaximum(o, col, Classes(o));
    forall c: nat | c < Classes(o) ensures Score(o, col, c) == RawScore(o, col, c) { RawCell(o, 4 + c, col); }
    hide Score, RawScore;
  }

  /** The candidate of a proposal is the proposal's own rectangle in the frame, with the first of
      its best classes and that score. */
  lemma CandidateRight(o: Output, col: nat, letterbox: Letterbox, config: DetectorConfig)
    requires WellFormed(o) && col < o.cols && Spans(letterbox, config)
    ensures forall b :: b in Candidate(o, col, letterbox, config) ==> RightBox(o, col, letterbox, config, b)
  {
    if Candidate(o, col, letterbox, config) != [] {
      var b := Candidate(o, col, letterbox, config)[0];
      ClassRight(o, col, config, b);
      FirstRows(o, col);
      hide Cell, Raw, Best, RightClass, RightSide, UnmapAxis;
      SideRight(Cell(o, 0, col), Cell(o, 2, col), letterbox.padX, SpanOf(letterbox.scaledW, config.inputWidth));
      SideRight(Cell(o, 1, col), Cell(o, 3, col), letterbox.padY, SpanOf(letterbox.scaledH, config.inputHeight));
    }
  }

  lemma {:induction false} CandidatesRight(o: Output, n: nat, letterbox: Letterbox, config: DetectorConfig)
    requires WellFormed(o) && n <= o.cols && Spans(letterbox, config)
    ensures forall b :: b in Candidates(o, n, letterbox, config) ==>
              exists col: nat :: col < n && RightBox(o, col, letterbox, config, b)
  {
    hide Candidate, RightBox;
    if n > 0 {
      CandidatesRight(o, n - 1, letterbox, config);
      CandidateRight(o, n - 1, letterbox, config);
    }
  }

  lemma SpanKept(centre: real, size: real, pad: int, span: real)
    requires span > 0.0
    ensures var (left, right) := TrueSpan(centre, size, pad, span);
            && (UnmapAxis(centre, size, pad, span).1 > MIN_SIZE <==> IsKept(left, right))
            && (IsKept(left, right) ==> (VisibleLength(left, right) == 0.0 <==> Phantom(left, right)))
  {
    hide IsKept, Phantom, VisibleLength;
    PhantomIff((centre - pad as real) / span, size / span);
  }

  lemma ZeroFactors(a: real, b: real)
    ensures a * b == 0.0 <==> a == 0.0 || b == 0.0
  {
  }

  /** One such proposal: it lies in the padding left of the frame, and yet gives a box. */
  lemma PhantomCandidate(confidence: real) returns (o: Output, letterbox: Letterbox, config: DetectorConfig)
    requires 0.5 <= confidence
    ensures WellFormed(o) && o.rows == 5 && o.cols == 1 && Spans(letterbox, config) && config.confidenceThreshold == 0.5
    ensures Cell(o, 0, 0) + Cell(o, 2, 0) * 0.5 < letterbox.padX as real
    ensures Candidate(o, 0, letterbox, config) != []
  {
    o := Output(5, 1, [10.0, 320.0, 10.0, 64.0, confidence]);
    letterbox := Letterbox(1.0, 100, 0, 440, 640, 440, 640);
    config := DetectorConfig(0.5, 0.45, 640, 640);
    assert Best(o, 0, 0) == (0.0, -1);
    assert Best(o, 0, 1) == (confidence, 0);
    assert Classes(o) == 1;
    var width := 10.0 / 440.0;
    assert UnmapAxis(10.0, 10.0, 100, 440.0) == (0.0, width) && width > MIN_SIZE;
    assert UnmapAxis(320.0, 64.0, 0, 640.0) == (0.45, 0.1);
  }

  method CollectCandidates(o: Output, letterbox: Letterbox, config: DetectorConfig)
    returns (candidates: seq<BoundingBox>)
    requires WellFormed(o) && Spans(letterbox, config)
    ensures candidates == Candidates(o, o.cols, letterbox, config)
  {
    hide Score, Cell, UnmapAxis;
    candidates := [];
    for col := 0 to o.cols
      invariant candidates == Candidates(o, col, letterbox, config)
    {
      var maxScore, bestClass := ArgMax(o, col);
      if maxScore >= config.confidenceThreshold && IsExplicitClass(bestClass) {
        var box := Unmap(letterbox, config, Cell(o, 0, col), Cell(o, 1, col), Cell(o, 2, col), Cell(o, 3, col),
                         maxScore, bestClass);
        if box.width > MIN_SIZE && box.height > MIN_SIZE { candidates := candidates + [box]; }
      }
    }
  }

  // ---------- Sorting ----------

  ghost predicate Descending(s: seq<BoundingBox>) {
    forall i, j :: 0 <= i < j < |s| ==> s[i].confidence >= s[j].confidence
  }

  function InsertedAt(s: seq<BoundingBox>, k: nat, x: BoundingBox): seq<BoundingBox>
    requires k <= |s|
  {
    s[..k] + [x] + s[k..]
  }

  lemma InsertedDescending(s: seq<BoundingBox>, k: nat, x: BoundingBox)
    requires Descending(s) && k <= |s|
    requires k > 0 ==> s[k - 1].confidence >= x.confidence
    requires k < |s| ==> s[k].confidence < x.confidence
    ensures Descending(InsertedAt(s, k, x))
  {
    var r := InsertedAt(s, k, x);
    assert forall i :: 0 <= i < k ==> r[i] == s[i] && s[i].confidence >= x.confidence;
    assert r[k] == x;
    assert forall i :: k < i < |r| ==> r[i] == s[i - 1] && s[i - 1].confidence < x.confidence;
  }

  lemma InsertedPermutes(s: seq<BoundingBox>, k: nat, x: BoundingBox)
    requires k <= |s|
    ensures multiset(InsertedAt(s, k, x)) == multiset(s) + multiset{x}
  {
    assert s == s[..k] + s[k..];
  }

  method InsertDescending(s: seq<BoundingBox>, x: BoundingBox) returns (r: seq<BoundingBox>)
    requires Descending(s)
    ensures Descending(r) && multiset(r) == multiset(s) + multiset{x}
  {
    hide Descending;
    var k := |s|;
    while k > 0 && s[k - 1].confidence < x.confidence
      invariant 0 <= k <= |s|
      invariant k < |s| ==> s[k].confidence < x.confidence
    {
      k := k - 1;
    }
    InsertedDescending(s, k, x);
    InsertedPermutes(s, k, x);
    r := InsertedAt(s, k, x);
  }

  /** Stands for `std::sort`: only its contract, some descending permutation, is used. */
  method SortByConfidence(s: seq<BoundingBox>) returns (r: seq<BoundingBox>)
    ensures Descending(r) && multiset(r) == multiset(s)
  {
    hide Descending;
    r := [];
    assert Descending(r) by { EmptyDescending(); }
    for i := 0 to |s|
      invariant Descending(r) && multiset(r) == multiset(s[..i])
    {
      assert s[..i + 1] == s[..i] + [s[i]];
      r := InsertDescending(r, s[i]);
    }
    assert s[..|s|] == s;
  }

  lemma EmptyDescending()
    ensures Descending([])
  {
  }

  // ---------- Greedy suppression ----------

  /** Kept: no earlier kept box overlaps it beyond the threshold. */
  ghost predicate Kept(s: seq<BoundingBox>, threshold: real, i: nat)
    requires i < |s|
  {
    forall j: nat :: j < i && Kept(s, threshold, j) ==> s[j].Iou(s[i]) <= threshold
  }

  ghost function Survivors(s: seq<BoundingBox>, threshold: real, n: nat): seq<BoundingBox>
    requires n <= |s|
  {
    if n == 0 then []
    else Survivors(s, threshold, n - 1) + if Kept(s, threshold, n - 1) then [s[n - 1]] else []
  }

  /** Suppressed by a kept box among the first i. */
  ghost predicate Hit(s: seq<BoundingBox>, threshold: real, i: nat, k: nat)
    requires i <= k < |s|
  {
    exists j: nat :: j < i && Kept(s, threshold, j) && s[j].Iou(s[k]) > threshold
  }

  lemma HitNext(s: seq<BoundingBox>, threshold: real, i: nat, k: nat)
    requires i < k < |s|
    ensures Hit(s, threshold, i + 1, k)
       <==> Hit(s, threshold, i, k) || (Kept(s, threshold, i) && s[i].Iou(s[k]) > threshold)
  {
    hide BoundingBox.Iou;
    if Hit(s, threshold, i + 1, k) {
      var j: nat :| j < i + 1 && Kept(s, threshold, j) && s[j].Iou(s[k]) > threshold;
    }
  }

  lemma KeptIffNotHit(s: seq<BoundingBox>, threshold: real, i: nat)
    requires i < |s|
    ensures Kept(s, threshold, i) <==> !Hit(s, threshold, i, i)
  {
    hide BoundingBox.Iou;
  }

  method SuppressAfter(candidates: seq<BoundingBox>, suppressed0: seq<bool>, i: nat, threshold: real)
    returns (suppressed: seq<bool>)
    requires i < |candidates| == |suppressed0| && Kept(candidates, threshold, i)
    requires forall k: nat :: i < k < |candidates| ==> (suppressed0[k] <==> Hit(candidates, threshold, i, k))
    ensures |suppressed| == |candidates|
    ensures forall k: nat :: i < k < |candidates| ==> (suppressed[k] <==> Hit(candidates, threshold, i + 1, k))
  {
    hide BoundingBox.Iou, Kept, Hit;
    suppressed := suppressed0;
    for j := i + 1 to |candidates|
      invariant |suppressed| == |candidates|
      invariant forall k: nat :: i < k < j ==> (suppressed[k] <==> Hit(candidates, threshold, i + 1, k))
      invariant forall k: nat :: j <= k < |candidates| ==> suppressed[k] == suppressed0[k]
    {
      HitNext(candidates, threshold, i, j);
      if !suppressed[j] {
        if candidates[i].Iou(candidates[j]) > threshold { suppressed := suppressed[j := true]; }
      }
    }
  }

  method Suppress(candidates: seq<BoundingBox>, threshold: real) returns (results: seq<BoundingBox>)
    ensures results == Survivors(candidates, threshold, |candidates|)
  {
    hide BoundingBox.Iou, Kept, Hit;
    results := [];
    var suppressed := seq(|candidates|, _ => false);
    forall k: nat | k < |candidates| ensures !Hit(candidates, threshold, 0, k) { NoneHit(candidates, threshold, k); }
    for i := 0 to |candidates|
      invariant |suppressed| == |candidates|
      invariant results == Survivors(candidates, threshold, i)
      invariant forall k: nat :: i <= k < |candidates| ==> (suppressed[k] <==> Hit(candidates, threshold, i, k))
    {
      KeptIffNotHit(candidates, threshold, i);
      if suppressed[i] {
        forall k: nat | i < k < |candidates| ensures suppressed[k] <==> Hit(candidates, threshold, i + 1, k) {
          HitNext(candidates, threshold, i, k);
        }
      } else {
        results := results + [candidates[i]];
        suppressed := SuppressAfter(candidates, suppressed, i, threshold);
      }
    }
  }

  lemma NoneHit(s: seq<BoundingBox>, threshold: real, k: nat)
    requires k < |s|
    ensures !Hit(s, threshold, 0, k)
  {
  }

  /** The survivors are a subsequence: `index` lists, in order, exactly the kept positions. */
  lemma {:induction false} SurvivorIndices(s: seq<BoundingBox>, threshold: real, n: nat) returns (index: seq<nat>)
    requires n <= |s|
    ensures |index| == |Survivors(s, threshold, n)|
    ensures forall k :: 0 <= k < |index| ==>
              index[k] < n && Kept(s, threshold, index[k]) && Survivors(s, threshold, n)[k] == s[index[k]]
    ensures forall j, k :: 0 <= j < k < |index| ==> index[j] < index[k]
    ensures forall i: nat :: i < n && Kept(s, threshold, i) ==> i in index
  {
    hide BoundingBox.Iou, Kept;
    index := [];
    if n > 0 {
      index := SurvivorIndices(s, threshold, n - 1);
      if Kept(s, threshold, n - 1) {
        var longer := index + [n - 1];
        forall i: nat | i < n && Kept(s, threshold, i) ensures i in longer {
          if i < n - 1 { assert i in index; } else { assert longer[|index|] == i; }
        }
        index := longer;
      }
    }
  }

  /** Greedy suppression on a descending list: the result is pairwise at IoU at most the
      threshold, and every dropped box overlaps a kept one of at least its confidence. */
  lemma SuppressionSound(s: seq<BoundingBox>, threshold: real)
    requires Descending(s)
    ensures Separated(Survivors(s, threshold, |s|), threshold)
    ensures forall i: nat :: i < |s| && !Kept(s, threshold, i) ==> Dominated(s, threshold, i)
    ensures s != [] ==> Survivors(s, threshold, |s|) != [] && Survivors(s, threshold, |s|)[0] == s[0]
  {
    hide BoundingBox.Iou, Separated, Dominated, Kept;
    SurvivorsSeparated(s, threshold);
    forall i: nat | i < |s| && !Kept(s, threshold, i) ensures Dominated(s, threshold, i) {
      DroppedDominated(s, threshold, i);
    }
    var index := SurvivorIndices(s, threshold, |s|);
    if s != [] {
      FirstKept(s, threshold);
      var k :| 0 <= k < |index| && index[k] == 0;
    }
  }

  /** A survivor of at least its confidence overlaps box i beyond the threshold. */
  ghost predicate Dominated(s: seq<BoundingBox>, threshold: real, i: nat)
    requires i < |s|
  {
    exists b :: b in Survivors(s, threshold, |s|) && b.Iou(s[i]) > threshold && b.confidence >= s[i].confidence
  }

  lemma FirstKept(s: seq<BoundingBox>, threshold: real)
    requires s != []
    ensures Kept(s, threshold, 0)
  {
  }

  lemma SurvivorsSeparated(s: seq<BoundingBox>, threshold: real)
    ensures Separated(Survivors(s, threshold, |s|), threshold)
  {
    hide BoundingBox.Iou, Kept;
    var r := Survivors(s, threshold, |s|);
    var index := SurvivorIndices(s, threshold, |s|);
    forall i, j | 0 <= i < |r| && 0 <= j < |r| && i != j ensures r[i].Iou(r[j]) <= threshold {
      IouSymmetric(r[i], r[j]);
      SeparatedPair(s, threshold, if i < j then index[i] else index[j], if i < j then index[j] else index[i]);
    }
  }

  lemma DroppedDominated(s: seq<BoundingBox>, threshold: real, i: nat)
    requires Descending(s) && i < |s| && !Kept(s, threshold, i)
    ensures Dominated(s, threshold, i)
  {
    hide BoundingBox.Iou, Kept;
    KeptIffNotHit(s, threshold, i);
    var j: nat :| j < i && Kept(s, threshold, j) && s[j].Iou(s[i]) > threshold;
    var index := SurvivorIndices(s, threshold, |s|);
    var k :| 0 <= k < |index| && index[k] == j;
    assert Survivors(s, threshold, |s|)[k] == s[j];
  }

  lemma SeparatedPair(s: seq<BoundingBox>, threshold: real, i: nat, j: nat)
    requires i < j < |s| && Kept(s, threshold, i) && Kept(s, threshold, j)
    ensures s[i].Iou(s[j]) <= threshold
  {
  }

  // ---------- The whole of it ----------

  /** What `detect` returns for a model output, up to the order `std::sort` gives to boxes of
      equal confidence. */
  method Detect(o: Output, letterbox: Letterbox, config: DetectorConfig)
    returns (results: seq<BoundingBox>, ghost sorted: seq<BoundingBox>)
    requires WellFormed(o) && Spans(letterbox, config)
    ensures Descending(sorted) && multiset(sorted) == multiset(Candidates(o, o.cols, letterbox, config))
    ensures results == Survivors(sorted, config.nmsIouThreshold, |sorted|)
    ensures forall b :: b in results ==>
              b.InUnitSquare() && exists col: nat :: col < o.cols && RightBox(o, col, letterbox, config, b)
  {
    hide BoundingBox.Iou, BoundingBox.InUnitSquare, Candidate, Kept, RightBox;
    var candidates := CollectCandidates(o, letterbox, config);
    CandidatesInUnitSquare(o, o.cols, letterbox, config);
    CandidatesRight(o, o.cols, letterbox, config);
    var ordered := SortByConfidence(candidates);
    sorted := ordered;
    results := Suppress(ordered, config.nmsIouThreshold);
    var index := SurvivorIndices(ordered, config.nmsIouThreshold, |ordered|);
    forall b | b in results
      ensures b.InUnitSquare() && exists col: nat :: col < o.cols && RightBox(o, col, letterbox, config, b)
    {
      var k: nat :| k < |results| && results[k] == b;
      assert ordered[index[k]] in multiset(ordered);
      assert b in candidates;
    }
  }
}
