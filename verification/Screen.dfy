/** From detections to pixels: what the trackers promise, as the rasteriser paints it. */
module Screen {
  import opened Bytes
  import opened Frames
  import opened Geometry
  import opened Histories
  import opened Raster
  import T = TemporalTracker
  import A = AnchorRuns
  import AnchorTracker
  import L = Letterboxing

  lemma ScaledEdge(a: real, b: real, side: nat)
    requires a <= b
    ensures a * side as real <= b * side as real
  {
  }

  lemma CellInsideCover(outer: BoundingBox, inner: BoundingBox, w: nat, h: nat, x: nat, y: nat)
    requires outer.Covers(inner) && CellInside(inner, w, h, x, y)
    ensures CellInside(outer, w, h, x, y)
  {
    ScaledEdge(outer.Left(), inner.Left(), w);
    ScaledEdge(inner.Right(), outer.Right(), w);
    ScaledEdge(outer.Top(), inner.Top(), h);
    ScaledEdge(inner.Bottom(), outer.Bottom(), h);
  }

  lemma UnitSquareDrawable(boxes: seq<BoundingBox>)
    requires forall b :: b in boxes ==> b.InUnitSquare()
    ensures AllDrawable(boxes)
  {
  }

  /** A pixel inside something that a box of the list covers is painted. */
  lemma CoverPainted(config: OverlayConfig, boxes: seq<BoundingBox>, box: BoundingBox, inner: BoundingBox,
                     source: Option<Frame>, w: nat, h: nat, x: nat, y: nat)
    requires AllDrawable(boxes) && box in boxes && box.Covers(inner) && config.frostedColor != CLEAR
    requires x < w && y < h && CellInside(inner, w, h, x, y)
    ensures PixelAt(config, boxes, source, w, h, x, y) != CLEAR
  {
    hide CellInside, Covered, BoundingBox.Covers, PixelAt;
    CellInsideCover(box, inner, w, h, x, y);
    CoveredCells(box, w, h, x, y);
    ClearIffUncovered(config, boxes, source, w, h, x, y);
  }

  /** Whatever frames came before, rendering the boxes of the uniting tracker paints every pixel
      inside the padded rectangle of every detection younger than the persistence window. */
  lemma RecentDetectionsPainted(run: seq<T.Event>, tracker: T.TrackerConfig, config: OverlayConfig,
                                source: Option<Frame>,
                                d: BoundingBox, w: nat, h: nat, x: nat, y: nat)
    requires T.Proper(run) && 0.0 <= tracker.paddingRatio && config.frostedColor != CLEAR
    requires d in T.Recent(run, tracker.persistenceWindowMs)
    requires x < w && y < h && CellInside(d.Expanded(tracker.paddingRatio), w, h, x, y)
    ensures var boxes := T.Rendered(T.TrackedAfter(run, tracker), tracker);
            AllDrawable(boxes) && PixelAt(config, boxes, source, w, h, x, y) != CLEAR
  {
    hide T.Proper, T.Recent, T.Rendered, T.TrackedAfter, AllDrawable, CellInside, BoundingBox.Covers;
    hide BoundingBox.Expanded;
    hide BoundingBox.InUnitSquare, Separated, PixelAt;
    var boxes := T.Rendered(T.TrackedAfter(run, tracker), tracker);
    T.WholeRunCoverage(run, tracker);
    UnitSquareDrawable(boxes);
    var b :| b in boxes && b.Covers(d.Expanded(tracker.paddingRatio));
    CoverPainted(config, boxes, b, d.Expanded(tracker.paddingRatio), source, w, h, x, y);
  }

  /** The same for the anchor tracker and its shields. */
  lemma ShieldsPainted(run: seq<A.Event>, tracker: AnchorTracker.AnchorConfig, config: OverlayConfig,
                       source: Option<Frame>,
                       k: nat, w: nat, h: nat, x: nat, y: nat)
    requires A.Proper(run) && A.ProperConfig(tracker) && run != [] && Last(run).Captured?
    requires config.frostedColor != CLEAR
    requires var s := A.StateAfter(run, tracker);
             k < |s.shields| && CellInside(s.shields[k].box.Expanded(s.config.paddingRatio), w, h, x, y)
    requires x < w && y < h
    ensures var s := A.StateAfter(run, tracker);
            var boxes := AnchorTracker.Rendered(s.shields, s.config);
            AllDrawable(boxes) && PixelAt(config, boxes, source, w, h, x, y) != CLEAR
  {
    hide A.Proper, A.ProperConfig, A.StateAfter, A.Sound, AnchorTracker.Rendered, AllDrawable, CellInside;
    hide BoundingBox.Covers;
    hide BoundingBox.Expanded, BoundingBox.InUnitSquare, Separated, PixelAt;
    var s := A.StateAfter(run, tracker);
    var boxes := AnchorTracker.Rendered(s.shields, s.config);
    A.ShieldInvariant(run, tracker);
    UnitSquareDrawable(boxes);
    var inner := s.shields[k].box.Expanded(s.config.paddingRatio);
    var b :| b in boxes && b.Covers(inner);
    CoverPainted(config, boxes, b, inner, source, w, h, x, y);
  }

  /** The detector and the overlay take a pixel for the same colour exactly when its format is RGB,
      BGRA or BGRx, or its red and blue are equal; otherwise the overlay exchanges the two. */
  lemma ReadersAgreeIff(frame: Frame, x: nat, y: nat)
    requires HasPixels(frame) && x < frame.width && y < frame.height
    ensures var (seen, drawn) := (L.Colour(frame, x, y), SceneColour(frame, x, y));
            && (seen == drawn <==> frame.format in {RGB, BGRA, BGRx} || seen.r == seen.b)
            && (seen != drawn ==> drawn == Rgb(seen.b, seen.g, seen.r))
  {
    PixelInBuffer(frame, RowStride(frame), x, y);
  }
}
