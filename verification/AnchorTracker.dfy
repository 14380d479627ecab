/** `VisualAnchorTracker`: shields that lock onto unchanged pixels around them, follow
    vertical scrolling, and follow moving detections by smoothing. */
module AnchorTracker {
  import opened Geometry
  import opened BoxMerge
  import opened Frames
  import opened Anchors

  datatype TrackedShield = TrackedShield(
    box: BoundingBox, lastSeenMs: nat, createdMs: nat, isStatic: bool, anchors: seq<AnchorPixel>)

  datatype AnchorConfig = AnchorConfig(
    persistenceWindowMs: nat, dynamicDecayMs: nat, paddingRatio: real,
    mergeIouThreshold: real, anchorErrorThreshold: real, emaAlpha: real)

  const OFFSETS: seq<int> := [-80, -60, -40, -20, -10, 10, 20, 40, 60, 80]

  // ---------- Step 1: anchors ----------

  /** The first offset that strictly beats everything before it, starting from a best so far. */
  function BestOffset(frame: Frame, anchors: seq<AnchorPixel>, offsets: seq<int>, bestDy: int, bestErr: real)
    : (int, real)
    decreases |offsets|
  {
    if offsets == [] then (bestDy, bestErr)
    else
      var err := Score(frame, anchors, offsets[0]);
      if err < bestErr then BestOffset(frame, anchors, offsets[1..], offsets[0], err)
      else BestOffset(frame, anchors, offsets[1..], bestDy, bestErr)
  }

  predicate IsScroll(staticErr: real, bestDy: int, bestErr: real) {
    bestErr < 8.0 && bestDy != 0 && staticErr - bestErr > 8.0
  }

  /** A shield moved `dy` pixels down, kept inside the screen, anchors moved along. */
  function Scrolled(frame: Frame, s: TrackedShield, dy: int, now: nat): TrackedShield
    requires frame.height > 0
  {
    var y := Clamp(s.box.y + dy as real / frame.height as real, 0.0, 1.0 - s.box.height);
    s.(box := s.box.(y := y), anchors := Shifted(s.anchors, dy), isStatic := true, lastSeenMs := now)
  }

  function Evaluated(frame: Frame, s: TrackedShield, now: nat, config: AnchorConfig): TrackedShield
    requires HasPixels(frame)
  {
    if s.anchors == [] then s.(isStatic := false)
    else
      var staticErr := Score(frame, s.anchors, 0);
      if staticErr < config.anchorErrorThreshold then s.(isStatic := true, lastSeenMs := now)
      else
        var (dy, err) := BestOffset(frame, s.anchors, OFFSETS, 0, staticErr);
        if IsScroll(staticErr, dy, err) then Scrolled(frame, s, dy, now) else s.(isStatic := false)
  }

  function AllEvaluated(frame: Frame, shields: seq<TrackedShield>, now: nat, config: AnchorConfig)
    : (r: seq<TrackedShield>)
    ensures |r| == |shields|
    ensures forall k :: 0 <= k < |r| ==>
              r[k] == if HasPixels(frame) then Evaluated(frame, shields[k], now, config) else shields[k]
  {
    if HasPixels(frame) then
      seq(|shields|, k requires 0 <= k < |shields| => Evaluated(frame, shields[k], now, config))
    else shields
  }

  // ---------- Step 2: detections ----------

  function Resampled(frame: Frame, s: TrackedShield, config: AnchorConfig): TrackedShield {
    if frame.data.Some? && frame.width > 0
    then s.(anchors := Sampled(frame, s.box, config.paddingRatio)) else s
  }

  function Refreshed(frame: Frame, s: TrackedShield, det: BoundingBox, now: nat, config: AnchorConfig): TrackedShield {
    Resampled(frame, s.(box := s.box.Smoothed(det, config.emaAlpha), lastSeenMs := now), config)
  }

  function NewShield(frame: Frame, det: BoundingBox, now: nat, config: AnchorConfig): TrackedShield {
    Resampled(frame, TrackedShield(det, now, now, false, []), config)
  }

  /** The first shield that overlaps the detection follows it; without one a shield is added. */
  function Ingested(frame: Frame, shields: seq<TrackedShield>, det: BoundingBox, now: nat, config: AnchorConfig)
    : (r: seq<TrackedShield>)
    ensures |shields| <= |r| <= |shields| + 1
    decreases |shields|
  {
    if shields == [] then [NewShield(frame, det, now, config)]
    else if shields[0].box.Overlaps(det, config.mergeIouThreshold) then
      [Refreshed(frame, shields[0], det, now, config)] + shields[1..]
    else [shields[0]] + Ingested(frame, shields[1..], det, now, config)
  }

  lemma IngestedStep(frame: Frame, shields: seq<TrackedShield>, i: nat, det: BoundingBox, now: nat,
                     config: AnchorConfig)
    requires i < |shields|
    ensures shields[..i] + Ingested(frame, shields[i..], det, now, config)
         == if shields[i].box.Overlaps(det, config.mergeIouThreshold)
            then shields[i := Refreshed(frame, shields[i], det, now, config)]
            else shields[..i + 1] + Ingested(frame, shields[i + 1..], det, now, config)
  {
    hide BoundingBox.Overlaps, Refreshed, NewShield;
    assert shields[i..][1..] == shields[i + 1..];
  }

  lemma IngestedLast(frame: Frame, shields: seq<TrackedShield>, det: BoundingBox, now: nat, config: AnchorConfig)
    ensures shields[..|shields|] + Ingested(frame, shields[|shields|..], det, now, config)
         == shields + [NewShield(frame, det, now, config)]
  {
    hide NewShield;
    assert shields[|shields|..] == [] && shields[..|shields|] == shields;
  }

  function AllIngested(frame: Frame, shields: seq<TrackedShield>, dets: seq<BoundingBox>, now: nat,
                       config: AnchorConfig)
    : (r: seq<TrackedShield>)
    ensures |shields| <= |r|
    decreases |dets|
  {
    if dets == [] then shields
    else AllIngested(frame, Ingested(frame, shields, dets[0], now, config), dets[1..], now, config)
  }

  // ---------- Step 3: purge, step 4: render ----------

  function MaxAge(s: TrackedShield, config: AnchorConfig): nat {
    if s.isStatic then config.persistenceWindowMs else config.dynamicDecayMs
  }

  predicate Expired(s: TrackedShield, now: nat, config: AnchorConfig) {
    now < s.lastSeenMs || now - s.lastSeenMs >= MaxAge(s, config)
  }

  function Purged(shields: seq<TrackedShield>, now: nat, config: AnchorConfig): seq<TrackedShield> {
    if shields == [] then []
    else (if Expired(shields[0], now, config) then [] else [shields[0]]) + Purged(shields[1..], now, config)
  }

  lemma {:induction false} PurgedMembers(shields: seq<TrackedShield>, now: nat, config: AnchorConfig)
    ensures forall s :: s in Purged(shields, now, config) <==> s in shields && !Expired(s, now, config)
  {
    if shields != [] {
      PurgedMembers(shields[1..], now, config);
      assert shields == [shields[0]] + shields[1..];
    }
  }

  lemma {:induction false} NothingPurged(shields: seq<TrackedShield>, now: nat, config: AnchorConfig)
    requires forall k :: 0 <= k < |shields| ==> !Expired(shields[k], now, config)
    ensures Purged(shields, now, config) == shields
  {
    hide Expired;
    if shields != [] {
      NothingPurged(shields[1..], now, config);
      assert shields == [shields[0]] + shields[1..];
    }
  }

  /** The shields after steps 1 and 2. */
  function Updated(frame: Frame, shields: seq<TrackedShield>, dets: seq<BoundingBox>, now: nat, config: AnchorConfig)
    : seq<TrackedShield>
  {
    AllIngested(frame, AllEvaluated(frame, shields, now, config), dets, now, config)
  }

  function Shields(frame: Frame, shields: seq<TrackedShield>, dets: seq<BoundingBox>, now: nat, config: AnchorConfig)
    : seq<TrackedShield>
  {
    Purged(Updated(frame, shields, dets, now, config), now, config)
  }

  function Padded(shields: seq<TrackedShield>, ratio: real): (r: seq<BoundingBox>)
    ensures |r| == |shields| && forall k :: 0 <= k < |r| ==> r[k] == shields[k].box.Expanded(ratio)
  {
    if shields == [] then [] else [shields[0].box.Expanded(ratio)] + Padded(shields[1..], ratio)
  }

  function Rendered(shields: seq<TrackedShield>, config: AnchorConfig): seq<BoundingBox> {
    Merged(Padded(shields, config.paddingRatio), config.mergeIouThreshold)
  }

  // ---------- The tracker object ----------

  class VisualAnchorTracker {
    var config: AnchorConfig
    var shields: seq<TrackedShield>

    constructor (config: AnchorConfig)
      ensures this.config == config && shields == []
    {
      this.config, shields := config, [];
    }

    method SetConfig(config: AnchorConfig)
      modifies this`config
      ensures this.config == config
    {
      this.config := config;
    }

    method Reset()
      modifies this`shields
      ensures shields == []
    {
      shields := [];
    }

    method FindScroll(frame: Frame, anchors: seq<AnchorPixel>, staticErr: real) returns (bestDy: int, bestErr: real)
      ensures (bestDy, bestErr) == BestOffset(frame, anchors, OFFSETS, 0, staticErr)
    {
      bestDy, bestErr := 0, staticErr;
      var i := 0;
      while i < |OFFSETS|
        invariant 0 <= i <= |OFFSETS|
        invariant BestOffset(frame, anchors, OFFSETS[i..], bestDy, bestErr)
               == BestOffset(frame, anchors, OFFSETS, 0, staticErr)
      {
        assert OFFSETS[i..][1..] == OFFSETS[i + 1..];
        var err := EvalAnchors(frame, anchors, OFFSETS[i]);
        if err < bestErr { bestErr, bestDy := err, OFFSETS[i]; }
        i := i + 1;
      }
    }

    method EvaluateShield(frame: Frame, i: nat, now: nat)
      requires i < |shields| && HasPixels(frame)
      modifies this`shields
      ensures shields == old(shields)[i := Evaluated(frame, old(shields)[i], now, config)]
    {
      hide Score, Shifted;
      var s := shields[i];
      if s.anchors == [] {
        shields := shields[i := s.(isStatic := false)];
        return;
      }
      var staticErr := EvalAnchors(frame, s.anchors, 0);
      if staticErr < config.anchorErrorThreshold {
        shields := shields[i := s.(isStatic := true, lastSeenMs := now)];
        return;
      }
      var bestDy, bestErr := FindScroll(frame, s.anchors, staticErr);
      s := s.(isStatic := false);
      if bestErr < 8.0 && bestDy != 0 && staticErr - bestErr > 8.0 {
        var normDy := bestDy as real / frame.height as real;
        s := s.(box := s.box.(y := Clamp(s.box.y + normDy, 0.0, 1.0 - s.box.height)));
        s := s.(anchors := Shifted(s.anchors, bestDy), isStatic := true, lastSeenMs := now);
      }
      shields := shields[i := s];
    }

    method EvaluateAll(frame: Frame, now: nat)
      modifies this`shields
      ensures shields == AllEvaluated(frame, old(shields), now, config)
    {
      hide Evaluated;
      if !HasPixels(frame) { return; }
      var i := 0;
      while i < |shields|
        invariant 0 <= i <= |shields| == |old(shields)|
        invariant shields[i..] == old(shields)[i..]
        invariant shields[..i] == AllEvaluated(frame, old(shields), now, config)[..i]
      {
        EvaluateShield(frame, i, now);
        i := i + 1;
      }
    }

    method IngestDetection(frame: Frame, det: BoundingBox, now: nat)
      modifies this`shields
      ensures shields == Ingested(frame, old(shields), det, now, config)
    {
      hide BoundingBox.Overlaps, BoundingBox.Smoothed, Sampled, Ingested;
      var i := 0;
      assert shields[..0] + Ingested(frame, shields[0..], det, now, config)
          == Ingested(frame, shields, det, now, config) by {
        assert shields[0..] == shields;
      }
      while i < |shields|
        invariant 0 <= i <= |shields| && shields == old(shields)
        invariant shields[..i] + Ingested(frame, shields[i..], det, now, config)
               == Ingested(frame, shields, det, now, config)
      {
        IngestedStep(frame, shields, i, det, now, config);
        if shields[i].box.Overlaps(det, config.mergeIouThreshold) {
          var s := shields[i].(box := shields[i].box.Smoothed(det, config.emaAlpha), lastSeenMs := now);
          if frame.data.Some? && frame.width > 0 {
            var anchors := SampleAnchors(frame, s.box, config.paddingRatio);
            s := s.(anchors := anchors);
          }
          shields := shields[i := s];
          return;
        }
        i := i + 1;
      }
      IngestedLast(frame, shields, det, now, config);
      var newShield := TrackedShield(det, now, now, false, []);
      if frame.data.Some? && frame.width > 0 {
        var anchors := SampleAnchors(frame, det, config.paddingRatio);
        newShield := newShield.(anchors := anchors);
      }
      shields := shields + [newShield];
    }

    method IngestAll(frame: Frame, rawDetections: seq<BoundingBox>, now: nat)
      modifies this`shields
      ensures shields == AllIngested(frame, old(shields), rawDetections, now, config)
    {
      hide Ingested;
      var i := 0;
      assert rawDetections[0..] == rawDetections;
      while i < |rawDetections|
        invariant 0 <= i <= |rawDetections|
        invariant AllIngested(frame, shields, rawDetections[i..], now, config)
               == AllIngested(frame, old(shields), rawDetections, now, config)
      {
        assert rawDetections[i..][1..] == rawDetections[i + 1..];
        IngestDetection(frame, rawDetections[i], now);
        i := i + 1;
      }
    }

    method PurgeExpired(now: nat)
      modifies this`shields
      ensures shields == Purged(old(shields), now, config)
    {
      hide Expired;
      var kept := [];
      var i := 0;
      assert shields[0..] == shields;
      while i < |shields|
        invariant 0 <= i <= |shields| && shields == old(shields)
        invariant kept + Purged(shields[i..], now, config) == Purged(shields, now, config)
      {
        assert shields[i..][1..] == shields[i + 1..];
        if !Expired(shields[i], now, config) { kept := kept + [shields[i]]; }
        i := i + 1;
      }
      assert kept + [] == kept;
      shields := kept;
    }

    method PadAll() returns (expanded: seq<BoundingBox>)
      ensures expanded == Padded(shields, config.paddingRatio)
    {
      hide BoundingBox.Expanded;
      expanded := [];
      var i := 0;
      while i < |shields|
        invariant 0 <= i <= |shields| == |Padded(shields, config.paddingRatio)|
        invariant expanded == Padded(shields, config.paddingRatio)[..i]
      {
        expanded := expanded + [shields[i].box.Expanded(config.paddingRatio)];
        i := i + 1;
      }
    }

    method ProcessFrame(frame: Frame, rawDetections: seq<BoundingBox>, now: nat) returns (boxes: seq<BoundingBox>)
      modifies this`shields
      ensures shields == Shields(frame, old(shields), rawDetections, now, config)
      ensures boxes == Rendered(shields, config)
    {
      hide AllIngested, AllEvaluated, Padded;
      EvaluateAll(frame, now);
      IngestAll(frame, rawDetections, now);
      PurgeExpired(now);
      var expanded := PadAll();
      boxes := MergeOverlappingBoxes(expanded, config.mergeIouThreshold);
    }
  }
}
