/** Whole runs of the visual anchor tracker: the shield invariant, the contraction of a shield
    towards a repeated detection, and the lock onto an unchanging screen. */
module AnchorRuns {
  import opened Geometry
  import opened Histories
  import opened BoxMerge
  import opened Frames
  import opened Anchors
  import opened AnchorTracker

  // ---------- Invariant of every run ----------

  datatype Event =
    | Captured(frame: Frame, dets: seq<BoundingBox>, now: nat)
    | Cleared
    | Reconfigured(config: AnchorConfig)

  datatype State = State(shields: seq<TrackedShield>, config: AnchorConfig)

  function Next(state: State, event: Event): State {
    match event
    case Captured(frame, dets, now) => state.(shields := Shields(frame, state.shields, dets, now, state.config))
    case Cleared => state.(shields := [])
    case Reconfigured(config) => state.(config := config)
  }

  /** The state after a run of calls on a tracker constructed with `config`. */
  function StateAfter(run: seq<Event>, config: AnchorConfig): State {
    if run == [] then State([], config) else Next(StateAfter(Init(run), config), Last(run))
  }

  /** The tracker object goes through exactly these states and returns the rendered boxes. */
  method Replay(tracker: VisualAnchorTracker, run: seq<Event>) returns (boxes: seq<BoundingBox>)
    requires tracker.shields == []
    modifies tracker
    ensures State(tracker.shields, tracker.config) == StateAfter(run, old(tracker.config))
    ensures run != [] && Last(run).Captured? ==> boxes == Rendered(tracker.shields, tracker.config)
  {
    hide Shields, Rendered;
    boxes := [];
    var i := 0;
    while i < |run|
      invariant 0 <= i <= |run|
      invariant State(tracker.shields, tracker.config) == StateAfter(run[..i], old(tracker.config))
      invariant i > 0 && run[i - 1].Captured? ==> boxes == Rendered(tracker.shields, tracker.config)
    {
      assert Init(run[..i + 1]) == run[..i];
      match run[i] {
        case Cleared => tracker.Reset();
        case Reconfigured(config) => tracker.SetConfig(config);
        case Captured(frame, dets, now) => boxes := tracker.ProcessFrame(frame, dets, now);
      }
      i := i + 1;
    }
    assert run[..i] == run;
  }

  function LastTime(run: seq<Event>): nat {
    if run == [] then 0 else match Last(run) case Captured(_, _, now) => now case _ => LastTime(Init(run))
  }

  predicate ProperConfig(config: AnchorConfig) { 0.0 <= config.emaAlpha <= 1.0 && 0.0 <= config.paddingRatio }

  /** The clock never goes back, detections lie in the unit square, smoothing is an average. */
  ghost predicate Proper(run: seq<Event>) {
    run == [] ||
    (Proper(Init(run)) &&
     match Last(run)
     case Captured(_, dets, now) => LastTime(Init(run)) <= now && forall d :: d in dets ==> d.InUnitSquare()
     case Cleared => true
     case Reconfigured(config) => ProperConfig(config))
  }

  predicate Sound(s: TrackedShield, now: nat) {
    s.box.InUnitSquare() && s.createdMs <= s.lastSeenMs <= now
  }

  ghost predicate AllSound(shields: seq<TrackedShield>, now: nat) {
    forall k :: 0 <= k < |shields| ==> Sound(shields[k], now)
  }

  lemma EvaluatedSound(frame: Frame, s: TrackedShield, before: nat, now: nat, config: AnchorConfig)
    requires HasPixels(frame) && Sound(s, before) && before <= now
    ensures Sound(Evaluated(frame, s, now, config), now)
  {
    hide Score, Shifted, BestOffset;
  }

  lemma AllEvaluatedSound(frame: Frame, shields: seq<TrackedShield>, before: nat, now: nat, config: AnchorConfig)
    requires AllSound(shields, before) && before <= now
    ensures AllSound(AllEvaluated(frame, shields, now, config), now)
  {
    hide Evaluated, BoundingBox.InUnitSquare;
    var evaluated := AllEvaluated(frame, shields, now, config);
    forall k | 0 <= k < |evaluated| ensures Sound(evaluated[k], now) {
      assert Sound(shields[k], before);
      if HasPixels(frame) { EvaluatedSound(frame, shields[k], before, now, config); }
    }
  }

  lemma {:induction false} IngestedSound(frame: Frame, shields: seq<TrackedShield>, det: BoundingBox, now: nat,
                                         config: AnchorConfig)
    requires AllSound(shields, now) && det.InUnitSquare() && ProperConfig(config)
    ensures AllSound(Ingested(frame, shields, det, now, config), now)
  {
    hide Sampled, BoundingBox.Smoothed, BoundingBox.Overlaps, BoundingBox.InUnitSquare;
    if shields != [] {
      assert Sound(shields[0], now);
      SmoothedInUnitSquare(shields[0].box, det, config.emaAlpha);
      IngestedSound(frame, shields[1..], det, now, config);
    }
  }

  lemma {:induction false} AllIngestedSound(frame: Frame, shields: seq<TrackedShield>, dets: seq<BoundingBox>, now: nat,
                                            config: AnchorConfig)
    requires AllSound(shields, now) && (forall d :: d in dets ==> d.InUnitSquare()) && ProperConfig(config)
    ensures AllSound(AllIngested(frame, shields, dets, now, config), now)
    decreases |dets|
  {
    hide Ingested, Sound;
    if dets != [] {
      IngestedSound(frame, shields, dets[0], now, config);
      AllIngestedSound(frame, Ingested(frame, shields, dets[0], now, config), dets[1..], now, config);
    }
  }

  lemma ShieldsSound(frame: Frame, shields: seq<TrackedShield>, dets: seq<BoundingBox>, before: nat, now: nat,
                     config: AnchorConfig)
    requires AllSound(shields, before) && before <= now && ProperConfig(config)
    requires forall d :: d in dets ==> d.InUnitSquare()
    ensures AllSound(Shields(frame, shields, dets, now, config), now)
    ensures forall k :: 0 <= k < |Shields(frame, shields, dets, now, config)| ==>
              !Expired(Shields(frame, shields, dets, now, config)[k], now, config)
  {
    hide AllIngested, Evaluated, Expired, BoundingBox.InUnitSquare;
    var evaluated := AllEvaluated(frame, shields, now, config);
    AllEvaluatedSound(frame, shields, before, now, config);
    AllIngestedSound(frame, evaluated, dets, now, config);
    var updated := Updated(frame, shields, dets, now, config);
    PurgedMembers(updated, now, config);
    var kept := Shields(frame, shields, dets, now, config);
    forall k | 0 <= k < |kept| ensures Sound(kept[k], now) && !Expired(kept[k], now, config) {
      assert kept[k] in kept;
      assert kept[k] in updated;
    }
  }

  lemma {:induction false} RunSound(run: seq<Event>, config: AnchorConfig)
    requires Proper(run) && ProperConfig(config)
    ensures AllSound(StateAfter(run, config).shields, LastTime(run))
    ensures ProperConfig(StateAfter(run, config).config)
    decreases |run|
  {
    hide Sound;
    if run != [] {
      RunSound(Init(run), config);
      if Last(run).Captured? {
        var Captured(frame, dets, now) := Last(run);
        var before := StateAfter(Init(run), config);
        ShieldsSound(frame, before.shields, dets, LastTime(Init(run)), now, before.config);
      }
    }
  }

  /** After every frame of every proper run: shields lie in the unit square, their times are
      ordered, none is older than its limit, each padded shield lies inside a returned box,
      and the returned boxes are separated and lie in the unit square. */
  lemma ShieldInvariant(run: seq<Event>, config: AnchorConfig)
    requires Proper(run) && ProperConfig(config) && run != [] && Last(run).Captured?
    ensures var State(shields, config') := StateAfter(run, config);
            var now := Last(run).now;
            var boxes := Rendered(shields, config');
            && (forall k :: 0 <= k < |shields| ==>
                  && Sound(shields[k], now)
                  && now - shields[k].lastSeenMs < MaxAge(shields[k], config')
                  && exists b :: b in boxes && b.Covers(shields[k].box.Expanded(config'.paddingRatio)))
            && Separated(boxes, config'.mergeIouThreshold)
            && (forall b :: b in boxes ==> b.InUnitSquare())
            && (boxes == [] <==> shields == [])
  {
    var Captured(frame, dets, now) := Last(run);
    var before := StateAfter(Init(run), config);
    RunSound(Init(run), config);
    ShieldsSound(frame, before.shields, dets, LastTime(Init(run)), now, before.config);
    SoundOnScreen(StateAfter(run, config).shields, now);
    RenderedCovers(StateAfter(run, config).shields, before.config);
    hide Shields, Rendered, Separated, Sound, AllSound, BoundingBox.Covers, BoundingBox.Expanded;
    hide BoundingBox.InUnitSquare;
    var shields := StateAfter(run, config).shields;
    assert forall k :: 0 <= k < |shields| ==> !Expired(shields[k], now, before.config);
    assert AllSound(shields, now);
    AllSoundAt(shields, now);
  }

  lemma AllSoundAt(shields: seq<TrackedShield>, now: nat)
    requires AllSound(shields, now)
    ensures forall k :: 0 <= k < |shields| ==> Sound(shields[k], now)
  {
  }

  ghost predicate OnScreen(shields: seq<TrackedShield>) { forall s :: s in shields ==> s.box.InUnitSquare() }

  lemma SoundOnScreen(shields: seq<TrackedShield>, now: nat)
    requires AllSound(shields, now)
    ensures OnScreen(shields)
  {
    hide BoundingBox.InUnitSquare;
  }

  lemma RenderedCovers(shields: seq<TrackedShield>, config: AnchorConfig)
    requires OnScreen(shields) && ProperConfig(config)
    ensures var boxes := Rendered(shields, config);
            && (forall k :: 0 <= k < |shields| ==>
                  exists b :: b in boxes && b.Covers(shields[k].box.Expanded(config.paddingRatio)))
            && Separated(boxes, config.mergeIouThreshold)
            && (forall b :: b in boxes ==> b.InUnitSquare())
            && (boxes == [] <==> shields == [])
  {
    hide Merged, Separated, BoundingBox.Covers, BoundingBox.Expanded, BoundingBox.InUnitSquare;
    var padded := Padded(shields, config.paddingRatio);
    forall b | b in padded ensures b.InUnitSquare() && b.Sized() {
      var k: nat :| k < |padded| && padded[k] == b;
      assert shields[k] in shields;
      ExpandedGrows(shields[k].box, config.paddingRatio);
      UnitSquareSized(b);
    }
    MergedCovers(padded, config.mergeIouThreshold);
    MergedSeparated(padded, config.mergeIouThreshold);
    MergedInUnitSquare(padded, config.mergeIouThreshold);
    forall k | 0 <= k < |shields|
      ensures exists b :: b in Rendered(shields, config) && b.Covers(shields[k].box.Expanded(config.paddingRatio))
    {
      assert padded[k] in padded;
    }
  }

  lemma UnitSquareSized(b: BoundingBox)
    requires b.InUnitSquare()
    ensures b.Sized()
  {
  }

  // ---------- A repeated detection without pixel data ----------

  function Pow(b: real, n: nat): real { if n == 0 then 1.0 else b * Pow(b, n - 1) }

  /** The shields after the same single detection in every one of these frames. */
  function Repeated(shields: seq<TrackedShield>, det: BoundingBox, frames: seq<(Frame, nat)>, config: AnchorConfig)
    : seq<TrackedShield>
  {
    if frames == [] then shields
    else
      var n := |frames| - 1;
      Shields(frames[n].0, Repeated(shields, det, frames[..n], config), [det], frames[n].1, config)
  }

  lemma NearerTwice(a: BoundingBox, b: BoundingBox, c: BoundingBox, det: BoundingBox, f: real, g: real, fg: real)
    requires Nearer(a, b, det, f) && Nearer(b, c, det, g) && fg == f * g
    ensures Nearer(a, c, det, fg)
  {
    hide Scaled;
    ScaledTwice(a.x - det.x, b.x - det.x, c.x - det.x, f, g, fg);
    ScaledTwice(a.y - det.y, b.y - det.y, c.y - det.y, f, g, fg);
    ScaledTwice(a.width - det.width, b.width - det.width, c.width - det.width, f, g, fg);
    ScaledTwice(a.height - det.height, b.height - det.height, c.height - det.height, f, g, fg);
  }

  lemma ScaledTwice(a: real, b: real, c: real, f: real, g: real, fg: real)
    requires Scaled(a, b, f) && Scaled(b, c, g) && fg == f * g
    ensures Scaled(a, c, fg)
  {
    assert f * b == f * (g * c);
  }

  ghost predicate NoneOverlaps(shields: seq<TrackedShield>, det: BoundingBox, threshold: real) {
    forall s :: s in shields ==> !s.box.Overlaps(det, threshold)
  }

  /** The first overlapping shield follows the detection, wherever it stands in the list: it moves
      towards it, is seen now, and takes new anchors around where it then lies when there are
      pixels.  No other shield changes, and none is added. */
  lemma {:induction false} IngestedAt(frame: Frame, pre: seq<TrackedShield>, s: TrackedShield, post: seq<TrackedShield>,
                                      det: BoundingBox, now: nat, config: AnchorConfig)
    requires NoneOverlaps(pre, det, config.mergeIouThreshold) && s.box.Overlaps(det, config.mergeIouThreshold)
    ensures Ingested(frame, pre + [s] + post, det, now, config) == pre + [Refreshed(frame, s, det, now, config)] + post
    ensures var box := s.box.Smoothed(det, config.emaAlpha);
            Refreshed(frame, s, det, now, config)
            == TrackedShield(box, now, s.createdMs, s.isStatic,
                             if frame.data.Some? && frame.width > 0 then Sampled(frame, box, config.paddingRatio)
                             else s.anchors)
    decreases |pre|
  {
    RefreshedIs(frame, s, det, now, config);
    hide BoundingBox.Overlaps, BoundingBox.Smoothed, NewShield, Sampled, Refreshed;
    var all := pre + [s] + post;
    if pre == [] {
      assert all[0] == s && all[1..] == post;
    } else {
      assert all[0] == pre[0] && all[1..] == pre[1..] + [s] + post;
      IngestedAt(frame, pre[1..], s, post, det, now, config);
    }
  }

  lemma RefreshedIs(frame: Frame, s: TrackedShield, det: BoundingBox, now: nat, config: AnchorConfig)
    ensures var box := s.box.Smoothed(det, config.emaAlpha);
            Refreshed(frame, s, det, now, config)
            == TrackedShield(box, now, s.createdMs, s.isStatic,
                             if frame.data.Some? && frame.width > 0 then Sampled(frame, box, config.paddingRatio)
                             else s.anchors)
  {
    hide BoundingBox.Smoothed, Sampled;
  }

  /** A detection that overlaps no shield starts one, behind the others. */
  lemma {:induction false} IngestedNew(frame: Frame, shields: seq<TrackedShield>, det: BoundingBox, now: nat,
                                       config: AnchorConfig)
    requires NoneOverlaps(shields, det, config.mergeIouThreshold)
    ensures Ingested(frame, shields, det, now, config)
         == shields + [TrackedShield(det, now, now, false,
                                     if frame.data.Some? && frame.width > 0 then
                                       Sampled(frame, det, config.paddingRatio)
                                     else [])]
  {
    hide BoundingBox.Overlaps, Refreshed, Sampled;
    if shields != [] {
      assert shields == [shields[0]] + shields[1..];
      IngestedNew(frame, shields[1..], det, now, config);
    }
  }

  lemma {:induction false} PurgedConcat(a: seq<TrackedShield>, b: seq<TrackedShield>, now: nat, config: AnchorConfig)
    ensures Purged(a + b, now, config) == Purged(a, now, config) + Purged(b, now, config)
  {
    hide Expired;
    if a == [] {
      assert a + b == b;
    } else {
      assert (a + b)[1..] == a[1..] + b;
      PurgedConcat(a[1..], b, now, config);
    }
  }

  lemma {:induction false} PurgedShorter(shields: seq<TrackedShield>, now: nat, config: AnchorConfig)
    ensures |Purged(shields, now, config)| <= |shields|
  {
    if shields != [] { PurgedShorter(shields[1..], now, config); }
  }

  lemma PurgedAround(pre: seq<TrackedShield>, s: TrackedShield, post: seq<TrackedShield>, now: nat,
                     config: AnchorConfig)
    requires !Expired(s, now, config)
    ensures Purged(pre + [s] + post, now, config) == Purged(pre, now, config) + [s] + Purged(post, now, config)
  {
    hide Expired;
    PurgedConcat(pre + [s], post, now, config);
    PurgedConcat(pre, [s], now, config);
    assert Purged([s], now, config) == [s];
  }

  /** One frame without pixels and with one detection that overlaps this shield first. */
  lemma RepeatedStep(frame: Frame, pre: seq<TrackedShield>, s: TrackedShield, post: seq<TrackedShield>,
                     det: BoundingBox, now: nat, config: AnchorConfig)
    returns (s': TrackedShield)
    requires !HasPixels(frame) && NoneOverlaps(pre, det, config.mergeIouThreshold)
    requires s.box.Overlaps(det, config.mergeIouThreshold) && MaxAge(s, config) > 0
    ensures Shields(frame, pre + [s] + post, [det], now, config)
         == Purged(pre, now, config) + [s'] + Purged(post, now, config)
    ensures s'.box == s.box.Smoothed(det, config.emaAlpha)
    ensures s'.createdMs == s.createdMs && s'.isStatic == s.isStatic && s'.lastSeenMs == now
  {
    s' := Refreshed(frame, s, det, now, config);
    IngestedAt(frame, pre, s, post, det, now, config);
    PurgedAround(pre, s', post, now, config);
    hide BoundingBox.Overlaps, BoundingBox.Smoothed, Sampled, Purged, Ingested;
    assert [det][1..] == [];
    assert AllIngested(frame, pre + [s'] + post, [], now, config) == pre + [s'] + post;
    assert Updated(frame, pre + [s] + post, [det], now, config) == pre + [s'] + post;
  }

  /** What is left of a list after some frames: fewer shields, none of them new or changed. */
  ghost predicate Remains(left: seq<TrackedShield>, shields: seq<TrackedShield>) {
    |left| <= |shields| && forall s :: s in left ==> s in shields
  }

  lemma RemainsPurged(left: seq<TrackedShield>, shields: seq<TrackedShield>, now: nat, config: AnchorConfig)
    requires Remains(left, shields)
    ensures Remains(Purged(left, now, config), shields)
  {
    PurgedMembers(left, now, config);
    PurgedShorter(left, now, config);
  }

  lemma RemainsItself(shields: seq<TrackedShield>)
    ensures Remains(shields, shields)
  {
  }

  lemma NoneOfFewer(left: seq<TrackedShield>, shields: seq<TrackedShield>, det: BoundingBox, threshold: real)
    requires Remains(left, shields) && NoneOverlaps(shields, det, threshold)
    ensures NoneOverlaps(left, det, threshold)
  {
    hide BoundingBox.Overlaps;
  }

  /** Contraction: the same detection in n frames without pixel data keeps matching the same
      shield, the first it overlaps (at an IoU that never falls), adds no shield and touches no
      other, and brings each coordinate (1 - alpha)^n times as close to the detection, whatever
      the clock does. */
  lemma {:induction false} RepeatedDetection(pre: seq<TrackedShield>, s: TrackedShield, post: seq<TrackedShield>,
                                             det: BoundingBox, frames: seq<(Frame, nat)>, config: AnchorConfig)
    returns (pre': seq<TrackedShield>, s': TrackedShield, post': seq<TrackedShield>)
    requires 0.0 < config.emaAlpha <= 1.0 && 0.0 <= config.mergeIouThreshold && MaxAge(s, config) > 0
    requires NoneOverlaps(pre, det, config.mergeIouThreshold) && s.box.Overlaps(det, config.mergeIouThreshold)
    requires forall k :: 0 <= k < |frames| ==> !HasPixels(frames[k].0)
    ensures Repeated(pre + [s] + post, det, frames, config) == pre' + [s'] + post'
    ensures Remains(pre', pre) && Remains(post', post)
    ensures s'.createdMs == s.createdMs && s'.isStatic == s.isStatic
    ensures s'.box.confidence == s.box.confidence && s'.box.classId == s.box.classId
    ensures Nearer(s'.box, s.box, det, Pow(1.0 - config.emaAlpha, |frames|))
    ensures s'.box.Iou(det) >= s.box.Iou(det)
    ensures s'.box.Overlaps(det, config.mergeIouThreshold)
    decreases |frames|
  {
    hide BoundingBox.Iou, BoundingBox.Smoothed, Shields, Nearer, Pow, Remains, NoneOverlaps;
    PowSteps(1.0 - config.emaAlpha);
    if frames == [] {
      pre', s', post' := pre, s, post;
      RemainsItself(pre);
      RemainsItself(post);
      SameNearer(s.box, det);
    } else {
      var n := |frames| - 1;
      var left, middle, right := RepeatedDetection(pre, s, post, det, frames[..n], config);
      NoneOfFewer(left, pre, det, config.mergeIouThreshold);
      s' := RepeatedStep(frames[n].0, left, middle, right, det, frames[n].1, config);
      pre', post' := Purged(left, frames[n].1, config), Purged(right, frames[n].1, config);
      RemainsPurged(left, pre, frames[n].1, config);
      RemainsPurged(right, post, frames[n].1, config);
      SmoothingNeverLowersIou(middle.box, det, config.emaAlpha, config.mergeIouThreshold);
      SmoothedNearer(middle.box, det, config.emaAlpha);
      SmoothedLabels(middle.box, det, config.emaAlpha);
      assert Pow(1.0 - config.emaAlpha, n + 1) == (1.0 - config.emaAlpha) * Pow(1.0 - config.emaAlpha, n);
      NearerTwice(s'.box, middle.box, s.box, det, 1.0 - config.emaAlpha, Pow(1.0 - config.emaAlpha, n),
                  Pow(1.0 - config.emaAlpha, n + 1));
    }
  }

  lemma PowSteps(b: real)
    ensures Pow(b, 0) == 1.0
    ensures forall n: nat :: n > 0 ==> Pow(b, n) == b * Pow(b, n - 1)
  {
  }

  lemma SameNearer(b: BoundingBox, det: BoundingBox)
    ensures Nearer(b, b, det, 1.0)
  {
  }

  // ---------- Lock onto an unchanging screen ----------

  /** The pixels around the shield still look as they did when its anchors were taken. */
  predicate Locked(frame: Frame, s: TrackedShield, config: AnchorConfig) {
    s.anchors != [] && Score(frame, s.anchors, 0) < config.anchorErrorThreshold
  }

  lemma LockedEvaluated(frame: Frame, s: TrackedShield, now: nat, config: AnchorConfig)
    requires HasPixels(frame) && Locked(frame, s, config)
    ensures Evaluated(frame, s, now, config) == s.(isStatic := true, lastSeenMs := now)
  {
  }

  lemma {:induction false} BestOffsetIsScore(frame: Frame, anchors: seq<AnchorPixel>, offsets: seq<int>, bestDy: int,
                                             bestErr: real)
    requires bestDy != 0 ==> bestErr == Score(frame, anchors, bestDy)
    ensures var (dy, err) := BestOffset(frame, anchors, offsets, bestDy, bestErr);
            && (dy != 0 ==> err == Score(frame, anchors, dy))
            && err <= bestErr
            && forall o :: o in offsets ==> err <= Score(frame, anchors, o)
    decreases |offsets|
  {
    hide Score;
    if offsets != [] {
      var err := Score(frame, anchors, offsets[0]);
      assert offsets == [offsets[0]] + offsets[1..];
      if err < bestErr { BestOffsetIsScore(frame, anchors, offsets[1..], offsets[0], err); }
      else { BestOffsetIsScore(frame, anchors, offsets[1..], bestDy, bestErr); }
    }
  }

  /** A shield that followed a scroll is locked onto the scrolled screen: its moved anchors
      score there exactly the error that decided the move, which is below 8.  The offset is the
      first of the ten with the least error. */
  lemma ScrolledLocks(frame: Frame, s: TrackedShield, now: nat, config: AnchorConfig) returns (i: nat)
    requires HasPixels(frame) && s.anchors != [] && 8.0 <= config.anchorErrorThreshold
    requires !Locked(frame, s, config) && Evaluated(frame, s, now, config).isStatic
    ensures Locked(frame, Evaluated(frame, s, now, config), config)
    ensures i < 10 && Evaluated(frame, s, now, config)
                      == Scrolled(frame, s, [-80, -60, -40, -20, -10, 10, 20, 40, 60, 80][i], now)
    ensures var offsets := [-80, -60, -40, -20, -10, 10, 20, 40, 60, 80];
            && (forall j :: 0 <= j < 10 ==> Score(frame, s.anchors, offsets[i]) <= Score(frame, s.anchors, offsets[j]))
            && (forall j :: 0 <= j < i ==> Score(frame, s.anchors, offsets[i]) < Score(frame, s.anchors, offsets[j]))
  {
    hide Score, Shifted, BestOffset, BoundingBox.Expanded;
    var staticErr := Score(frame, s.anchors, 0);
    var (dy, err) := BestOffset(frame, s.anchors, OFFSETS, 0, staticErr);
    BestOffsetIsScore(frame, s.anchors, OFFSETS, 0, staticErr);
    ShiftedScore(frame, s.anchors, dy, 0);
    assert IsScroll(staticErr, dy, err) && Evaluated(frame, s, now, config) == Scrolled(frame, s, dy, now);
    i := BestOffsetFirst(frame, s.anchors, OFFSETS, 0, staticErr);
    assert Scrolled(frame, s, dy, now).anchors == Shifted(s.anchors, dy);
    assert forall j :: 0 <= j < 10 ==> OFFSETS[j] in OFFSETS;
  }

  lemma {:induction false} BestOffsetFirst(frame: Frame, anchors: seq<AnchorPixel>, offsets: seq<int>, bestDy: int,
                                           bestErr: real)
    returns (i: nat)
    requires BestOffset(frame, anchors, offsets, bestDy, bestErr).1 < bestErr
    ensures var (dy, err) := BestOffset(frame, anchors, offsets, bestDy, bestErr);
            && i < |offsets| && dy == offsets[i] && err == Score(frame, anchors, dy)
            && forall j :: 0 <= j < i ==> err < Score(frame, anchors, offsets[j])
    decreases |offsets|
  {
    hide Score;
    var first := Score(frame, anchors, offsets[0]);
    var (dy, err) := if first < bestErr then (offsets[0], first) else (bestDy, bestErr);
    if BestOffset(frame, anchors, offsets[1..], dy, err).1 < err {
      var rest := BestOffsetFirst(frame, anchors, offsets[1..], dy, err);
      i := rest + 1;
    } else {
      BestOffsetUnbeaten(frame, anchors, offsets[1..], dy, err);
      i := 0;
    }
  }

  lemma {:induction false} BestOffsetUnbeaten(frame: Frame, anchors: seq<AnchorPixel>, offsets: seq<int>, bestDy: int,
                                              bestErr: real)
    requires !(BestOffset(frame, anchors, offsets, bestDy, bestErr).1 < bestErr)
    ensures BestOffset(frame, anchors, offsets, bestDy, bestErr) == (bestDy, bestErr)
    decreases |offsets|
  {
    hide Score;
    if offsets != [] {
      var first := Score(frame, anchors, offsets[0]);
      BestOffsetAtMost(frame, anchors, offsets[1..], offsets[0], first);
      if !(first < bestErr) { BestOffsetUnbeaten(frame, anchors, offsets[1..], bestDy, bestErr); }
    }
  }

  lemma {:induction false} BestOffsetAtMost(frame: Frame, anchors: seq<AnchorPixel>, offsets: seq<int>, bestDy: int,
                                            bestErr: real)
    ensures BestOffset(frame, anchors, offsets, bestDy, bestErr).1 <= bestErr
    decreases |offsets|
  {
    hide Score;
    if offsets != [] {
      var first := Score(frame, anchors, offsets[0]);
      if first < bestErr { BestOffsetAtMost(frame, anchors, offsets[1..], offsets[0], first); }
      else { BestOffsetAtMost(frame, anchors, offsets[1..], bestDy, bestErr); }
    }
  }

  /** Following a scroll moves the shield down by that many pixels, or as far as the screen allows,
      and its anchors by just as many; nothing else of its position changes. */
  lemma ScrolledMoves(frame: Frame, s: TrackedShield, dy: int, now: nat)
    requires frame.height > 0 && s.box.InUnitSquare()
    ensures var r := Scrolled(frame, s, dy, now);
            var target, lowest := s.box.y * frame.height as real + dy as real, 1.0 - s.box.height;
            && r.box == s.box.(y := r.box.y) && r.box.InUnitSquare()
            && r.createdMs == s.createdMs && r.lastSeenMs == now
            && (target < 0.0 ==> r.box.y == 0.0)
            && (target > lowest * frame.height as real ==> r.box.y == lowest)
            && (0.0 <= target <= lowest * frame.height as real ==> r.box.y * frame.height as real == target)
            && |r.anchors| == |s.anchors|
            && forall k :: 0 <= k < |s.anchors| ==> r.anchors[k] == s.anchors[k].(y := s.anchors[k].y + dy)
  {
    var h, y := frame.height as real, s.box.y + dy as real / frame.height as real;
    Rescaled(s.box.y, dy as real, h);
    ScaledAgainst(y, h, 0.0);
    ScaledAgainst(y, h, 1.0 - s.box.height);
  }

  lemma Rescaled(y: real, d: real, h: real)
    requires h > 0.0
    ensures (y + d / h) * h == y * h + d
  {
    assert d / h * h == d;
  }

  lemma ScaledAgainst(y: real, h: real, bound: real)
    requires h > 0.0
    ensures y < bound <==> y * h < bound * h
    ensures y == bound <==> y * h == bound * h
  {
    if y < bound { assert (bound - y) * h > 0.0; }
    if y > bound { assert (y - bound) * h > 0.0; }
  }

  /** One of the ten offsets tried, in pixels. */
  predicate Tried(o: int) { o in {-80, -60, -40, -20, -10, 10, 20, 40, 60, 80} }

  /** The anchors fit the frame well at this offset, and much better than where they are. */
  predicate FitsAt(frame: Frame, anchors: seq<AnchorPixel>, o: int) {
    Score(frame, anchors, o) < 8.0 && Score(frame, anchors, 0) - Score(frame, anchors, o) > 8.0
  }

  /** A shield that is not locked follows a scroll exactly when some offset scores below 8 and
      beats standing still by more than 8; otherwise it is left as it is, but not static. */
  lemma FollowsScrollIff(frame: Frame, s: TrackedShield, now: nat, config: AnchorConfig)
    requires HasPixels(frame) && s.anchors != [] && !Locked(frame, s, config)
    ensures Evaluated(frame, s, now, config).isStatic <==> exists o :: Tried(o) && FitsAt(frame, s.anchors, o)
    ensures !Evaluated(frame, s, now, config).isStatic ==> Evaluated(frame, s, now, config) == s.(isStatic := false)
  {
    assert forall o :: Tried(o) <==> o in OFFSETS;
    hide Score, Shifted, BestOffset, BoundingBox.Expanded;
    var staticErr := Score(frame, s.anchors, 0);
    var (dy, err) := BestOffset(frame, s.anchors, OFFSETS, 0, staticErr);
    BestOffsetIsScore(frame, s.anchors, OFFSETS, 0, staticErr);
    BestOffsetIsOffset(frame, s.anchors, OFFSETS, 0, staticErr);
    assert 0 !in OFFSETS;
    assert Evaluated(frame, s, now, config).isStatic <==> IsScroll(staticErr, dy, err);
  }

  lemma {:induction false} BestOffsetIsOffset(frame: Frame, anchors: seq<AnchorPixel>, offsets: seq<int>, bestDy: int,
                                              bestErr: real)
    ensures var (dy, err) := BestOffset(frame, anchors, offsets, bestDy, bestErr);
            (dy == bestDy || dy in offsets) && (err < bestErr ==> dy in offsets)
    decreases |offsets|
  {
    hide Score;
    if offsets != [] {
      var err := Score(frame, anchors, offsets[0]);
      if err < bestErr { BestOffsetIsOffset(frame, anchors, offsets[1..], offsets[0], err); }
      else { BestOffsetIsOffset(frame, anchors, offsets[1..], bestDy, bestErr); }
    }
  }

  /** Seen now, with anchors taken from this frame around its own box. */
  predicate JustSampled(frame: Frame, s: TrackedShield, now: nat, config: AnchorConfig) {
    s.lastSeenMs == now && s.anchors == Sampled(frame, s.box, config.paddingRatio)
  }

  /** A shield just sampled is locked as soon as sampling found four anchors, that is, when
      some side of its padded box is at least the margin away from the border. */
  lemma JustSampledLocks(frame: Frame, s: TrackedShield, now: nat, config: AnchorConfig)
    requires HasPixels(frame) && JustSampled(frame, s, now, config) && 0.0 < config.anchorErrorThreshold <= NO_MATCH
    ensures Locked(frame, s, config) <==> RoomySides(frame, PixelWindow(frame, s.box, config.paddingRatio)) > 0
    ensures Locked(frame, s, config) <==> |s.anchors| >= 4
  {
    SampledCount(frame, s.box, config.paddingRatio);
    if |s.anchors| >= 4 { SampledScoresZero(frame, s.box, config.paddingRatio); }
    if Locked(frame, s, config) { ScoreNeedsFour(frame, s.anchors, 0); }
  }

  /** What a detection does to the shields, position by position. */
  lemma {:induction false} IngestedPositions(frame: Frame, shields: seq<TrackedShield>, det: BoundingBox, now: nat,
                                             config: AnchorConfig)
    requires HasPixels(frame)
    ensures var r := Ingested(frame, shields, det, now, config);
            && |shields| <= |r| <= |shields| + 1
            && (forall k :: 0 <= k < |shields| ==>
                  || r[k] == shields[k]
                  || (&& shields[k].box.Overlaps(det, config.mergeIouThreshold)
                      && JustSampled(frame, r[k], now, config) && r[k].createdMs == shields[k].createdMs))
            && (forall k :: |shields| <= k < |r| ==> JustSampled(frame, r[k], now, config))
  {
    hide BoundingBox.Overlaps, BoundingBox.Smoothed, Sampled;
    if shields != [] { IngestedPositions(frame, shields[1..], det, now, config); }
  }

  lemma {:induction false} AllIngestedPositions(frame: Frame, shields: seq<TrackedShield>, dets: seq<BoundingBox>,
                                                now: nat,
                                                config: AnchorConfig)
    requires HasPixels(frame)
    ensures var r := AllIngested(frame, shields, dets, now, config);
            && (forall k :: 0 <= k < |shields| ==>
                  && r[k].createdMs == shields[k].createdMs
                  && (r[k] == shields[k] || JustSampled(frame, r[k], now, config))
                  && (Unmatched(shields[k].box, dets, config) ==> r[k] == shields[k]))
            && (forall k :: |shields| <= k < |r| ==> JustSampled(frame, r[k], now, config))
    decreases |dets|
  {
    hide BoundingBox.Overlaps, Sampled;
    if dets != [] {
      var next := Ingested(frame, shields, dets[0], now, config);
      IngestedPositions(frame, shields, dets[0], now, config);
      AllIngestedPositions(frame, next, dets[1..], now, config);
      assert dets[0] in dets;
      assert dets == [dets[0]] + dets[1..];
      var r := AllIngested(frame, shields, dets, now, config);
      forall k | |shields| <= k < |r| ensures JustSampled(frame, r[k], now, config) {
        if k < |next| { assert JustSampled(frame, next[k], now, config); }
      }
    }
  }

  ghost predicate Unmatched(box: BoundingBox, dets: seq<BoundingBox>, config: AnchorConfig) {
    forall d :: d in dets ==> !box.Overlaps(d, config.mergeIouThreshold)
  }

  /** Repeated frames that all show the same picture, with any detections at any times. */
  function Still(frame: Frame, shields: seq<TrackedShield>, steps: seq<(seq<BoundingBox>, nat)>, config: AnchorConfig)
    : seq<TrackedShield>
    decreases |steps|
  {
    if steps == [] then shields
    else Still(frame, Shields(frame, shields, steps[0].0, steps[0].1, config), steps[1..], config)
  }

  /** A locked shield that no detection matches stays where it is, static and with the same
      anchors, through any number of frames of an unchanging screen, whatever else is tracked. */
  lemma {:induction false} LockedStays(frame: Frame, shields: seq<TrackedShield>, s: TrackedShield,
                                       steps: seq<(seq<BoundingBox>, nat)>, config: AnchorConfig)
    returns (s': TrackedShield)
    requires HasPixels(frame) && s in shields && Locked(frame, s, config) && config.persistenceWindowMs > 0
    requires forall k :: 0 <= k < |steps| ==> Unmatched(s.box, steps[k].0, config)
    ensures s' in Still(frame, shields, steps, config) && (steps == [] ==> s' == s)
    ensures s'.box == s.box && s'.anchors == s.anchors && s'.createdMs == s.createdMs
    ensures steps != [] ==> s'.isStatic && s'.lastSeenMs == steps[|steps| - 1].1
    decreases |steps|
  {
    hide AllIngested, Evaluated, Unmatched, Score, JustSampled, Purged;
    if steps == [] {
      s' := s;
    } else {
      var (dets, now) := steps[0];
      var k: nat :| k < |shields| && shields[k] == s;
      var evaluated := AllEvaluated(frame, shields, now, config);
      LockedEvaluated(frame, s, now, config);
      var next := s.(isStatic := true, lastSeenMs := now);
      assert evaluated[k] == next;
      AllIngestedPositions(frame, evaluated, dets, now, config);
      var updated := Updated(frame, shields, dets, now, config);
      assert updated[k] == next && next in updated;
      PurgedMembers(updated, now, config);
      s' := LockedStays(frame, Shields(frame, shields, dets, now, config), next, steps[1..], config);
    }
  }

  ghost predicate AllLocked(frame: Frame, shields: seq<TrackedShield>, config: AnchorConfig) {
    forall k :: 0 <= k < |shields| ==> Locked(frame, shields[k], config)
  }

  /** Whenever this run samples anchors, it finds at least four. */
  ghost predicate SamplesWell(frame: Frame, shields: seq<TrackedShield>, steps: seq<(seq<BoundingBox>, nat)>,
                              config: AnchorConfig)
    decreases |steps|
  {
    steps == [] ||
    (&& (forall s :: s in Updated(frame, shields, steps[0].0, steps[0].1, config) ==> |s.anchors| >= 4)
     && SamplesWell(frame, Shields(frame, shields, steps[0].0, steps[0].1, config), steps[1..], config))
  }

  lemma StillStep(frame: Frame, shields: seq<TrackedShield>, dets: seq<BoundingBox>, now: nat, config: AnchorConfig)
    requires HasPixels(frame) && AllLocked(frame, shields, config)
    requires config.persistenceWindowMs > 0 && config.dynamicDecayMs > 0
    requires 0.0 < config.anchorErrorThreshold <= NO_MATCH
    requires forall s :: s in Updated(frame, shields, dets, now, config) ==> |s.anchors| >= 4
    ensures var r := Shields(frame, shields, dets, now, config);
            && AllLocked(frame, r, config) && |shields| <= |r|
            && forall k :: 0 <= k < |shields| ==>
                 && r[k].createdMs == shields[k].createdMs
                 && (Unmatched(shields[k].box, dets, config) ==>
                       r[k].box == shields[k].box && r[k].anchors == shields[k].anchors)
  {
    hide Evaluated, Unmatched, JustSampled;
    var evaluated := AllEvaluated(frame, shields, now, config);
    var updated := Updated(frame, shields, dets, now, config);
    forall k | 0 <= k < |shields| ensures evaluated[k] == shields[k].(isStatic := true, lastSeenMs := now) {
      LockedEvaluated(frame, shields[k], now, config);
    }
    AllIngestedPositions(frame, evaluated, dets, now, config);
    forall k | 0 <= k < |updated| ensures Locked(frame, updated[k], config) && !Expired(updated[k], now, config) {
      assert updated[k] in updated;
      if k >= |shields| { assert JustSampled(frame, updated[k], now, config); }
      if JustSampled(frame, updated[k], now, config) {
        JustSampledLocks(frame, updated[k], now, config);
        JustSampledNow(frame, updated[k], now, config);
      } else {
        assert Locked(frame, shields[k], config);
        assert updated[k] == evaluated[k];
      }
    }
    NothingPurged(updated, now, config);
  }

  lemma JustSampledNow(frame: Frame, s: TrackedShield, now: nat, config: AnchorConfig)
    requires JustSampled(frame, s, now, config)
    ensures s.lastSeenMs == now
  {
  }

  /** On an unchanging screen where sampling always finds four anchors, no shield is ever
      purged and all stay locked: each keeps its position and creation time, and those that
      no detection matches keep their box and anchors. */
  lemma {:induction false} NothingFlickers(frame: Frame, shields: seq<TrackedShield>,
                                           steps: seq<(seq<BoundingBox>, nat)>, config: AnchorConfig)
    requires HasPixels(frame) && AllLocked(frame, shields, config) && SamplesWell(frame, shields, steps, config)
    requires config.persistenceWindowMs > 0 && config.dynamicDecayMs > 0
    requires 0.0 < config.anchorErrorThreshold <= NO_MATCH
    ensures var r := Still(frame, shields, steps, config);
            && AllLocked(frame, r, config) && |shields| <= |r|
            && forall k :: 0 <= k < |shields| ==>
                 && r[k].createdMs == shields[k].createdMs
                 && ((forall i :: 0 <= i < |steps| ==> Unmatched(shields[k].box, steps[i].0, config)) ==>
                       r[k].box == shields[k].box && r[k].anchors == shields[k].anchors)
    decreases |steps|
  {
    hide Shields, Updated, Unmatched, Locked;
    if steps != [] {
      StillStep(frame, shields, steps[0].0, steps[0].1, config);
      NothingFlickers(frame, Shields(frame, shields, steps[0].0, steps[0].1, config), steps[1..], config);
    }
  }

  // ---------- Where sampling always works ----------

  /** Every shield has room on the side and at least four anchors. */
  ghost predicate AllRoomy(shields: seq<TrackedShield>, side: Side, frame: Frame, padding: real) {
    forall s :: s in shields ==> Room(side, s.box, frame, padding) && |s.anchors| >= 4
  }

  lemma RefreshedRoomy(frame: Frame, s: TrackedShield, side: Side, det: BoundingBox, now: nat, config: AnchorConfig)
    requires HasPixels(frame) && ProperConfig(config)
    requires Room(side, s.box, frame, config.paddingRatio) && Room(side, det, frame, config.paddingRatio)
    ensures AllRoomy([Refreshed(frame, s, det, now, config), NewShield(frame, det, now, config)],
                     side, frame, config.paddingRatio)
  {
    hide Room, Sampled, BoundingBox.Smoothed;
    var padding := config.paddingRatio;
    RoomSmoothed(side, s.box, det, frame, padding, config.emaAlpha);
    RoomSampled(side, s.box.Smoothed(det, config.emaAlpha), frame, padding);
    RoomSampled(side, det, frame, padding);
  }

  lemma {:induction false} IngestedRoomy(frame: Frame, shields: seq<TrackedShield>, side: Side, det: BoundingBox,
                                         now: nat,
                                         config: AnchorConfig)
    requires HasPixels(frame) && ProperConfig(config)
    requires AllRoomy(shields, side, frame, config.paddingRatio) && Room(side, det, frame, config.paddingRatio)
    ensures AllRoomy(Ingested(frame, shields, det, now, config), side, frame, config.paddingRatio)
  {
    hide Room, BoundingBox.Overlaps, Refreshed, NewShield;
    var any := if shields == [] then NewShield(frame, det, now, config) else shields[0];
    if shields == [] {
      RefreshedRoomy(frame, TrackedShield(det, now, now, false, []), side, det, now, config);
      assert any in [Refreshed(frame, TrackedShield(det, now, now, false, []), det, now, config), any];
    } else {
      assert shields[0] in shields;
      RefreshedRoomy(frame, shields[0], side, det, now, config);
      var both := [Refreshed(frame, shields[0], det, now, config), NewShield(frame, det, now, config)];
      assert both[0] in both;
      IngestedRoomy(frame, shields[1..], side, det, now, config);
    }
  }

  lemma {:induction false} AllIngestedRoomy(frame: Frame, shields: seq<TrackedShield>, side: Side,
                                            dets: seq<BoundingBox>,
                                            now: nat, config: AnchorConfig)
    requires HasPixels(frame) && ProperConfig(config) && AllRoomy(shields, side, frame, config.paddingRatio)
    requires forall d :: d in dets ==> Room(side, d, frame, config.paddingRatio)
    ensures AllRoomy(AllIngested(frame, shields, dets, now, config), side, frame, config.paddingRatio)
    decreases |dets|
  {
    hide Room, Ingested, AllRoomy;
    if dets != [] {
      assert dets[0] in dets;
      IngestedRoomy(frame, shields, side, dets[0], now, config);
      AllIngestedRoomy(frame, Ingested(frame, shields, dets[0], now, config), side, dets[1..], now, config);
    }
  }

  lemma EvaluatedRoomy(frame: Frame, shields: seq<TrackedShield>, side: Side, now: nat, config: AnchorConfig)
    requires HasPixels(frame) && AllLocked(frame, shields, config) && config.anchorErrorThreshold <= NO_MATCH
    requires forall s :: s in shields ==> Room(side, s.box, frame, config.paddingRatio)
    ensures AllRoomy(AllEvaluated(frame, shields, now, config), side, frame, config.paddingRatio)
  {
    hide Room, Evaluated, Score;
    var evaluated := AllEvaluated(frame, shields, now, config);
    forall k | 0 <= k < |evaluated|
      ensures Room(side, evaluated[k].box, frame, config.paddingRatio) && |evaluated[k].anchors| >= 4
    {
      assert shields[k] in shields && Locked(frame, shields[k], config);
      LockedEvaluated(frame, shields[k], now, config);
      ScoreNeedsFour(frame, shields[k].anchors, 0);
    }
  }

  /** When on one side of the screen all shields and all detections keep the sampling margin
      from the border, padding included, smoothing keeps it too, and sampling always works. */
  lemma {:induction false} RoomySamplesWell(frame: Frame, shields: seq<TrackedShield>, side: Side,
                                            steps: seq<(seq<BoundingBox>, nat)>, config: AnchorConfig)
    requires HasPixels(frame) && ProperConfig(config) && AllLocked(frame, shields, config)
    requires config.persistenceWindowMs > 0 && config.dynamicDecayMs > 0
    requires 0.0 < config.anchorErrorThreshold <= NO_MATCH
    requires forall s :: s in shields ==> Room(side, s.box, frame, config.paddingRatio)
    requires forall k, d :: 0 <= k < |steps| && d in steps[k].0 ==> Room(side, d, frame, config.paddingRatio)
    ensures SamplesWell(frame, shields, steps, config)
    decreases |steps|
  {
    hide Room, AllLocked, Locked, AllEvaluated, AllIngested, Purged;
    if steps != [] {
      var (dets, now) := steps[0];
      EvaluatedRoomy(frame, shields, side, now, config);
      AllIngestedRoomy(frame, AllEvaluated(frame, shields, now, config), side, dets, now, config);
      StillStep(frame, shields, dets, now, config);
      PurgedMembers(Updated(frame, shields, dets, now, config), now, config);
      RoomySamplesWell(frame, Shields(frame, shields, dets, now, config), side, steps[1..], config);
    }
  }

  /** Nothing flickers under that condition on shields and detections alone. */
  lemma RoomyNothingFlickers(frame: Frame, shields: seq<TrackedShield>, side: Side,
                             steps: seq<(seq<BoundingBox>, nat)>, config: AnchorConfig)
    requires HasPixels(frame) && ProperConfig(config) && AllLocked(frame, shields, config)
    requires config.persistenceWindowMs > 0 && config.dynamicDecayMs > 0
    requires 0.0 < config.anchorErrorThreshold <= NO_MATCH
    requires forall s :: s in shields ==> Room(side, s.box, frame, config.paddingRatio)
    requires forall k, d :: 0 <= k < |steps| && d in steps[k].0 ==> Room(side, d, frame, config.paddingRatio)
    ensures var r := Still(frame, shields, steps, config);
            && AllLocked(frame, r, config) && |shields| <= |r|
            && forall k :: 0 <= k < |shields| ==>
                 && r[k].createdMs == shields[k].createdMs
                 && ((forall i :: 0 <= i < |steps| ==> Unmatched(shields[k].box, steps[i].0, config)) ==>
                       r[k].box == shields[k].box && r[k].anchors == shields[k].anchors)
  {
    RoomySamplesWell(frame, shields, side, steps, config);
    hide Room, SamplesWell, AllLocked, Still, Unmatched;
    NothingFlickers(frame, shields, steps, config);
  }
}
