/** Which detections the boxes that the visual anchor tracker returns cover.  A shield that
    follows a detection may lag behind it, and only its padding makes up for that. */
module ShieldCoverage {
  import opened Bytes
  import opened Geometry
  import opened Histories
  import opened BoxMerge
  import opened MergeTrees
  import opened Frames
  import opened Anchors
  import opened AnchorTracker
  import opened AnchorRuns

  ghost predicate Shown(det: BoundingBox, boxes: seq<BoundingBox>) { exists b :: b in boxes && b.Covers(det) }

  // ---------- One detection of a frame ----------

  /** The box that a detection leads to: that of the first shield it overlaps, moved towards
      it, and otherwise its own. */
  function Landing(shields: seq<TrackedShield>, det: BoundingBox, config: AnchorConfig): BoundingBox {
    if shields == [] then det
    else if shields[0].box.Overlaps(det, config.mergeIouThreshold) then shields[0].box.Smoothed(det, config.emaAlpha)
    else Landing(shields[1..], det, config)
  }

  /** The shield that follows the detection, if there is one, is near enough for the padding. */
  predicate Reached(shields: seq<TrackedShield>, det: BoundingBox, config: AnchorConfig) {
    if shields == [] then true
    else if shields[0].box.Overlaps(det, config.mergeIouThreshold) then
      PaddingReaches(shields[0].box.Smoothed(det, config.emaAlpha), shields[0].box, det,
                     1.0 - config.emaAlpha, config.paddingRatio)
    else Reached(shields[1..], det, config)
  }

  lemma {:induction false} ReachedIff(shields: seq<TrackedShield>, det: BoundingBox, config: AnchorConfig)
    requires OnScreen(shields) && det.InUnitSquare() && ProperConfig(config)
    ensures Landing(shields, det, config).Expanded(config.paddingRatio).Covers(det) <==> Reached(shields, det, config)
  {
    hide BoundingBox.Smoothed, BoundingBox.Expanded, BoundingBox.Covers, BoundingBox.Overlaps;
    hide BoundingBox.InUnitSquare, PaddingReaches;
    if shields == [] {
      ExpandedGrows(det, config.paddingRatio);
    } else {
      assert shields[0] in shields;
      SmoothedPaddedIff(shields[0].box, det, config.emaAlpha, config.paddingRatio);
      ReachedIff(shields[1..], det, config);
    }
  }

  /** The place of that shield in the list. */
  function Position(shields: seq<TrackedShield>, det: BoundingBox, config: AnchorConfig): (k: nat)
    ensures k <= |shields|
  {
    if shields == [] || shields[0].box.Overlaps(det, config.mergeIouThreshold) then 0
    else Position(shields[1..], det, config) + 1
  }

  lemma {:induction false} Landed(frame: Frame, shields: seq<TrackedShield>, det: BoundingBox, now: nat,
                                  config: AnchorConfig)
    ensures var r, k := Ingested(frame, shields, det, now, config), Position(shields, det, config);
            k < |r| && r[k].box == Landing(shields, det, config) && r[k].lastSeenMs == now
  {
    hide BoundingBox.Smoothed, BoundingBox.Overlaps, Sampled;
    if shields != [] && !shields[0].box.Overlaps(det, config.mergeIouThreshold) {
      Landed(frame, shields[1..], det, now, config);
    }
  }

  /** Further detections leave a shield seen now in its place and seen now. */
  lemma {:induction false} IngestedSeen(frame: Frame, shields: seq<TrackedShield>, k: nat, det: BoundingBox, now: nat,
                                        config: AnchorConfig)
    requires k < |shields| && shields[k].lastSeenMs == now
    ensures Ingested(frame, shields, det, now, config)[k].lastSeenMs == now
    decreases k
  {
    hide BoundingBox.Overlaps, BoundingBox.Smoothed, Sampled, NewShield;
    if k > 0 { IngestedSeen(frame, shields[1..], k - 1, det, now, config); }
  }

  lemma {:induction false} AllIngestedSeen(frame: Frame, shields: seq<TrackedShield>, k: nat, dets: seq<BoundingBox>,
                                           now: nat, config: AnchorConfig)
    requires k < |shields| && shields[k].lastSeenMs == now
    ensures AllIngested(frame, shields, dets, now, config)[k].lastSeenMs == now
    decreases |dets|
  {
    hide Ingested;
    if dets != [] {
      IngestedSeen(frame, shields, k, dets[0], now, config);
      AllIngestedSeen(frame, Ingested(frame, shields, dets[0], now, config), k, dets[1..], now, config);
    }
  }

  lemma {:induction false} IngestedKeeps(frame: Frame, shields: seq<TrackedShield>, k: nat, det: BoundingBox, now: nat,
                                         config: AnchorConfig)
    requires k < |shields| && !shields[k].box.Overlaps(det, config.mergeIouThreshold)
    ensures Ingested(frame, shields, det, now, config)[k] == shields[k]
    decreases k
  {
    hide BoundingBox.Overlaps, Refreshed, NewShield;
    if k > 0 { IngestedKeeps(frame, shields[1..], k - 1, det, now, config); }
  }

  lemma {:induction false} AllIngestedKeeps(frame: Frame, shields: seq<TrackedShield>, k: nat, dets: seq<BoundingBox>,
                                            now: nat, config: AnchorConfig)
    requires k < |shields| && Unmatched(shields[k].box, dets, config)
    ensures AllIngested(frame, shields, dets, now, config)[k] == shields[k]
    decreases |dets|
  {
    hide BoundingBox.Overlaps, Ingested;
    if dets != [] {
      assert dets[0] in dets;
      IngestedKeeps(frame, shields, k, dets[0], now, config);
      AllIngestedKeeps(frame, Ingested(frame, shields, dets[0], now, config), k, dets[1..], now, config);
    }
  }

  lemma {:induction false} AllIngestedConcat(frame: Frame, shields: seq<TrackedShield>, a: seq<BoundingBox>,
                                             b: seq<BoundingBox>, now: nat, config: AnchorConfig)
    ensures AllIngested(frame, shields, a + b, now, config)
         == AllIngested(frame, AllIngested(frame, shields, a, now, config), b, now, config)
    decreases |a|
  {
    hide Ingested;
    if a == [] {
      assert a + b == b;
    } else {
      assert (a + b)[0] == a[0] && (a + b)[1..] == a[1..] + b;
      AllIngestedConcat(frame, Ingested(frame, shields, a[0], now, config), a[1..], b, now, config);
    }
  }

  // ---------- The boxes of a frame ----------

  /** The shields that detection `i` of the run's last frame meets. */
  ghost function OnArrival(run: seq<Event>, config: AnchorConfig, i: nat): seq<TrackedShield>
    requires run != [] && Last(run).Captured? && i <= |Last(run).dets|
  {
    var Captured(frame, dets, now) := Last(run);
    var State(shields, config') := StateAfter(Init(run), config);
    AllIngested(frame, AllEvaluated(frame, shields, now, config'), dets[..i], now, config')
  }

  /** Where the shield that detection `i` leads to lies at the end of the frame. */
  ghost function Settled(run: seq<Event>, config: AnchorConfig, i: nat): BoundingBox
    requires run != [] && Last(run).Captured? && i < |Last(run).dets|
  {
    var Captured(frame, dets, now) := Last(run);
    var config' := StateAfter(Init(run), config).config;
    var list := OnArrival(run, config, i);
    Landed(frame, list, dets[i], now, config');
    AllIngested(frame, Ingested(frame, list, dets[i], now, config'), dets[i + 1..], now, config')
      [Position(list, dets[i], config')].box
  }

  /** That shield is still there after the purge; and unless a later detection displaces it, it
      lies where the detection took it. */
  lemma SettledStays(run: seq<Event>, config: AnchorConfig, i: nat)
    requires run != [] && Last(run).Captured? && i < |Last(run).dets|
    requires var config' := StateAfter(run, config).config;
             config'.persistenceWindowMs > 0 && config'.dynamicDecayMs > 0
    ensures exists s :: s in StateAfter(run, config).shields && s.box == Settled(run, config, i)
    ensures var config' := StateAfter(run, config).config;
            var landing := Landing(OnArrival(run, config, i), Last(run).dets[i], config');
            Unmatched(landing, Last(run).dets[i + 1..], config') ==> Settled(run, config, i) == landing
  {
    hide Landing, Position, Unmatched, Ingested, AllIngested, AllEvaluated, Purged;
    var Captured(frame, dets, now) := Last(run);
    var State(shields, config') := StateAfter(Init(run), config);
    var evaluated := AllEvaluated(frame, shields, now, config');
    var list, det, later := OnArrival(run, config, i), dets[i], dets[i + 1..];
    assert dets == dets[..i] + dets[i..] && dets[i..][1..] == later;
    AllIngestedConcat(frame, evaluated, dets[..i], dets[i..], now, config');
    AllIngestedStep(frame, list, dets[i..], now, config');
    var next, k := Ingested(frame, list, det, now, config'), Position(list, det, config');
    Landed(frame, list, det, now, config');
    if Unmatched(next[k].box, later, config') { AllIngestedKeeps(frame, next, k, later, now, config'); }
    AllIngestedSeen(frame, next, k, later, now, config');
    AllIngestedGrows(frame, next, later, now, config');
    var all := AllIngested(frame, evaluated, dets, now, config');
    assert all == AllIngested(frame, next, later, now, config') && all[k] in all;
    assert !Expired(all[k], now, config');
    PurgedMembers(all, now, config');
  }

  lemma AllIngestedStep(frame: Frame, shields: seq<TrackedShield>, dets: seq<BoundingBox>, now: nat,
                        config: AnchorConfig)
    requires dets != []
    ensures AllIngested(frame, shields, dets, now, config)
         == AllIngested(frame, Ingested(frame, shields, dets[0], now, config), dets[1..], now, config)
  {
  }

  lemma AllIngestedGrows(frame: Frame, shields: seq<TrackedShield>, dets: seq<BoundingBox>, now: nat,
                         config: AnchorConfig)
    ensures |shields| <= |AllIngested(frame, shields, dets, now, config)|
  {
  }

  /** A padded shield is shown; and where merging had nothing to do nothing else is. */
  lemma ShownBy(shields: seq<TrackedShield>, s: TrackedShield, det: BoundingBox, config: AnchorConfig)
    requires OnScreen(shields) && ProperConfig(config) && s in shields
    ensures s.box.Expanded(config.paddingRatio).Covers(det) ==> Shown(det, Rendered(shields, config))
  {
    RenderedCovers(shields, config);
    hide BoundingBox.Covers, BoundingBox.Expanded, Rendered, OnScreen, Separated;
    var k: nat :| k < |shields| && shields[k] == s;
    if s.box.Expanded(config.paddingRatio).Covers(det) {
      var b :| b in Rendered(shields, config) && b.Covers(shields[k].box.Expanded(config.paddingRatio));
      CoversTransitive(b, s.box.Expanded(config.paddingRatio), det);
    }
  }

  lemma ShownOnlyBy(shields: seq<TrackedShield>, det: BoundingBox, config: AnchorConfig)
    requires Separated(Padded(shields, config.paddingRatio), config.mergeIouThreshold)
    ensures Shown(det, Rendered(shields, config))
        ==> exists s :: s in shields && s.box.Expanded(config.paddingRatio).Covers(det)
  {
    hide BoundingBox.Covers, BoundingBox.Expanded, Separated, Merged;
    var padded := Padded(shields, config.paddingRatio);
    MergedFixpoint(padded, config.mergeIouThreshold);
    if Shown(det, Rendered(shields, config)) {
      var b :| b in padded && b.Covers(det);
      var k: nat :| k < |padded| && padded[k] == b;
      assert shields[k] in shields;
    }
  }

  /** The returned boxes are built from the shields' boxes, each padded by the configured ratio and
      used once, by uniting only such as overlap beyond the configured threshold. */
  lemma ReturnedBuilt(shields: seq<TrackedShield>, config: AnchorConfig)
    returns (padded: seq<BoundingBox>, trees: seq<Tree>)
    ensures |padded| == |shields|
    ensures forall k :: 0 <= k < |shields| ==> padded[k] == shields[k].box.Expanded(config.paddingRatio)
    ensures |trees| == |Rendered(shields, config)| && AllLeaves(trees) == Positions(|shields|)
    ensures forall k :: 0 <= k < |trees| ==>
              Builds(trees[k], Rendered(shields, config)[k], padded, config.mergeIouThreshold)
  {
    hide BoundingBox.Expanded, Builds, AllLeaves, Positions, Merged;
    padded := Padded(shields, config.paddingRatio);
    trees := MergedForest(padded, config.mergeIouThreshold);
  }

  lemma ShieldShown(shields: seq<TrackedShield>, box: BoundingBox, det: BoundingBox, config: AnchorConfig)
    requires OnScreen(shields) && ProperConfig(config) && exists s :: s in shields && s.box == box
    ensures box.Expanded(config.paddingRatio).Covers(det) ==> Shown(det, Rendered(shields, config))
    ensures Separated(Padded(shields, config.paddingRatio), config.mergeIouThreshold) ==>
              (Shown(det, Rendered(shields, config)) <==>
               || box.Expanded(config.paddingRatio).Covers(det)
               || exists s :: s in shields && s.box != box && s.box.Expanded(config.paddingRatio).Covers(det))
  {
    hide BoundingBox.Covers, BoundingBox.Expanded, BoundingBox.InUnitSquare, Rendered, Separated;
    forall s | s in shields
      ensures s.box.Expanded(config.paddingRatio).Covers(det) ==> Shown(det, Rendered(shields, config))
    {
      ShownBy(shields, s, det, config);
    }
    if Separated(Padded(shields, config.paddingRatio), config.mergeIouThreshold) {
      ShownOnlyBy(shields, det, config);
    }
  }

  /** In every proper run, every detection of the last frame is covered by a returned box when
      the shield it led to, padded, covers it at the end of the frame; when the frame's padded
      shields need no merging, exactly then or when another padded shield happens to cover it.
      For a detection that no later one of the frame displaces this is so exactly when it is
      reached: it starts a shield of its own, or the padding of the shield that follows it makes
      up for the distance left. */
  lemma DetectionShown(run: seq<Event>, config: AnchorConfig, i: nat)
    requires Proper(run) && ProperConfig(config) && run != [] && Last(run).Captured? && i < |Last(run).dets|
    requires var config' := StateAfter(run, config).config;
             config'.persistenceWindowMs > 0 && config'.dynamicDecayMs > 0
    ensures var State(shields, config') := StateAfter(run, config);
            var (list, det, boxes) := (OnArrival(run, config, i), Last(run).dets[i], Rendered(shields, config'));
            var (settled, ratio) := (Settled(run, config, i), config'.paddingRatio);
            && (settled.Expanded(ratio).Covers(det) ==> Shown(det, boxes))
            && (Separated(Padded(shields, ratio), config'.mergeIouThreshold) ==>
                  (Shown(det, boxes) <==>
                   || settled.Expanded(ratio).Covers(det)
                   || exists s :: s in shields && s.box != settled && s.box.Expanded(ratio).Covers(det)))
            && (Unmatched(Landing(list, det, config'), Last(run).dets[i + 1..], config') ==>
                  (settled.Expanded(ratio).Covers(det) <==> Reached(list, det, config')))
  {
    hide Landing, Reached, Unmatched, Purged, AllIngested, AllEvaluated, Rendered, Separated, Sound, Settled;
    hide BoundingBox.Covers, BoundingBox.Expanded, BoundingBox.InUnitSquare;
    var Captured(frame, dets, now) := Last(run);
    var before := StateAfter(Init(run), config);
    RunSound(Init(run), config);
    ShieldsSound(frame, before.shields, dets, LastTime(Init(run)), now, before.config);
    SoundOnScreen(StateAfter(run, config).shields, now);
    SettledStays(run, config, i);
    ShieldShown(StateAfter(run, config).shields, Settled(run, config, i), dets[i], before.config);
    ArrivalOnScreen(run, config, i);
    ReachedIff(OnArrival(run, config, i), dets[i], before.config);
  }

  lemma ArrivalOnScreen(run: seq<Event>, config: AnchorConfig, i: nat)
    requires Proper(run) && ProperConfig(config) && run != [] && Last(run).Captured? && i <= |Last(run).dets|
    ensures OnScreen(OnArrival(run, config, i))
  {
    hide AllIngested, Evaluated, Sound, BoundingBox.InUnitSquare;
    var Captured(frame, dets, now) := Last(run);
    var State(shields, config') := StateAfter(Init(run), config);
    RunSound(Init(run), config);
    var evaluated := AllEvaluated(frame, shields, now, config');
    AllEvaluatedSound(frame, shields, LastTime(Init(run)), now, config');
    AllIngestedSound(frame, evaluated, dets[..i], now, config');
    SoundOnScreen(OnArrival(run, config, i), now);
  }

  // ---------- A repeated detection ----------

  lemma PowRange(b: real, n: nat)
    requires 0.0 <= b <= 1.0
    ensures 0.0 <= Pow(b, n) <= 1.0
  {
    if n > 0 {
      PowRange(b, n - 1);
      ScaleNonNegative(b, Pow(b, n - 1));
      ScaleNonNegative(b, 1.0 - Pow(b, n - 1));
    }
  }

  lemma NearerInUnitSquare(b: BoundingBox, before: BoundingBox, det: BoundingBox, factor: real)
    requires before.InUnitSquare() && det.InUnitSquare() && 0.0 <= factor <= 1.0
    requires Nearer(b, before, det, factor)
    ensures b.InUnitSquare()
  {
    SmoothedInUnitSquare(before, det, 1.0 - factor);
    hide BoundingBox.InUnitSquare;
    NearerIsSmoothed(b, before, det, factor);
    SameRectInUnitSquare(b, before.Smoothed(det, 1.0 - factor));
  }

  lemma NearerIsSmoothed(b: BoundingBox, before: BoundingBox, det: BoundingBox, factor: real)
    requires Nearer(b, before, det, factor)
    ensures b.SameRect(before.Smoothed(det, 1.0 - factor))
  {
  }

  lemma SameRectInUnitSquare(a: BoundingBox, b: BoundingBox)
    requires a.SameRect(b) && b.InUnitSquare()
    ensures a.InUnitSquare()
  {
  }

  /** The same detection in n frames without pixel data is shown as soon as the padding makes up
      for (1 - alpha)^n of the distance at which it was first matched, and with no other shield
      about exactly then; so it is shown whenever that factor is small enough for the padding,
      wherever the two boxes lie. */
  lemma {:induction false} RepeatedShown(pre: seq<TrackedShield>, s: TrackedShield, post: seq<TrackedShield>,
                                         det: BoundingBox, frames: seq<(Frame, nat)>, config: AnchorConfig)
    requires 0.0 < config.emaAlpha <= 1.0 && 0.0 <= config.mergeIouThreshold && 0.0 <= config.paddingRatio
    requires MaxAge(s, config) > 0 && OnScreen(pre + [s] + post) && det.InUnitSquare()
    requires NoneOverlaps(pre, det, config.mergeIouThreshold) && s.box.Overlaps(det, config.mergeIouThreshold)
    requires forall k :: 0 <= k < |frames| ==> !HasPixels(frames[k].0)
    ensures var factor := Pow(1.0 - config.emaAlpha, |frames|);
            var near := PaddingReaches(s.box.Smoothed(det, 1.0 - factor), s.box, det, factor, config.paddingRatio);
            var boxes := Rendered(Repeated(pre + [s] + post, det, frames, config), config);
            && (near ==> Shown(det, boxes)) && (pre == post == [] ==> (Shown(det, boxes) <==> near))
            && (factor * (1.0 + config.paddingRatio * 0.5) <= config.paddingRatio * 0.5 ==> Shown(det, boxes))
  {
    hide Pow, Nearer, PaddingReaches, Repeated, Rendered, OnScreen, Remains, NoneOverlaps;
    hide BoundingBox.Overlaps, BoundingBox.Covers, BoundingBox.Expanded, BoundingBox.InUnitSquare;
    hide BoundingBox.Smoothed;
    var factor := Pow(1.0 - config.emaAlpha, |frames|);
    var ratio := config.paddingRatio;
    var left, s', right := RepeatedDetection(pre, s, post, det, frames, config);
    PowRange(1.0 - config.emaAlpha, |frames|);
    OnScreenAt(pre, s, post);
    NearerInUnitSquare(s'.box, s.box, det, factor);
    OnScreenLeft(left, s', right, pre, s, post);
    PaddedCoversIff(s'.box, s.box, det, factor, ratio);
    NearerIsSmoothed(s'.box, s.box, det, factor);
    SameReach(s'.box, s.box.Smoothed(det, 1.0 - factor), s.box, det, factor, ratio);
    ShownBy(left + [s'] + right, s', det, config);
    if pre == post == [] { ShownAlone(left, s', right, det, config); }
    if factor * (1.0 + ratio * 0.5) <= ratio * 0.5 {
      NearCovers(s'.box, s.box, det, factor, ratio, config.mergeIouThreshold);
    }
  }

  lemma SameReach(a: BoundingBox, b: BoundingBox, before: BoundingBox, det: BoundingBox, factor: real, ratio: real)
    requires a.SameRect(b)
    ensures PaddingReaches(a, before, det, factor, ratio) <==> PaddingReaches(b, before, det, factor, ratio)
  {
    hide Reaches;
  }

  lemma OnScreenAt(pre: seq<TrackedShield>, s: TrackedShield, post: seq<TrackedShield>)
    requires OnScreen(pre + [s] + post)
    ensures s.box.InUnitSquare()
  {
    assert s in pre + [s] + post;
  }

  lemma OnScreenLeft(left: seq<TrackedShield>, s': TrackedShield, right: seq<TrackedShield>,
                     pre: seq<TrackedShield>, s: TrackedShield, post: seq<TrackedShield>)
    requires OnScreen(pre + [s] + post) && s'.box.InUnitSquare() && Remains(left, pre) && Remains(right, post)
    ensures OnScreen(left + [s'] + right)
  {
    hide BoundingBox.InUnitSquare;
    forall t | t in left + [s'] + right ensures t.box.InUnitSquare() {
      assert t != s' ==> t in pre + [s] + post;
    }
  }

  lemma ShownAlone(left: seq<TrackedShield>, s: TrackedShield, right: seq<TrackedShield>, det: BoundingBox,
                   config: AnchorConfig)
    requires Remains(left, []) && Remains(right, [])
    ensures Shown(det, Rendered(left + [s] + right, config))
        ==> s.box.Expanded(config.paddingRatio).Covers(det)
  {
    hide BoundingBox.Covers, BoundingBox.Expanded, Rendered;
    assert left + [s] + right == [s];
    ShownOnlyBy([s], det, config);
  }

  /** From the second frame on a repeated detection is shown with the shipped weight and any
      padding of a fifth or more, which covers the tracker's own default and the daemon's. */
  lemma {:induction false} RepeatedTwice(pre: seq<TrackedShield>, s: TrackedShield, post: seq<TrackedShield>,
                                         det: BoundingBox, frames: seq<(Frame, nat)>, config: AnchorConfig)
    requires config.emaAlpha == 0.7 && 0.0 <= config.mergeIouThreshold && 0.2 <= config.paddingRatio
    requires MaxAge(s, config) > 0 && OnScreen(pre + [s] + post) && det.InUnitSquare()
    requires NoneOverlaps(pre, det, config.mergeIouThreshold) && s.box.Overlaps(det, config.mergeIouThreshold)
    requires |frames| >= 2 && forall k :: 0 <= k < |frames| ==> !HasPixels(frames[k].0)
    ensures Shown(det, Rendered(Repeated(pre + [s] + post, det, frames, config), config))
  {
    hide Pow, Nearer, PaddingReaches, Repeated, Rendered, OnScreen, NoneOverlaps, Shown;
    hide BoundingBox.Overlaps, BoundingBox.Covers, BoundingBox.Expanded, BoundingBox.InUnitSquare;
    var factor := Pow(1.0 - config.emaAlpha, |frames|);
    PowSmall(1.0 - config.emaAlpha, |frames|);
    SmallEnough(factor, config.paddingRatio);
    RepeatedShown(pre, s, post, det, frames, config);
  }

  lemma PowSmall(b: real, n: nat)
    requires b == 0.3 && 2 <= n
    ensures 0.0 <= Pow(b, n) <= 0.09
  {
    if n == 2 {
      assert Pow(b, 1) == b;
    } else {
      PowSmall(b, n - 1);
    }
  }

  lemma SmallEnough(factor: real, ratio: real)
    requires 0.0 <= factor <= 0.09 && 0.2 <= ratio
    ensures factor * (1.0 + ratio * 0.5) <= ratio * 0.5
  {
    ScaleNonNegative(0.09 - factor, 1.0 + ratio * 0.5);
    assert (0.09 - factor) * (1.0 + ratio * 0.5) == 0.09 * (1.0 + ratio * 0.5) - factor * (1.0 + ratio * 0.5);
  }

  // ---------- A detection left uncovered ----------

  const DAEMON := AnchorConfig(1200, 280, 0.35, 0.15, 22.0, 0.7)

  const NO_PIXELS: Frame := VideoFrame(0, 0, 0, BGRA, None)

  /** A run of two frames with the daemon's configuration after which the returned boxes leave
      part of the detection of the last frame uncovered. */
  lemma DetectionMissed() returns (run: seq<Event>, det: BoundingBox)
    ensures Proper(run) && ProperConfig(DAEMON) && |run| == 2 && run[0].Captured?
    ensures run[1] == Captured(NO_PIXELS, [det], 33)
    ensures !Shown(det, Rendered(StateAfter(run, DAEMON).shields, DAEMON))
  {
    hide BoundingBox.Smoothed, BoundingBox.Expanded, BoundingBox.Covers, BoundingBox.Overlaps, Rendered, Shown;
    hide BoundingBox.InUnitSquare;
    var first;
    first, det := SmoothedMisses();
    run := [Captured(NO_PIXELS, [first], 0), Captured(NO_PIXELS, [det], 33)];
    FirstFrame(first);
    var s := TrackedShield(first, 0, 0, false, []);
    var s' := RepeatedStep(NO_PIXELS, [], s, [], det, 33, DAEMON);
    TwoFrames(run, first, det);
    assert [] + [s] + [] == [s];
    assert Purged([], 33, DAEMON) + [s'] + Purged([], 33, DAEMON) == [s'];
    ShownAlone([], s', [], det, DAEMON);
    assert [] + [s'] + [] == [s'];
  }

  lemma FirstFrame(first: BoundingBox)
    ensures Shields(NO_PIXELS, [], [first], 0, DAEMON) == [TrackedShield(first, 0, 0, false, [])]
  {
    hide BoundingBox.Overlaps, BoundingBox.Smoothed, Sampled;
    var s := TrackedShield(first, 0, 0, false, []);
    assert NewShield(NO_PIXELS, first, 0, DAEMON) == s && !Expired(s, 0, DAEMON);
    assert [first][1..] == [];
    AllIngestedStep(NO_PIXELS, [], [first], 0, DAEMON);
    assert Updated(NO_PIXELS, [], [first], 0, DAEMON) == [s];
    PurgedAround([], s, [], 0, DAEMON);
    assert [] + [s] + [] == [s];
  }

  lemma TwoFrames(run: seq<Event>, first: BoundingBox, det: BoundingBox)
    requires run == [Captured(NO_PIXELS, [first], 0), Captured(NO_PIXELS, [det], 33)]
    requires first.InUnitSquare() && det.InUnitSquare()
    ensures Proper(run)
    ensures StateAfter(run, DAEMON)
         == State(Shields(NO_PIXELS, Shields(NO_PIXELS, [], [first], 0, DAEMON), [det], 33, DAEMON), DAEMON)
  {
    hide Shields, BoundingBox.InUnitSquare;
    assert Init(run) == [run[0]] && Init([run[0]]) == [];
    assert StateAfter([], DAEMON) == State([], DAEMON);
    assert Proper([run[0]]);
  }
}
