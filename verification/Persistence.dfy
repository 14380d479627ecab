/** How the uniting tracker takes a detection up, and how long what it covers stays covered. */
module Persistence {
  import opened Geometry
  import opened Histories
  import opened BoxMerge
  import opened MergeTrees
  import opened TemporalTracker

  // ---------- One detection ----------

  ghost predicate NoneOverlaps(list: seq<BoundingBox>, det: BoundingBox, threshold: real) {
    forall b :: b in list ==> !b.Overlaps(det, threshold)
  }

  /** The first box that a detection overlaps unites with it and takes its time; no other box
      changes, and none is added. */
  lemma {:induction false} IngestedAt(pre: seq<BoundingBox>, b: BoundingBox, post: seq<BoundingBox>, det: BoundingBox,
                                      threshold: real)
    requires NoneOverlaps(pre, det, threshold) && b.Overlaps(det, threshold)
    ensures Ingested(pre + [b] + post, det, threshold) == pre + [b.United(det).(timestampMs := det.timestampMs)] + post
    decreases |pre|
  {
    hide BoundingBox.Overlaps, BoundingBox.United;
    var all := pre + [b] + post;
    if pre == [] {
      assert all[0] == b && all[1..] == post;
    } else {
      assert all[0] == pre[0] && all[1..] == pre[1..] + [b] + post;
      IngestedAt(pre[1..], b, post, det, threshold);
    }
  }

  /** A detection that overlaps no tracked box is added behind them. */
  lemma {:induction false} IngestedNew(list: seq<BoundingBox>, det: BoundingBox, threshold: real)
    requires NoneOverlaps(list, det, threshold)
    ensures Ingested(list, det, threshold) == list + [det]
  {
    hide BoundingBox.Overlaps, BoundingBox.United;
    if list != [] {
      assert list == [list[0]] + list[1..];
      IngestedNew(list[1..], det, threshold);
    }
  }

  // ---------- What stays covered ----------

  /** A box of the list covers the rectangle and was matched at that time or later. */
  ghost predicate Holds(list: seq<BoundingBox>, rect: BoundingBox, since: nat) {
    exists b :: b in list && b.Covers(rect) && b.timestampMs >= since
  }

  lemma HoldsBy(list: seq<BoundingBox>, b: BoundingBox, rect: BoundingBox, since: nat)
    requires b in list && b.Covers(rect) && b.timestampMs >= since
    ensures Holds(list, rect, since)
  {
  }

  lemma UnitedCovers(b: BoundingBox, det: BoundingBox, rect: BoundingBox)
    requires b.Sized() && det.Sized() && b.Covers(rect)
    ensures b.United(det).(timestampMs := det.timestampMs).Covers(rect)
  {
    UnitedIsHull(b, det);
  }

  lemma {:induction false} IngestedHolds(list: seq<BoundingBox>, det: BoundingBox, threshold: real, rect: BoundingBox,
                                         since: nat)
    requires Holds(list, rect, since) && AllSized(list) && det.Sized() && since <= det.timestampMs
    ensures Holds(Ingested(list, det, threshold), rect, since)
  {
    hide BoundingBox.Overlaps, BoundingBox.Covers, BoundingBox.United, BoundingBox.Sized;
    var b :| b in list && b.Covers(rect) && b.timestampMs >= since;
    assert list == [list[0]] + list[1..];
    var r := Ingested(list, det, threshold);
    assert list[0] in list;
    if list[0].Overlaps(det, threshold) {
      if b == list[0] {
        UnitedCovers(b, det, rect);
        HoldsBy(r, r[0], rect, since);
      } else {
        assert b in r;
      }
    } else {
      assert r == [list[0]] + r[1..];
      if b == list[0] {
        HoldsBy(r, b, rect, since);
      } else {
        assert b in list[1..];
        IngestedHolds(list[1..], det, threshold, rect, since);
        var c :| c in r[1..] && c.Covers(rect) && c.timestampMs >= since;
        HoldsBy(r, c, rect, since);
      }
    }
  }

  lemma {:induction false} IngestedSized(list: seq<BoundingBox>, det: BoundingBox, threshold: real)
    requires AllSized(list) && det.Sized()
    ensures AllSized(Ingested(list, det, threshold))
  {
    hide BoundingBox.Overlaps;
    if list != [] {
      assert list[0] in list;
      UnitedIsHull(list[0], det);
      IngestedSized(list[1..], det, threshold);
    }
  }

  lemma {:induction false} AllIngestedHolds(list: seq<BoundingBox>, dets: seq<BoundingBox>, now: nat, threshold: real,
                                            rect: BoundingBox, since: nat)
    requires Holds(list, rect, since) && AllSized(list) && since <= now && forall d :: d in dets ==> d.Sized()
    ensures Holds(AllIngested(list, dets, now, threshold), rect, since)
    decreases |dets|
  {
    hide Ingested, Holds;
    if dets != [] {
      assert dets[0] in dets && Stamped(dets[0], now).Sized();
      IngestedHolds(list, Stamped(dets[0], now), threshold, rect, since);
      IngestedSized(list, Stamped(dets[0], now), threshold);
      AllIngestedHolds(Ingested(list, Stamped(dets[0], now), threshold), dets[1..], now, threshold, rect, since);
    }
  }

  /** Exactly the boxes stay that were matched within the window, and not in the future. */
  lemma {:induction false} PurgedExactly(list: seq<BoundingBox>, now: nat, window: nat)
    ensures forall b :: b in Purged(list, now, window)
                   <==> b in list && b.timestampMs <= now < b.timestampMs + window
  {
    if list != [] {
      assert list == [list[0]] + list[1..];
      PurgedExactly(list[1..], now, window);
    }
  }

  /** What holds of the tracked boxes after a proper run. */
  lemma TrackedFacts(run: seq<Event>, config: TrackerConfig)
    requires Proper(run)
    ensures forall b :: b in TrackedAfter(run, config) ==> b.InUnitSquare() && b.timestampMs <= LastTime(run)
  {
    hide BoundingBox.InUnitSquare, HullOf, Recent, Seen, TrackedAfter, Proper;
    var tracked := TrackedAfter(run, config);
    var groups := RunGroups(run, config);
    SeenFacts(run);
    forall b | b in tracked ensures b.InUnitSquare() && b.timestampMs <= LastTime(run) {
      var k: nat :| k < |tracked| && tracked[k] == b;
      forall d: BoundingBox | d in groups[k] ensures d in Seen(run) { MemberOf(groups, d); }
      HullInUnitSquare(b, groups[k]);
      HullTime(b, groups[k]);
    }
  }

  /** One more frame within the window. */
  lemma FrameHolds(run: seq<Event>, config: TrackerConfig, dets: seq<BoundingBox>, now: nat, rect: BoundingBox,
                   since: nat)
    requires Proper(run) && LastTime(run) <= now && forall d :: d in dets ==> d.InUnitSquare()
    requires Holds(TrackedAfter(run, config), rect, since) && now < since + config.persistenceWindowMs
    ensures Holds(Tracked(TrackedAfter(run, config), dets, now, config), rect, since)
  {
    hide TrackedAfter, AllIngested, Purged, BoundingBox.Covers, Proper;
    var tracked := TrackedAfter(run, config);
    TrackedFacts(run, config);
    var kept := Purged(tracked, now, config.persistenceWindowMs);
    PurgedExactly(tracked, now, config.persistenceWindowMs);
    var b :| b in tracked && b.Covers(rect) && b.timestampMs >= since;
    HoldsBy(kept, b, rect, since);
    AllIngestedHolds(kept, dets, now, config.mergeIouThreshold, rect, since);
  }

  /** A run of frames, without a reset, all within the window after `since`. */
  ghost predicate Within(more: seq<Event>, since: nat, window: nat) {
    forall k :: 0 <= k < |more| ==> more[k].Frame? && more[k].now < since + window
  }

  /** What a tracked box covers stays covered until the window after its last match is over,
      whatever is detected meanwhile. */
  lemma {:induction false} TrackedStays(run: seq<Event>, more: seq<Event>, config: TrackerConfig, rect: BoundingBox,
                                        since: nat)
    requires Proper(run + more) && Within(more, since, config.persistenceWindowMs)
    requires Holds(TrackedAfter(run, config), rect, since)
    ensures Holds(TrackedAfter(run + more, config), rect, since)
    decreases |more|
  {
    hide Holds, Tracked;
    if more == [] {
      assert run + more == run;
    } else {
      var all := run + more;
      assert Init(all) == run + Init(more) && Last(all) == Last(more);
      TrackedStays(run, Init(more), config, rect, since);
      FrameHolds(Init(all), config, Last(all).dets, Last(all).now, rect, since);
    }
  }

  /** Such a rectangle is shown, padded. */
  lemma HoldsShown(run: seq<Event>, config: TrackerConfig, rect: BoundingBox, since: nat)
    requires Proper(run) && 0.0 <= config.paddingRatio && rect.InUnitSquare()
    requires Holds(TrackedAfter(run, config), rect, since)
    ensures exists b :: b in Rendered(TrackedAfter(run, config), config)
                        && b.Covers(rect.Expanded(config.paddingRatio))
  {
    hide BoundingBox.Covers, BoundingBox.Expanded, BoundingBox.InUnitSquare, TrackedAfter, Merged, Proper;
    var tracked, ratio := TrackedAfter(run, config), config.paddingRatio;
    TrackedFacts(run, config);
    var padded := Padded(tracked, ratio);
    forall p | p in padded ensures p.Sized() {
      var k: nat :| k < |padded| && padded[k] == p;
      assert tracked[k] in tracked;
      PaddedSized(tracked[k], ratio);
    }
    MergedCovers(padded, config.mergeIouThreshold);
    var t :| t in tracked && t.Covers(rect) && t.timestampMs >= since;
    var k: nat :| k < |tracked| && tracked[k] == t;
    assert padded[k] in padded;
    ExpandedMonotone(t, rect, ratio);
    var b :| b in Rendered(tracked, config) && b.Covers(padded[k]);
    CoversTransitive(b, padded[k], rect.Expanded(ratio));
  }

  lemma PaddedSized(b: BoundingBox, ratio: real)
    requires b.InUnitSquare() && 0.0 <= ratio
    ensures b.Expanded(ratio).Sized()
  {
    ExpandedGrows(b, ratio);
  }

  // ---------- A detection made again ----------

  /** The boxes that detection `i` of the run's last frame meets. */
  ghost function OnArrival(run: seq<Event>, config: TrackerConfig, i: nat): seq<BoundingBox>
    requires run != [] && Last(run).Frame? && i <= |Last(run).dets|
  {
    var Frame(dets, now) := Last(run);
    AllIngested(Purged(TrackedAfter(Init(run), config), now, config.persistenceWindowMs), dets[..i], now,
                config.mergeIouThreshold)
  }

  /** A detection renews what it matches: when the first box it overlaps covers some rectangle,
      then that rectangle and the detection, and everything between them, stay shown until the
      window after this frame is over.  So an object detected again keeps covering where it was
      before, however long ago that was first seen. */
  lemma RedetectionRenews(run: seq<Event>, more: seq<Event>, config: TrackerConfig, i: nat,
                          pre: seq<BoundingBox>, b: BoundingBox, post: seq<BoundingBox>)
    requires Proper(run + more) && 0.0 <= config.paddingRatio
    requires run != [] && Last(run).Frame? && i < |Last(run).dets|
    requires OnArrival(run, config, i) == pre + [b] + post
    requires var det := Last(run).dets[i];
             NoneOverlaps(pre, det, config.mergeIouThreshold) && b.Overlaps(det, config.mergeIouThreshold)
    requires Within(more, Last(run).now, config.persistenceWindowMs)
    ensures exists shown :: shown in Rendered(TrackedAfter(run + more, config), config)
                            && shown.Covers(b.United(Last(run).dets[i]).Expanded(config.paddingRatio))
  {
    hide BoundingBox.Covers, BoundingBox.Expanded, BoundingBox.InUnitSquare, BoundingBox.United, BoundingBox.Overlaps;
    hide TrackedAfter, Rendered, Holds, Proper, AllIngested, Purged, Within;
    var Frame(dets, now) := Last(run);
    var det := dets[i];
    ProperPrefix(run, more);
    ArrivalFacts(run, config, i);
    assert b in OnArrival(run, config, i) by { assert b in pre + [b] + post; }
    var rect := b.United(det);
    UnitedOnScreen(b, det);
    MatchedHolds(run, config, i, pre, b, post);
    TrackedStays(run, more, config, rect, now);
    HoldsShown(run + more, config, rect, now);
  }

  lemma {:induction false} ProperPrefix(run: seq<Event>, more: seq<Event>)
    requires Proper(run + more)
    ensures Proper(run)
    ensures run != [] && Last(run).Frame? ==>
              && Proper(Init(run)) && LastTime(Init(run)) <= Last(run).now
              && forall d :: d in Last(run).dets ==> d.InUnitSquare()
    decreases |more|
  {
    if more == [] {
      assert run + more == run;
    } else {
      assert Init(run + more) == run + Init(more);
      ProperPrefix(run, Init(more));
    }
  }

  lemma UnitedOnScreen(b: BoundingBox, det: BoundingBox)
    requires b.InUnitSquare() && det.InUnitSquare()
    ensures b.United(det).InUnitSquare()
  {
  }

  lemma {:induction false} AllIngestedOnScreen(list: seq<BoundingBox>, dets: seq<BoundingBox>, now: nat,
                                               threshold: real)
    requires (forall b :: b in list ==> b.InUnitSquare()) && forall d :: d in dets ==> d.InUnitSquare()
    ensures forall b :: b in AllIngested(list, dets, now, threshold) ==> b.InUnitSquare()
    decreases |dets|
  {
    hide Ingested, BoundingBox.InUnitSquare;
    if dets != [] {
      assert dets[0] in dets;
      StampedOnScreen(dets[0], now);
      IngestedOnScreen(list, Stamped(dets[0], now), threshold);
      AllIngestedOnScreen(Ingested(list, Stamped(dets[0], now), threshold), dets[1..], now, threshold);
    }
  }

  lemma StampedOnScreen(d: BoundingBox, now: nat)
    requires d.InUnitSquare()
    ensures Stamped(d, now).InUnitSquare()
  {
  }

  lemma {:induction false} IngestedOnScreen(list: seq<BoundingBox>, det: BoundingBox, threshold: real)
    requires (forall b :: b in list ==> b.InUnitSquare()) && det.InUnitSquare()
    ensures forall b :: b in Ingested(list, det, threshold) ==> b.InUnitSquare()
  {
    hide BoundingBox.Overlaps, BoundingBox.United, BoundingBox.InUnitSquare;
    if list != [] {
      assert list[0] in list;
      UnitedOnScreen(list[0], det);
      StampedOnScreen(list[0].United(det), det.timestampMs);
      IngestedOnScreen(list[1..], det, threshold);
    }
  }

  lemma ArrivalFacts(run: seq<Event>, config: TrackerConfig, i: nat)
    requires run != [] && Last(run).Frame? && i < |Last(run).dets| && Proper(Init(run))
    requires forall d :: d in Last(run).dets ==> d.InUnitSquare()
    ensures forall b :: b in OnArrival(run, config, i) ==> b.InUnitSquare()
    ensures Last(run).dets[i].InUnitSquare()
  {
    hide BoundingBox.InUnitSquare, TrackedAfter, Proper, AllIngested, Purged;
    var Frame(dets, now) := Last(run);
    var tracked := TrackedAfter(Init(run), config);
    TrackedFacts(Init(run), config);
    PurgedExactly(tracked, now, config.persistenceWindowMs);
    AllIngestedOnScreen(Purged(tracked, now, config.persistenceWindowMs), dets[..i], now, config.mergeIouThreshold);
    assert dets[i] in dets;
  }

  lemma {:induction false} AllIngestedConcat(list: seq<BoundingBox>, a: seq<BoundingBox>, b: seq<BoundingBox>, now: nat,
                                             threshold: real)
    ensures AllIngested(list, a + b, now, threshold)
         == AllIngested(AllIngested(list, a, now, threshold), b, now, threshold)
    decreases |a|
  {
    hide Ingested;
    if a == [] {
      assert a + b == b;
    } else {
      assert (a + b)[0] == a[0] && (a + b)[1..] == a[1..] + b;
      AllIngestedConcat(Ingested(list, Stamped(a[0], now), threshold), a[1..], b, now, threshold);
    }
  }

  lemma AllIngestedStep(list: seq<BoundingBox>, dets: seq<BoundingBox>, now: nat, threshold: real)
    requires dets != []
    ensures AllIngested(list, dets, now, threshold)
         == AllIngested(Ingested(list, Stamped(dets[0], now), threshold), dets[1..], now, threshold)
  {
  }

  lemma SameOverlap(b: BoundingBox, det: BoundingBox, now: nat, threshold: real)
    ensures b.Overlaps(Stamped(det, now), threshold) == b.Overlaps(det, threshold)
  {
    hide BoundingBox.Intersection, BoundingBox.Area, Max, Min;
    var d := Stamped(det, now);
    assert b.Intersection(d) == b.Intersection(det) by { SameIntersection(b, det, now); }
    assert d.Area() == det.Area() by { SameArea(det, now); }
  }

  lemma SameIntersection(b: BoundingBox, det: BoundingBox, now: nat)
    ensures b.Intersection(Stamped(det, now)) == b.Intersection(det)
  {
    hide Max, Min;
    assert b.OverlapWidth(Stamped(det, now)) == b.OverlapWidth(det);
    assert b.OverlapHeight(Stamped(det, now)) == b.OverlapHeight(det);
  }

  lemma SameArea(det: BoundingBox, now: nat)
    ensures Stamped(det, now).Area() == det.Area()
  {
  }

  lemma SelfCovers(b: BoundingBox, det: BoundingBox, now: nat)
    ensures b.United(Stamped(det, now)).(timestampMs := now).Covers(b.United(det))
  {
  }

  /** After the frame, the union is held with this frame's time. */
  lemma MatchedHolds(run: seq<Event>, config: TrackerConfig, i: nat, pre: seq<BoundingBox>, b: BoundingBox,
                     post: seq<BoundingBox>)
    requires run != [] && Last(run).Frame? && i < |Last(run).dets| && Proper(Init(run))
    requires forall d :: d in Last(run).dets ==> d.InUnitSquare()
    requires OnArrival(run, config, i) == pre + [b] + post
    requires var det := Last(run).dets[i];
             NoneOverlaps(pre, det, config.mergeIouThreshold) && b.Overlaps(det, config.mergeIouThreshold)
    ensures Holds(TrackedAfter(run, config), b.United(Last(run).dets[i]), Last(run).now)
  {
    hide BoundingBox.Covers, BoundingBox.InUnitSquare, BoundingBox.United, BoundingBox.Overlaps, Proper;
    hide AllIngested, Purged, Ingested, Holds;
    var Frame(dets, now) := Last(run);
    var threshold, det := config.mergeIouThreshold, dets[i];
    var list := OnArrival(run, config, i);
    ArrivalFacts(run, config, i);
    forall c | c in pre ensures !c.Overlaps(Stamped(det, now), threshold) { SameOverlap(c, det, now, threshold); }
    SameOverlap(b, det, now, threshold);
    IngestedAt(pre, b, post, Stamped(det, now), threshold);
    var next, taken := Ingested(list, Stamped(det, now), threshold), b.United(Stamped(det, now)).(timestampMs := now);
    assert taken in next by { assert next == pre + [taken] + post; }
    SelfCovers(b, det, now);
    HoldsBy(next, taken, b.United(det), now);
    StampedOnScreen(det, now);
    IngestedOnScreen(list, Stamped(det, now), threshold);
    OnScreenSized(next);
    OnScreenSized(dets);
    AllIngestedHolds(next, dets[i + 1..], now, threshold, b.United(det), now);
    var kept := Purged(TrackedAfter(Init(run), config), now, config.persistenceWindowMs);
    assert dets == dets[..i] + dets[i..] && dets[i..][1..] == dets[i + 1..];
    AllIngestedConcat(kept, dets[..i], dets[i..], now, threshold);
    AllIngestedStep(list, dets[i..], now, threshold);
  }

  lemma OnScreenSized(list: seq<BoundingBox>)
    requires forall b :: b in list ==> b.InUnitSquare()
    ensures AllSized(list)
  {
  }

  // ---------- What is tracked and returned, and no more ----------

  /** When no detection since the last reset is younger than the window, a frame starts afresh. */
  lemma FreshStart(run: seq<Event>, config: TrackerConfig)
    requires Proper(run) && run != [] && Last(run).Frame?
    requires forall d :: d in Seen(Init(run)) ==> Last(run).now >= d.timestampMs + config.persistenceWindowMs
    ensures TrackedAfter(run, config) == AllIngested([], Last(run).dets, Last(run).now, config.mergeIouThreshold)
  {
    hide HullOf, AllIngested, Purged, Recent, Seen, Proper;
    ProperPrefix(run, []);
    assert run + [] == run;
    var tracked, now := TrackedAfter(Init(run), config), Last(run).now;
    var groups := RunGroups(Init(run), config);
    var kept := Purged(tracked, now, config.persistenceWindowMs);
    PurgedExactly(tracked, now, config.persistenceWindowMs);
    if kept != [] {
      var b := kept[0];
      assert b in kept;
      var k: nat :| k < |tracked| && tracked[k] == b;
      HullTime(b, groups[k]);
      var d: BoundingBox :| d in groups[k] && d.timestampMs == b.timestampMs;
      MemberOf(groups, d);
      assert d in Seen(Init(run));
    }
  }

  /** The returned boxes are built from the tracked boxes, each padded by the configured ratio and
      used once, by uniting only such as overlap beyond the configured threshold. */
  lemma ReturnedBuilt(tracked: seq<BoundingBox>, config: TrackerConfig)
    returns (padded: seq<BoundingBox>, trees: seq<Tree>)
    ensures |padded| == |tracked|
    ensures forall k :: 0 <= k < |tracked| ==> padded[k] == tracked[k].Expanded(config.paddingRatio)
    ensures |trees| == |Rendered(tracked, config)| && AllLeaves(trees) == Positions(|tracked|)
    ensures forall k :: 0 <= k < |trees| ==>
              Builds(trees[k], Rendered(tracked, config)[k], padded, config.mergeIouThreshold)
  {
    hide BoundingBox.Expanded, Builds, AllLeaves, Positions, Merged;
    padded := Padded(tracked, config.paddingRatio);
    trees := MergedForest(padded, config.mergeIouThreshold);
  }
}
