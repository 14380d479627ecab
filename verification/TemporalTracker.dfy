/** `TemporalSmoothingTracker`: keeps detections alive for a time window and unites the ones
    that overlap, so that what was detected recently stays covered. */
module TemporalTracker {
  import opened Geometry
  import opened Histories
  import opened BoxMerge

  datatype TrackerConfig = TrackerConfig(persistenceWindowMs: nat, paddingRatio: real, mergeIouThreshold: real)

  // ---------- What one frame computes ----------

  predicate Stale(b: BoundingBox, now: nat, window: nat) {
    now < b.timestampMs || now - b.timestampMs >= window
  }

  function Purged(tracked: seq<BoundingBox>, now: nat, window: nat): seq<BoundingBox> {
    if tracked == [] then []
    else (if Stale(tracked[0], now, window) then [] else [tracked[0]]) + Purged(tracked[1..], now, window)
  }

  /** The first tracked box that overlaps the detection unites with it; else it is appended. */
  function Ingested(tracked: seq<BoundingBox>, det: BoundingBox, threshold: real): seq<BoundingBox> {
    if tracked == [] then [det]
    else if tracked[0].Overlaps(det, threshold) then
      [tracked[0].United(det).(timestampMs := det.timestampMs)] + tracked[1..]
    else [tracked[0]] + Ingested(tracked[1..], det, threshold)
  }

  function Stamped(det: BoundingBox, now: nat): BoundingBox { det.(timestampMs := now) }

  function AllIngested(tracked: seq<BoundingBox>, dets: seq<BoundingBox>, now: nat, threshold: real): seq<BoundingBox>
    decreases |dets|
  {
    if dets == [] then tracked
    else AllIngested(Ingested(tracked, Stamped(dets[0], now), threshold), dets[1..], now, threshold)
  }

  function Tracked(tracked: seq<BoundingBox>, dets: seq<BoundingBox>, now: nat,
                   config: TrackerConfig): seq<BoundingBox> {
    AllIngested(Purged(tracked, now, config.persistenceWindowMs), dets, now, config.mergeIouThreshold)
  }

  function Padded(boxes: seq<BoundingBox>, ratio: real): (r: seq<BoundingBox>)
    ensures |r| == |boxes| && forall k :: 0 <= k < |r| ==> r[k] == boxes[k].Expanded(ratio)
  {
    if boxes == [] then [] else [boxes[0].Expanded(ratio)] + Padded(boxes[1..], ratio)
  }

  function Rendered(tracked: seq<BoundingBox>, config: TrackerConfig): seq<BoundingBox> {
    Merged(Padded(tracked, config.paddingRatio), config.mergeIouThreshold)
  }

  // ---------- The tracker object ----------

  class TemporalSmoothingTracker {
    var config: TrackerConfig
    var trackedBoxes: seq<BoundingBox>

    constructor (config: TrackerConfig)
      ensures this.config == config && trackedBoxes == []
    {
      this.config, trackedBoxes := config, [];
    }

    method PurgeStale(now: nat)
      modifies this`trackedBoxes
      ensures trackedBoxes == Purged(old(trackedBoxes), now, config.persistenceWindowMs)
    {
      var kept := [];
      var i := 0;
      while i < |trackedBoxes|
        invariant 0 <= i <= |trackedBoxes| && trackedBoxes == old(trackedBoxes)
        invariant kept + Purged(trackedBoxes[i..], now, config.persistenceWindowMs)
               == Purged(trackedBoxes, now, config.persistenceWindowMs)
      {
        if !Stale(trackedBoxes[i], now, config.persistenceWindowMs) { kept := kept + [trackedBoxes[i]]; }
        i := i + 1;
      }
      trackedBoxes := kept;
    }

    method IngestDetection(det: BoundingBox)
      modifies this`trackedBoxes
      ensures trackedBoxes == Ingested(old(trackedBoxes), det, config.mergeIouThreshold)
    {
      var i := 0;
      while i < |trackedBoxes|
        invariant 0 <= i <= |trackedBoxes| && trackedBoxes == old(trackedBoxes)
        invariant trackedBoxes[..i] + Ingested(trackedBoxes[i..], det, config.mergeIouThreshold)
               == Ingested(trackedBoxes, det, config.mergeIouThreshold)
      {
        if trackedBoxes[i].Overlaps(det, config.mergeIouThreshold) {
          var box := trackedBoxes[i].United(det).(timestampMs := det.timestampMs);
          trackedBoxes := trackedBoxes[i := box];
          assert trackedBoxes == old(trackedBoxes)[..i] + ([box] + old(trackedBoxes)[i..][1..]);
          return;
        }
        assert trackedBoxes[..i] + ([trackedBoxes[i]] + Ingested(trackedBoxes[i..][1..], det, config.mergeIouThreshold))
            == trackedBoxes[..i + 1] + Ingested(trackedBoxes[i + 1..], det, config.mergeIouThreshold);
        i := i + 1;
      }
      trackedBoxes := trackedBoxes + [det];
    }

    method IngestAll(rawDetections: seq<BoundingBox>, now: nat)
      modifies this`trackedBoxes
      ensures trackedBoxes == AllIngested(old(trackedBoxes), rawDetections, now, config.mergeIouThreshold)
    {
      hide Ingested;
      var i := 0;
      assert rawDetections[0..] == rawDetections;
      while i < |rawDetections|
        invariant 0 <= i <= |rawDetections|
        invariant AllIngested(trackedBoxes, rawDetections[i..], now, config.mergeIouThreshold)
               == AllIngested(old(trackedBoxes), rawDetections, now, config.mergeIouThreshold)
      {
        assert rawDetections[i..][1..] == rawDetections[i + 1..];
        IngestDetection(Stamped(rawDetections[i], now));
        i := i + 1;
      }
    }

    method PadAll() returns (expanded: seq<BoundingBox>)
      ensures expanded == Padded(trackedBoxes, config.paddingRatio)
    {
      hide BoundingBox.Expanded;
      expanded := [];
      var i := 0;
      while i < |trackedBoxes|
        invariant 0 <= i <= |trackedBoxes| == |Padded(trackedBoxes, config.paddingRatio)|
        invariant expanded == Padded(trackedBoxes, config.paddingRatio)[..i]
      {
        expanded := expanded + [trackedBoxes[i].Expanded(config.paddingRatio)];
        i := i + 1;
      }
    }

    method ProcessFrame(rawDetections: seq<BoundingBox>, now: nat) returns (boxes: seq<BoundingBox>)
      modifies this`trackedBoxes
      ensures trackedBoxes == Tracked(old(trackedBoxes), rawDetections, now, config)
      ensures boxes == Rendered(trackedBoxes, config)
    {
      PurgeStale(now);
      IngestAll(rawDetections, now);
      var expanded := PadAll();
      boxes := MergeOverlappingBoxes(expanded, config.mergeIouThreshold);
    }

    method Reset()
      modifies this`trackedBoxes
      ensures trackedBoxes == []
    {
      trackedBoxes := [];
    }

    method ActiveCount() returns (n: nat)
      ensures n == |trackedBoxes|
    {
      n := |trackedBoxes|;
    }
  }

  // ---------- Whole runs ----------

  datatype Event = Frame(dets: seq<BoundingBox>, now: nat) | Reset

  /** The tracker's boxes after a run of calls on a recent tracker. */
  function TrackedAfter(run: seq<Event>, config: TrackerConfig): seq<BoundingBox> {
    if run == [] then []
    else match Last(run)
      case Reset => []
      case Frame(dets, now) => Tracked(TrackedAfter(Init(run), config), dets, now, config)
  }

  /** A method call and the run semantics agree, so the results below are about the object. */
  method Replay(tracker: TemporalSmoothingTracker, run: seq<Event>) returns (boxes: seq<BoundingBox>)
    requires tracker.trackedBoxes == []
    modifies tracker`trackedBoxes
    ensures tracker.trackedBoxes == TrackedAfter(run, tracker.config)
    ensures run != [] && Last(run).Frame? ==> boxes == Rendered(TrackedAfter(run, tracker.config), tracker.config)
  {
    boxes := [];
    var i := 0;
    while i < |run|
      invariant 0 <= i <= |run|
      invariant tracker.trackedBoxes == TrackedAfter(run[..i], tracker.config)
      invariant i > 0 && run[i - 1].Frame? ==> boxes == Rendered(tracker.trackedBoxes, tracker.config)
    {
      assert Init(run[..i + 1]) == run[..i];
      match run[i] {
        case Reset => tracker.Reset();
        case Frame(dets, now) => boxes := tracker.ProcessFrame(dets, now);
      }
      i := i + 1;
    }
    assert run[..i] == run;
  }

  function StampedSet(dets: seq<BoundingBox>, now: nat): set<BoundingBox> {
    set d | d in dets :: Stamped(d, now)
  }

  /** The detections of the set that are younger than the window. */
  function Young(ds: set<BoundingBox>, now: nat, window: nat): set<BoundingBox> {
    set d | d in ds && now - d.timestampMs < window
  }

  /** Every detection since the last reset, stamped with its frame's time. */
  function Seen(run: seq<Event>): set<BoundingBox> {
    if run == [] then {}
    else match Last(run)
      case Reset => {}
      case Frame(dets, now) => Seen(Init(run)) + StampedSet(dets, now)
  }

  /** The detections of the last frame, and the earlier ones younger than the window. */
  function Recent(run: seq<Event>, window: nat): set<BoundingBox> {
    if run == [] then {}
    else match Last(run)
      case Reset => {}
      case Frame(dets, now) =>
        Young(Seen(Init(run)), now, window) + StampedSet(dets, now)
  }

  function LastTime(run: seq<Event>): nat {
    if run == [] then 0 else match Last(run) case Reset => LastTime(Init(run)) case Frame(_, now) => now
  }

  /** The clock never goes back and every detection lies in the unit square. */
  ghost predicate Proper(run: seq<Event>) {
    run == [] ||
    (Proper(Init(run)) &&
     match Last(run)
     case Reset => true
     case Frame(dets, now) => LastTime(Init(run)) <= now && forall d :: d in dets ==> d.InUnitSquare())
  }

  lemma {:induction false} SeenFacts(run: seq<Event>)
    requires Proper(run)
    ensures forall d :: d in Seen(run) ==> d.timestampMs <= LastTime(run) && d.InUnitSquare()
  {
    if run != [] { SeenFacts(Init(run)); }
  }

  function Members(groups: seq<seq<BoundingBox>>): set<BoundingBox> {
    if groups == [] then {} else (set b | b in groups[0]) + Members(groups[1..])
  }

  lemma {:induction false} MemberOf(groups: seq<seq<BoundingBox>>, d: BoundingBox)
    ensures d in Members(groups) <==> exists k :: 0 <= k < |groups| && d in groups[k]
  {
    if groups != [] {
      MemberOf(groups[1..], d);
      if k: nat :| k < |groups[1..]| && d in groups[1..][k] { assert d in groups[k + 1]; }
      if k: nat :| k < |groups| && d in groups[k] {
        if k > 0 { assert d in groups[1..][k - 1]; }
      }
    }
  }

  lemma MembersCons(group: seq<BoundingBox>, groups: seq<seq<BoundingBox>>)
    ensures Members([group] + groups) == (set b | b in group) + Members(groups)
  {
    assert ([group] + groups)[1..] == groups;
  }

  /** Every group has a member among `recent`. */
  ghost predicate AllFresh(groups: seq<seq<BoundingBox>>, recent: set<BoundingBox>) {
    forall k :: 0 <= k < |groups| ==> HasFresh(groups[k], recent)
  }

  ghost predicate HasFresh(group: seq<BoundingBox>, recent: set<BoundingBox>) {
    exists d :: d in group && d in recent
  }

  lemma FreshMonotone(groups: seq<seq<BoundingBox>>, fewer: set<BoundingBox>, more: set<BoundingBox>)
    requires AllFresh(groups, fewer) && fewer <= more
    ensures AllFresh(groups, more)
  {
    forall k | 0 <= k < |groups| ensures HasFresh(groups[k], more) {
      GroupMonotone(groups[k], fewer, more);
    }
  }

  lemma GroupMonotone(group: seq<BoundingBox>, fewer: set<BoundingBox>, more: set<BoundingBox>)
    requires HasFresh(group, fewer) && fewer <= more
    ensures HasFresh(group, more)
  {
    var d :| d in group && d in fewer;
    assert d in more;
  }

  lemma HeadPurged(box: BoundingBox, group: seq<BoundingBox>, now: nat, window: nat)
    requires HullOf(box, group) && forall d :: d in group ==> d.timestampMs <= now
    ensures Stale(box, now, window) ==> Young((set b | b in group), now, window) == {}
    ensures !Stale(box, now, window) ==> HasFresh(group, Young((set b | b in group), now, window))
  {
    HullTime(box, group);
  }

  lemma YoungUnion(a: set<BoundingBox>, b: set<BoundingBox>, now: nat, window: nat)
    ensures Young(a + b, now, window) == Young(a, now, window) + Young(b, now, window)
    ensures Young(a, now, window) <= a
  {
  }

  /** Purging keeps the groups of the boxes that stay, and those hold every young detection. */
  lemma {:induction false} PurgedGroups(tracked: seq<BoundingBox>, groups: seq<seq<BoundingBox>>, now: nat, window: nat)
    returns (groups': seq<seq<BoundingBox>>)
    requires Hulls(tracked, groups) && forall d :: d in Members(groups) ==> d.timestampMs <= now
    ensures Hulls(Purged(tracked, now, window), groups')
    ensures Young(Members(groups), now, window) <= Members(groups') <= Members(groups)
    ensures AllFresh(groups', Young(Members(groups), now, window))
  {
    if tracked == [] {
      groups' := [];
    } else {
      hide HullOf, Stale, Young, HasFresh, AllFresh, Members;
      HullsUncons(tracked, groups);
      MembersCons(groups[0], groups[1..]);
      var rest := PurgedGroups(tracked[1..], groups[1..], now, window);
      var head := set b | b in groups[0];
      HeadPurged(tracked[0], groups[0], now, window);
      YoungUnion(head, Members(groups[1..]), now, window);
      var young := Young(Members(groups), now, window);
      FreshMonotone(rest, Young(Members(groups[1..]), now, window), young);
      if Stale(tracked[0], now, window) {
        groups' := rest;
      } else {
        MembersCons(groups[0], rest);
        GroupMonotone(groups[0], Young(head, now, window), young);
        FreshCons(groups[0], rest, young);
        HullsCons(tracked[0], Purged(tracked[1..], now, window), groups[0], rest);
        groups' := [groups[0]] + rest;
      }
    }
  }

  lemma HullsUncons(boxes: seq<BoundingBox>, groups: seq<seq<BoundingBox>>)
    requires Hulls(boxes, groups) && boxes != []
    ensures HullOf(boxes[0], groups[0]) && Hulls(boxes[1..], groups[1..])
    ensures boxes == [boxes[0]] + boxes[1..] && groups == [groups[0]] + groups[1..]
  {
    hide HullOf;
  }

  lemma HullsCons(box: BoundingBox, boxes: seq<BoundingBox>, group: seq<BoundingBox>, groups: seq<seq<BoundingBox>>)
    requires HullOf(box, group) && Hulls(boxes, groups)
    ensures Hulls([box] + boxes, [group] + groups)
  {
    hide HullOf;
  }

  lemma FreshCons(group: seq<BoundingBox>, groups: seq<seq<BoundingBox>>, recent: set<BoundingBox>)
    requires HasFresh(group, recent) && AllFresh(groups, recent)
    ensures AllFresh([group] + groups, recent)
  {
    hide HasFresh;
  }

  lemma HullTime(box: BoundingBox, group: seq<BoundingBox>)
    requires HullOf(box, group)
    ensures forall d :: d in group ==> d.timestampMs <= box.timestampMs
    ensures exists d :: d in group && d.timestampMs == box.timestampMs
  {
  }

  lemma {:induction false} IngestedGroups(tracked: seq<BoundingBox>, groups: seq<seq<BoundingBox>>,
                                          det: BoundingBox, threshold: real, recent: set<BoundingBox>)
    returns (groups': seq<seq<BoundingBox>>)
    requires Hulls(tracked, groups) && AllFresh(groups, recent) && det.Sized() && det in recent
    requires forall d :: d in Members(groups) ==> d.timestampMs <= det.timestampMs
    ensures Hulls(Ingested(tracked, det, threshold), groups') && AllFresh(groups', recent)
    ensures Members(groups') == Members(groups) + {det}
  {
    hide HullOf, BoundingBox.Iou, BoundingBox.United;
    if tracked == [] {
      groups' := [[det]];
      SingletonHull(det);
      MembersCons([det], []);
      assert groups' == [[det]] + [];
      assert det in groups'[0];
    } else {
      MembersCons(groups[0], groups[1..]);
      assert groups == [groups[0]] + groups[1..];
      if tracked[0].Overlaps(det, threshold) {
        groups' := [groups[0] + [det]] + groups[1..];
        MembersCons(groups[0] + [det], groups[1..]);
        SingletonHull(det);
        UnitedHull(tracked[0], groups[0], det, [det]);
        HullTime(tracked[0], groups[0]);
        UnitedTime(tracked[0], det);
        assert det in groups'[0];
      } else {
        var rest := IngestedGroups(tracked[1..], groups[1..], det, threshold, recent);
        groups' := [groups[0]] + rest;
        MembersCons(groups[0], rest);
      }
    }
  }

  /** The time written after uniting is the one uniting already computed. */
  lemma UnitedTime(a: BoundingBox, det: BoundingBox)
    requires a.timestampMs <= det.timestampMs
    ensures a.United(det).(timestampMs := det.timestampMs) == a.United(det)
  {
  }

  lemma {:induction false} AllIngestedGroups(tracked: seq<BoundingBox>, groups: seq<seq<BoundingBox>>,
                                             dets: seq<BoundingBox>, now: nat, threshold: real,
                                             recent: set<BoundingBox>)
    returns (groups': seq<seq<BoundingBox>>)
    requires Hulls(tracked, groups) && AllFresh(groups, recent)
    requires forall d :: d in dets ==> d.InUnitSquare() && Stamped(d, now) in recent
    requires forall d :: d in Members(groups) ==> d.timestampMs <= now
    ensures Hulls(AllIngested(tracked, dets, now, threshold), groups') && AllFresh(groups', recent)
    ensures Members(groups') == Members(groups) + StampedSet(dets, now)
    decreases |dets|
  {
    hide HullOf, BoundingBox.Iou, BoundingBox.United;
    if dets == [] {
      groups' := groups;
    } else {
      var next := IngestedGroups(tracked, groups, Stamped(dets[0], now), threshold, recent);
      groups' := AllIngestedGroups(Ingested(tracked, Stamped(dets[0], now), threshold), next, dets[1..], now,
                                   threshold, recent);
      assert dets == [dets[0]] + dets[1..];
    }
  }

  /** The invariant of every run: the tracked boxes are the hulls of groups of detections
      actually seen since the last reset, the groups hold every recent detection, and each
      of them has at least one. */
  lemma {:induction false} RunGroups(run: seq<Event>, config: TrackerConfig) returns (groups: seq<seq<BoundingBox>>)
    requires Proper(run)
    ensures Hulls(TrackedAfter(run, config), groups)
    ensures Recent(run, config.persistenceWindowMs) <= Members(groups) <= Seen(run)
    ensures AllFresh(groups, Recent(run, config.persistenceWindowMs))
    decreases |run|
  {
    hide HullOf;
    groups := [];
    if run != [] && Last(run).Frame? {
      var Frame(dets, now) := Last(run);
      var window := config.persistenceWindowMs;
      var before := RunGroups(Init(run), config);
      SeenFacts(Init(run));
      RecentShrinks(Init(run), now, window);
      var purged := PurgedGroups(TrackedAfter(Init(run), config), before, now, window);
      groups := AllIngestedGroups(Purged(TrackedAfter(Init(run), config), now, window), purged, dets, now,
                                  config.mergeIouThreshold, Recent(run, window));
    }
  }

  /** What is young later was recent before. */
  lemma RecentShrinks(run: seq<Event>, now: nat, window: nat)
    requires Proper(run) && LastTime(run) <= now
    ensures Young(Seen(run), now, window) <= Recent(run, window)
  {
  }

  /** Whole-run coverage: after a frame, the padded rectangle of every recent detection lies
      inside a returned box, and something is tracked (and returned) exactly when there is a
      recent detection.  Returned boxes are pairwise separated and in the unit square. */
  lemma WholeRunCoverage(run: seq<Event>, config: TrackerConfig)
    requires Proper(run) && 0.0 <= config.paddingRatio
    ensures var boxes := Rendered(TrackedAfter(run, config), config);
            && (forall d :: d in Recent(run, config.persistenceWindowMs) ==>
                  exists b :: b in boxes && b.Covers(d.Expanded(config.paddingRatio)) && b.Covers(d))
            && (boxes != [] <==> TrackedAfter(run, config) != [])
            && (boxes != [] <==> Recent(run, config.persistenceWindowMs) != {})
            && Separated(boxes, config.mergeIouThreshold)
            && (forall b :: b in boxes ==> b.InUnitSquare())
  {
    hide HullOf, Merged, BoundingBox.Expanded, BoundingBox.Covers, BoundingBox.InUnitSquare;
    hide Recent, Seen, TrackedAfter, Separated;
    var tracked := TrackedAfter(run, config);
    var groups := RunGroups(run, config);
    var padded := Padded(tracked, config.paddingRatio);
    SeenFacts(run);
    TrackedPadded(tracked, groups, config.paddingRatio);
    AllPaddedSized(padded);
    MergedCovers(padded, config.mergeIouThreshold);
    MergedSeparated(padded, config.mergeIouThreshold);
    MergedInUnitSquare(padded, config.mergeIouThreshold);
    forall d | d in Recent(run, config.persistenceWindowMs)
      ensures exists b :: b in Rendered(tracked, config) && b.Covers(d.Expanded(config.paddingRatio)) && b.Covers(d)
    {
      MemberCovered(groups, padded, Rendered(tracked, config), d, config.paddingRatio);
    }
    NonEmptyGroups(groups, Recent(run, config.persistenceWindowMs));
  }

  lemma MemberCovered(groups: seq<seq<BoundingBox>>, padded: seq<BoundingBox>, boxes: seq<BoundingBox>, d: BoundingBox,
                      ratio: real)
    requires d in Members(groups) && d.InUnitSquare() && 0.0 <= ratio && |padded| == |groups|
    requires forall k :: 0 <= k < |groups| && d in groups[k] ==> padded[k].Covers(d.Expanded(ratio))
    requires forall p :: p in padded ==> exists b :: b in boxes && b.Covers(p)
    ensures exists b :: b in boxes && b.Covers(d.Expanded(ratio)) && b.Covers(d)
  {
    hide BoundingBox.Covers, BoundingBox.Expanded, BoundingBox.InUnitSquare;
    MemberOf(groups, d);
    var k: nat :| k < |groups| && d in groups[k];
    assert padded[k] in padded;
    var b :| b in boxes && b.Covers(padded[k]);
    ExpandedGrows(d, ratio);
    CoversTransitive(b, padded[k], d.Expanded(ratio));
    CoversTransitive(b, d.Expanded(ratio), d);
  }

  lemma AllPaddedSized(boxes: seq<BoundingBox>)
    requires forall b :: b in boxes ==> b.InUnitSquare()
    ensures AllSized(boxes)
  {
  }

  lemma NonEmptyGroups(groups: seq<seq<BoundingBox>>, recent: set<BoundingBox>)
    requires AllFresh(groups, recent) && recent <= Members(groups)
    ensures groups != [] <==> recent != {}
  {
    if groups != [] { assert HasFresh(groups[0], recent); }
    if d :| d in recent { MemberOf(groups, d); }
  }

  lemma TrackedPadded(tracked: seq<BoundingBox>, groups: seq<seq<BoundingBox>>, ratio: real)
    requires Hulls(tracked, groups) && 0.0 <= ratio
    requires forall d :: d in Members(groups) ==> d.InUnitSquare()
    ensures forall b :: b in Padded(tracked, ratio) ==> b.InUnitSquare()
    ensures forall k, d :: 0 <= k < |tracked| && d in groups[k] ==> Padded(tracked, ratio)[k].Covers(d.Expanded(ratio))
  {
    hide HullOf, BoundingBox.Expanded, BoundingBox.Covers;
    forall k | 0 <= k < |tracked|
      ensures tracked[k].InUnitSquare() && tracked[k].Expanded(ratio).InUnitSquare()
      ensures forall d :: d in groups[k] ==> tracked[k].Expanded(ratio).Covers(d.Expanded(ratio))
    {
      forall d: BoundingBox | d in groups[k] ensures d.InUnitSquare() { MemberOf(groups, d); }
      HullInUnitSquare(tracked[k], groups[k]);
      ExpandedGrows(tracked[k], ratio);
      HullMembers(tracked[k], groups[k]);
      forall d: BoundingBox | d in groups[k] ensures tracked[k].Expanded(ratio).Covers(d.Expanded(ratio)) {
        ExpandedMonotone(tracked[k], d, ratio);
      }
    }
  }

  /** Nothing is covered without cause: every tracked box is the tight hull of a non-empty
      set of detections seen since the last reset, at least one of them recent. */
  lemma TrackedAreHullsOfSeen(run: seq<Event>, config: TrackerConfig, k: nat) returns (group: seq<BoundingBox>)
    requires Proper(run) && k < |TrackedAfter(run, config)|
    ensures HullOf(TrackedAfter(run, config)[k], group)
    ensures forall d :: d in group ==> d in Seen(run)
    ensures exists d :: d in group && d in Recent(run, config.persistenceWindowMs)
  {
    var groups := RunGroups(run, config);
    group := groups[k];
    assert HasFresh(groups[k], Recent(run, config.persistenceWindowMs));
    forall d: BoundingBox | d in group ensures d in Seen(run) { MemberOf(groups, d); }
  }
}
