/** `merge_overlapping_boxes`, which both trackers run on their padded boxes: sweep the list,
    let each box swallow every later box it overlaps, and repeat until a sweep changes nothing. */
module BoxMerge {
  import opened Geometry

  // ---------- What a sweep computes ----------

  /** `current` meets the boxes of `rest` in order; it unites with those it overlaps (growing
      as it goes) and the others are left over. */
  function Absorb(current: BoundingBox, rest: seq<BoundingBox>, threshold: real): (r: (BoundingBox, seq<BoundingBox>))
    ensures |r.1| <= |rest|
    decreases |rest|
  {
    if rest == [] then (current, [])
    else if current.Overlaps(rest[0], threshold) then Absorb(current.United(rest[0]), rest[1..], threshold)
    else
      var (box, left) := Absorb(current, rest[1..], threshold);
      (box, [rest[0]] + left)
  }

  function Sweep(boxes: seq<BoundingBox>, threshold: real): (r: seq<BoundingBox>)
    ensures |r| <= |boxes|
    decreases |boxes|
  {
    if boxes == [] then []
    else
      var (box, left) := Absorb(boxes[0], boxes[1..], threshold);
      [box] + Sweep(left, threshold)
  }

  function Merged(boxes: seq<BoundingBox>, threshold: real): seq<BoundingBox>
    decreases |boxes|
  {
    var next := Sweep(boxes, threshold);
    if |next| < |boxes| then Merged(next, threshold) else boxes
  }

  // ---------- The loops ----------

  /** The boxes from `lo` up to `hi` not yet swallowed. */
  function Unconsumed(boxes: seq<BoundingBox>, consumed: seq<bool>, lo: nat, hi: nat): (r: seq<BoundingBox>)
    requires lo <= hi <= |boxes| == |consumed|
    ensures |r| <= hi - lo
    decreases hi - lo
  {
    if lo == hi then []
    else if consumed[lo] then Unconsumed(boxes, consumed, lo + 1, hi)
    else [boxes[lo]] + Unconsumed(boxes, consumed, lo + 1, hi)
  }

  lemma UnconsumedSnoc(boxes: seq<BoundingBox>, consumed: seq<bool>, lo: nat, hi: nat)
    requires lo <= hi < |boxes| == |consumed|
    ensures Unconsumed(boxes, consumed, lo, hi + 1)
         == Unconsumed(boxes, consumed, lo, hi) + if consumed[hi] then [] else [boxes[hi]]
    decreases hi - lo
  {
    if lo < hi { UnconsumedSnoc(boxes, consumed, lo + 1, hi); }
  }

  lemma UnconsumedFrame(boxes: seq<BoundingBox>, consumed: seq<bool>, j: nat, lo: nat, hi: nat)
    requires lo <= hi <= |boxes| == |consumed| && j < |boxes| && (j < lo || hi <= j)
    ensures Unconsumed(boxes, consumed[j := true], lo, hi) == Unconsumed(boxes, consumed, lo, hi)
    decreases hi - lo
  {
    if lo < hi { UnconsumedFrame(boxes, consumed, j, lo + 1, hi); }
  }

  lemma UnconsumedAll(boxes: seq<BoundingBox>, consumed: seq<bool>, lo: nat)
    requires lo <= |boxes| == |consumed| && forall k :: 0 <= k < |consumed| ==> !consumed[k]
    ensures Unconsumed(boxes, consumed, lo, |boxes|) == boxes[lo..]
    decreases |boxes| - lo
  {
    if lo < |boxes| {
      UnconsumedAll(boxes, consumed, lo + 1);
      assert boxes[lo..] == [boxes[lo]] + boxes[lo + 1..];
    }
  }

  /** What the inner loop will have computed, seen from its state at `j`. */
  ghost function Outcome(boxes: seq<BoundingBox>, consumed: seq<bool>, i: nat, j: nat, current: BoundingBox,
                         threshold: real)
    : (BoundingBox, seq<BoundingBox>)
    requires i < j <= |boxes| == |consumed|
  {
    var (box, left) := Absorb(current, Unconsumed(boxes, consumed, j, |boxes|), threshold);
    (box, Unconsumed(boxes, consumed, i + 1, j) + left)
  }

  ghost function Kept(boxes: seq<BoundingBox>, consumed: seq<bool>, i: nat, j: nat): nat
    requires i < j <= |boxes| == |consumed|
  {
    |Unconsumed(boxes, consumed, i + 1, j)| + |Unconsumed(boxes, consumed, j, |boxes|)|
  }

  lemma SkipStep(boxes: seq<BoundingBox>, consumed: seq<bool>, i: nat, j: nat, current: BoundingBox, threshold: real)
    requires i < j < |boxes| == |consumed|
    requires consumed[j] || !current.Overlaps(boxes[j], threshold)
    ensures Outcome(boxes, consumed, i, j + 1, current, threshold) == Outcome(boxes, consumed, i, j, current, threshold)
    ensures Kept(boxes, consumed, i, j + 1) == Kept(boxes, consumed, i, j)
  {
    hide BoundingBox.Overlaps, BoundingBox.United;
    UnconsumedSnoc(boxes, consumed, i + 1, j);
    var kept, tail := Unconsumed(boxes, consumed, i + 1, j), Unconsumed(boxes, consumed, j + 1, |boxes|);
    if consumed[j] {
      assert kept + [] == kept;
    } else {
      var all := Unconsumed(boxes, consumed, j, |boxes|);
      assert all == [boxes[j]] + tail && all[1..] == tail;
      var left := Absorb(current, tail, threshold).1;
      assert Absorb(current, all, threshold).1 == [boxes[j]] + left;
      assert kept + ([boxes[j]] + left) == kept + [boxes[j]] + left;
    }
  }

  lemma SwallowStep(boxes: seq<BoundingBox>, consumed: seq<bool>, i: nat, j: nat, current: BoundingBox, threshold: real)
    requires i < j < |boxes| == |consumed|
    requires !consumed[j] && current.Overlaps(boxes[j], threshold)
    ensures var consumed' := consumed[j := true];
            && Outcome(boxes, consumed', i, j + 1, current.United(boxes[j]), threshold)
               == Outcome(boxes, consumed, i, j, current, threshold)
            && Kept(boxes, consumed', i, j + 1) < Kept(boxes, consumed, i, j)
  {
    hide BoundingBox.Overlaps, BoundingBox.United;
    var consumed' := consumed[j := true];
    UnconsumedFrame(boxes, consumed, j, i + 1, j);
    UnconsumedFrame(boxes, consumed, j, j + 1, |boxes|);
    UnconsumedSnoc(boxes, consumed', i + 1, j);
    assert Unconsumed(boxes, consumed, i + 1, j) + [] == Unconsumed(boxes, consumed, i + 1, j);
    assert Unconsumed(boxes, consumed, j, |boxes|)[1..] == Unconsumed(boxes, consumed, j + 1, |boxes|);
  }

  /** The inner loop: the box at `i` swallows what it can of the boxes after it. */
  method SwallowFrom(boxes: seq<BoundingBox>, consumed0: seq<bool>, i: nat, threshold: real)
    returns (current: BoundingBox, consumed: seq<bool>, mergedHere: bool)
    requires i < |boxes| == |consumed0|
    ensures |consumed| == |boxes|
    ensures (current, Unconsumed(boxes, consumed, i + 1, |boxes|))
         == Absorb(boxes[i], Unconsumed(boxes, consumed0, i + 1, |boxes|), threshold)
    ensures mergedHere
       <==> |Unconsumed(boxes, consumed, i + 1, |boxes|)| < |Unconsumed(boxes, consumed0, i + 1, |boxes|)|
  {
    hide BoundingBox.Overlaps, BoundingBox.United;
    current, consumed, mergedHere := boxes[i], consumed0, false;
    ghost var left := Absorb(current, Unconsumed(boxes, consumed, i + 1, |boxes|), threshold).1;
    assert [] + left == left;
    ghost var all := |Unconsumed(boxes, consumed, i + 1, |boxes|)|;
    var j := i + 1;
    while j < |boxes|
      invariant i + 1 <= j <= |boxes| == |consumed|
      invariant Outcome(boxes, consumed, i, j, current, threshold)
             == Outcome(boxes, consumed0, i, i + 1, boxes[i], threshold)
      invariant if mergedHere then Kept(boxes, consumed, i, j) < all else Kept(boxes, consumed, i, j) == all
    {
      if !consumed[j] && current.Overlaps(boxes[j], threshold) {
        SwallowStep(boxes, consumed, i, j, current, threshold);
        current := current.United(boxes[j]);
        consumed := consumed[j := true];
        mergedHere := true;
      } else {
        SkipStep(boxes, consumed, i, j, current, threshold);
      }
      j := j + 1;
    }
    assert Unconsumed(boxes, consumed, i + 1, |boxes|) + [] == Unconsumed(boxes, consumed, i + 1, |boxes|);
  }

  /** One sweep over the list. */
  method SweepOnce(boxes: seq<BoundingBox>, threshold: real) returns (nextStage: seq<BoundingBox>, mergedAny: bool)
    ensures nextStage == Sweep(boxes, threshold)
    ensures mergedAny <==> |nextStage| < |boxes|
  {
    hide Unconsumed, Sweep, Absorb;
    nextStage, mergedAny := [], false;
    var n := |boxes|;
    var consumed := seq(n, _ => false);
    UnconsumedAll(boxes, consumed, 0);
    assert boxes[0..] == boxes && nextStage + Sweep(boxes, threshold) == Sweep(boxes, threshold);
    var i := 0;
    while i < n
      invariant 0 <= i <= n == |consumed|
      invariant nextStage + Sweep(Unconsumed(boxes, consumed, i, n), threshold) == Sweep(boxes, threshold)
      invariant var kept := |nextStage| + |Unconsumed(boxes, consumed, i, n)|;
                if mergedAny then kept < n else kept == n
    {
      UnconsumedStep(boxes, consumed, i, n);
      if !consumed[i] {
        ghost var before := Unconsumed(boxes, consumed, i + 1, n);
        var current, mergedHere;
        current, consumed, mergedHere := SwallowFrom(boxes, consumed, i, threshold);
        ghost var after := Unconsumed(boxes, consumed, i + 1, n);
        AbsorbShrinks(boxes[i], before, threshold);
        SweepStep(boxes[i], before, current, after, threshold);
        assert nextStage + ([current] + Sweep(after, threshold)) == nextStage + [current] + Sweep(after, threshold);
        mergedAny := mergedAny || mergedHere;
        nextStage := nextStage + [current];
      }
      i := i + 1;
    }
    UnconsumedStep(boxes, consumed, n, n);
    SweepNothing(threshold);
    assert nextStage + [] == nextStage;
  }

  lemma UnconsumedStep(boxes: seq<BoundingBox>, consumed: seq<bool>, lo: nat, hi: nat)
    requires lo <= hi <= |boxes| == |consumed|
    ensures Unconsumed(boxes, consumed, lo, hi)
         == if lo == hi then [] else if consumed[lo] then Unconsumed(boxes, consumed, lo + 1, hi)
            else [boxes[lo]] + Unconsumed(boxes, consumed, lo + 1, hi)
  {
  }

  lemma AbsorbShrinks(box: BoundingBox, rest: seq<BoundingBox>, threshold: real)
    ensures |Absorb(box, rest, threshold).1| <= |rest|
  {
  }

  lemma SweepStep(box: BoundingBox, rest: seq<BoundingBox>, current: BoundingBox, left: seq<BoundingBox>,
                  threshold: real)
    requires Absorb(box, rest, threshold) == (current, left)
    ensures Sweep([box] + rest, threshold) == [current] + Sweep(left, threshold)
  {
    hide Absorb;
    assert ([box] + rest)[1..] == rest;
  }

  lemma SweepNothing(threshold: real)
    ensures Sweep([], threshold) == []
  {
  }

  /** Sweeps until nothing merges; every merging sweep shortens the list, so it stops. */
  method MergeOverlappingBoxes(input: seq<BoundingBox>, threshold: real) returns (boxes: seq<BoundingBox>)
    ensures boxes == Merged(input, threshold)
  {
    boxes := input;
    if |boxes| <= 1 { return; }
    var mergedAny := true;
    while mergedAny
      invariant Merged(boxes, threshold) == Merged(input, threshold)
      invariant !mergedAny ==> |Sweep(boxes, threshold)| == |boxes|
      decreases |boxes|, mergedAny
    {
      var nextStage;
      nextStage, mergedAny := SweepOnce(boxes, threshold);
      if !mergedAny { FullSweepIsIdentity(boxes, threshold); }
      boxes := nextStage;
    }
  }

  // ---------- Fixpoint, pairwise separation, idempotence ----------

  lemma {:induction false} AbsorbNothing(current: BoundingBox, rest: seq<BoundingBox>, threshold: real)
    requires |Absorb(current, rest, threshold).1| == |rest|
    ensures Absorb(current, rest, threshold) == (current, rest)
    ensures forall k :: 0 <= k < |rest| ==> current.Iou(rest[k]) <= threshold
  {
    hide BoundingBox.Iou, BoundingBox.United;
    if rest != [] {
      AbsorbNothing(current, rest[1..], threshold);
      assert rest == [rest[0]] + rest[1..];
    }
  }

  lemma {:induction false} FullSweepIsIdentity(boxes: seq<BoundingBox>, threshold: real)
    requires |Sweep(boxes, threshold)| == |boxes|
    ensures Sweep(boxes, threshold) == boxes
    ensures forall i, j :: 0 <= i < j < |boxes| ==> boxes[i].Iou(boxes[j]) <= threshold
    decreases |boxes|
  {
    if boxes != [] {
      AbsorbNothing(boxes[0], boxes[1..], threshold);
      FullSweepIsIdentity(boxes[1..], threshold);
    }
  }

  /** The result is the fixpoint: its boxes are pairwise at IoU at most the threshold. */
  lemma {:induction false} MergedSeparated(boxes: seq<BoundingBox>, threshold: real)
    ensures Separated(Merged(boxes, threshold), threshold)
    decreases |boxes|
  {
    var next := Sweep(boxes, threshold);
    if |next| < |boxes| {
      MergedSeparated(next, threshold);
    } else {
      FullSweepIsIdentity(boxes, threshold);
      forall i, j | 0 <= i < |boxes| && 0 <= j < |boxes| && i != j
        ensures boxes[i].Iou(boxes[j]) <= threshold
      {
        IouSymmetric(boxes[i], boxes[j]);
      }
    }
  }

  lemma {:induction false} AbsorbSeparated(current: BoundingBox, rest: seq<BoundingBox>, threshold: real)
    requires forall k :: 0 <= k < |rest| ==> current.Iou(rest[k]) <= threshold
    ensures Absorb(current, rest, threshold) == (current, rest)
  {
    hide BoundingBox.Iou, BoundingBox.United;
    if rest != [] {
      assert current.Iou(rest[0]) <= threshold;
      AbsorbSeparated(current, rest[1..], threshold);
      assert rest == [rest[0]] + rest[1..];
    }
  }

  lemma {:induction false} SweepSeparated(boxes: seq<BoundingBox>, threshold: real)
    requires forall i, j :: 0 <= i < j < |boxes| ==> boxes[i].Iou(boxes[j]) <= threshold
    ensures Sweep(boxes, threshold) == boxes
    decreases |boxes|
  {
    if boxes != [] {
      AbsorbSeparated(boxes[0], boxes[1..], threshold);
      SweepSeparated(boxes[1..], threshold);
    }
  }

  /** A list is left as it is exactly when it is already separated. */
  lemma MergedFixpoint(boxes: seq<BoundingBox>, threshold: real)
    ensures Merged(boxes, threshold) == boxes <==> Separated(boxes, threshold)
  {
    if Separated(boxes, threshold) { SweepSeparated(boxes, threshold); }
    MergedSeparated(boxes, threshold);
  }

  lemma MergedIdempotent(boxes: seq<BoundingBox>, threshold: real)
    ensures Merged(Merged(boxes, threshold), threshold) == Merged(boxes, threshold)
  {
    MergedSeparated(boxes, threshold);
    MergedFixpoint(Merged(boxes, threshold), threshold);
  }

  // ---------- Partition into hulls ----------

  datatype Edge = LeftEdge | TopEdge | RightEdge | BottomEdge

  function At(b: BoundingBox, edge: Edge): real {
    match edge
    case LeftEdge => b.Left()
    case TopEdge => b.Top()
    case RightEdge => b.Right()
    case BottomEdge => b.Bottom()
  }

  /** Some member of the group has this edge in common with `box`. */
  ghost predicate Touches(box: BoundingBox, edge: Edge, group: seq<BoundingBox>) {
    exists b :: b in group && At(b, edge) == At(box, edge)
  }

  ghost predicate LabelledBy(box: BoundingBox, group: seq<BoundingBox>) {
    && (exists b :: b in group && b.confidence == box.confidence && b.classId == box.classId)
    && (exists b :: b in group && b.timestampMs == box.timestampMs)
  }

  ghost predicate Bounds(box: BoundingBox, group: seq<BoundingBox>) {
    box.Sized() && forall b :: b in group ==>
      box.Covers(b) && b.confidence <= box.confidence && b.timestampMs <= box.timestampMs
  }

  /** `box` is the tight hull of the non-empty group, with the group's largest confidence
      (and that member's class) and its latest timestamp. */
  ghost predicate HullOf(box: BoundingBox, group: seq<BoundingBox>) {
    && Bounds(box, group)
    && (forall edge :: Touches(box, edge, group))
    && LabelledBy(box, group)
  }

  ghost predicate AllSized(boxes: seq<BoundingBox>) { forall b :: b in boxes ==> b.Sized() }

  /** Everything in the groups, counted with multiplicity. */
  ghost function Gathered(groups: seq<seq<BoundingBox>>): multiset<BoundingBox> {
    if groups == [] then multiset{} else multiset(groups[0]) + Gathered(groups[1..])
  }

  ghost predicate Hulls(boxes: seq<BoundingBox>, groups: seq<seq<BoundingBox>>) {
    |boxes| == |groups| && forall k :: 0 <= k < |boxes| ==> HullOf(boxes[k], groups[k])
  }

  lemma UnitedTouches(a: BoundingBox, ga: seq<BoundingBox>, b: BoundingBox, gb: seq<BoundingBox>, edge: Edge)
    requires a.Sized() && b.Sized() && Touches(a, edge, ga) && Touches(b, edge, gb)
    ensures Touches(a.United(b), edge, ga + gb)
  {
    var m :| m in ga && At(m, edge) == At(a, edge);
    var n :| n in gb && At(n, edge) == At(b, edge);
    assert m in ga + gb && n in ga + gb;
    assert At(a.United(b), edge) in {At(a, edge), At(b, edge)};
  }

  lemma UnitedLabelled(a: BoundingBox, ga: seq<BoundingBox>, b: BoundingBox, gb: seq<BoundingBox>)
    requires LabelledBy(a, ga) && LabelledBy(b, gb)
    ensures LabelledBy(a.United(b), ga + gb)
  {
    var u := a.United(b);
    var first := u.confidence == a.confidence && u.classId == a.classId;
    var m :| if first then m in ga && m.confidence == a.confidence && m.classId == a.classId
                      else m in gb && m.confidence == b.confidence && m.classId == b.classId;
    assert m in ga + gb;
    var n :| if u.timestampMs == a.timestampMs then n in ga && n.timestampMs == a.timestampMs
                                                else n in gb && n.timestampMs == b.timestampMs;
    assert n in ga + gb;
  }

  lemma UnitedHull(a: BoundingBox, ga: seq<BoundingBox>, b: BoundingBox, gb: seq<BoundingBox>)
    requires HullOf(a, ga) && HullOf(b, gb)
    ensures HullOf(a.United(b), ga + gb)
  {
    forall edge ensures Touches(a.United(b), edge, ga + gb) {
      UnitedTouches(a, ga, b, gb, edge);
    }
    UnitedLabelled(a, ga, b, gb);
    UnitedIsHull(a, b);
  }

  lemma GatheredCons(group: seq<BoundingBox>, groups: seq<seq<BoundingBox>>)
    ensures Gathered([group] + groups) == multiset(group) + Gathered(groups)
  {
    assert ([group] + groups)[1..] == groups;
  }

  lemma {:induction false} AbsorbGroups(current: BoundingBox, group: seq<BoundingBox>,
                                        rest: seq<BoundingBox>, groups: seq<seq<BoundingBox>>, threshold: real)
    returns (group': seq<BoundingBox>, groups': seq<seq<BoundingBox>>)
    requires HullOf(current, group) && Hulls(rest, groups)
    ensures HullOf(Absorb(current, rest, threshold).0, group') && Hulls(Absorb(current, rest, threshold).1, groups')
    ensures multiset(group') + Gathered(groups') == multiset(group) + Gathered(groups)
    decreases |rest|
  {
    hide BoundingBox.Iou, BoundingBox.United, HullOf;
    if rest == [] {
      group', groups' := group, groups;
    } else if current.Overlaps(rest[0], threshold) {
      UnitedHull(current, group, rest[0], groups[0]);
      assert multiset(group + groups[0]) == multiset(group) + multiset(groups[0]);
      group', groups' := AbsorbGroups(current.United(rest[0]), group + groups[0], rest[1..], groups[1..], threshold);
    } else {
      group', groups' := AbsorbGroups(current, group, rest[1..], groups[1..], threshold);
      GatheredCons(groups[0], groups');
      var head, before, after := multiset(groups[0]), Gathered(groups[1..]), Gathered(groups');
      assert multiset(group') + (head + after) == head + (multiset(group') + after);
      assert head + (multiset(group) + before) == multiset(group) + (head + before);
      groups' := [groups[0]] + groups';
    }
  }

  lemma {:induction false} SweepGroups(boxes: seq<BoundingBox>, groups: seq<seq<BoundingBox>>, threshold: real)
    returns (groups': seq<seq<BoundingBox>>)
    requires Hulls(boxes, groups)
    ensures Hulls(Sweep(boxes, threshold), groups') && Gathered(groups') == Gathered(groups)
    decreases |boxes|
  {
    hide BoundingBox.Iou, BoundingBox.United, HullOf;
    if boxes == [] {
      groups' := groups;
    } else {
      var group, left := AbsorbGroups(boxes[0], groups[0], boxes[1..], groups[1..], threshold);
      groups' := SweepGroups(Absorb(boxes[0], boxes[1..], threshold).1, left, threshold);
      GatheredCons(group, groups');
      groups' := [group] + groups';
    }
  }

  lemma {:induction false} MergedGroups(boxes: seq<BoundingBox>, groups: seq<seq<BoundingBox>>, threshold: real)
    returns (groups': seq<seq<BoundingBox>>)
    requires Hulls(boxes, groups)
    ensures Hulls(Merged(boxes, threshold), groups') && Gathered(groups') == Gathered(groups)
    decreases |boxes|
  {
    var next := Sweep(boxes, threshold);
    if |next| < |boxes| {
      var nextGroups := SweepGroups(boxes, groups, threshold);
      groups' := MergedGroups(next, nextGroups, threshold);
    } else {
      groups' := groups;
    }
  }

  lemma SingletonHull(b: BoundingBox)
    requires b.Sized()
    ensures HullOf(b, [b])
  {
    assert b in [b];
  }

  lemma {:induction false} Singletons(boxes: seq<BoundingBox>) returns (groups: seq<seq<BoundingBox>>)
    requires AllSized(boxes)
    ensures Hulls(boxes, groups) && Gathered(groups) == multiset(boxes)
  {
    if boxes == [] {
      groups := [];
    } else {
      groups := Singletons(boxes[1..]);
      GatheredCons([boxes[0]], groups);
      SingletonHull(boxes[0]);
      groups := [[boxes[0]]] + groups;
      assert boxes == [boxes[0]] + boxes[1..];
    }
  }

  /** The output is the list of hulls of a partition of the input: each input box is in
      exactly one group (with multiplicity) and each output box is the hull of its group. */
  lemma MergedPartition(boxes: seq<BoundingBox>, threshold: real) returns (groups: seq<seq<BoundingBox>>)
    requires AllSized(boxes)
    ensures Hulls(Merged(boxes, threshold), groups)
    ensures Gathered(groups) == multiset(boxes)
  {
    var singles := Singletons(boxes);
    groups := MergedGroups(boxes, singles, threshold);
  }

  lemma {:induction false} GatheredMember(groups: seq<seq<BoundingBox>>, b: BoundingBox)
    ensures b in Gathered(groups) <==> exists k :: 0 <= k < |groups| && b in groups[k]
  {
    if groups != [] {
      GatheredMember(groups[1..], b);
      if b in groups[0] { assert b in multiset(groups[0]); }
      if k :| 0 <= k < |groups[1..]| && b in groups[1..][k] { assert b in groups[k + 1]; }
      if k :| 0 <= k < |groups| && b in groups[k] {
        if k > 0 { assert b in groups[1..][k - 1]; }
      }
    }
  }

  /** A box that bounds a group covers each member and a hull always has one. */
  lemma HullMembers(m: BoundingBox, group: seq<BoundingBox>)
    requires HullOf(m, group)
    ensures forall b :: b in group ==> m.Covers(b)
    ensures exists b :: b in group && m.Covers(b)
  {
    assert Touches(m, LeftEdge, group);
  }

  lemma GroupMember(boxes: seq<BoundingBox>, groups: seq<seq<BoundingBox>>, b: BoundingBox) returns (k: nat)
    requires Gathered(groups) == multiset(boxes) && b in boxes
    ensures k < |groups| && b in groups[k]
  {
    assert b in multiset(boxes);
    GatheredMember(groups, b);
    k :| k < |groups| && b in groups[k];
  }

  /** Every input box lies inside an output box, and the other way round every output box
      covers an input box; so one list is empty exactly when the other is. */
  lemma MergedCovers(boxes: seq<BoundingBox>, threshold: real)
    requires AllSized(boxes)
    ensures forall b :: b in boxes ==> exists m :: m in Merged(boxes, threshold) && m.Covers(b)
    ensures forall m :: m in Merged(boxes, threshold) ==> exists b :: b in boxes && m.Covers(b)
    ensures Merged(boxes, threshold) == [] <==> boxes == []
  {
    hide HullOf, Sweep, BoundingBox.Covers;
    var merged := Merged(boxes, threshold);
    var groups := MergedPartition(boxes, threshold);
    forall b | b in boxes ensures exists m :: m in merged && m.Covers(b) {
      var k := GroupMember(boxes, groups, b);
      HullMembers(merged[k], groups[k]);
      assert merged[k] in merged;
    }
    forall m | m in merged ensures exists b :: b in boxes && m.Covers(b) {
      var k: nat :| k < |merged| && merged[k] == m;
      HullMembers(m, groups[k]);
      var b: BoundingBox :| b in groups[k] && m.Covers(b);
      GatheredMember(groups, b);
      assert b in multiset(boxes);
    }
    if boxes != [] { assert boxes[0] in boxes; }
    if merged != [] { assert merged[0] in merged; }
  }

  lemma HullInUnitSquare(m: BoundingBox, group: seq<BoundingBox>)
    requires HullOf(m, group) && forall b :: b in group ==> b.InUnitSquare()
    ensures m.InUnitSquare()
  {
    assert Touches(m, LeftEdge, group) && Touches(m, TopEdge, group);
    assert Touches(m, RightEdge, group) && Touches(m, BottomEdge, group);
  }

  lemma MergedInUnitSquare(boxes: seq<BoundingBox>, threshold: real)
    requires forall b :: b in boxes ==> b.InUnitSquare()
    ensures forall m :: m in Merged(boxes, threshold) ==> m.InUnitSquare()
  {
    hide HullOf, Sweep;
    var groups := MergedPartition(boxes, threshold);
    var merged := Merged(boxes, threshold);
    forall m | m in merged ensures m.InUnitSquare() {
      var k: nat :| k < |merged| && merged[k] == m;
      forall b: BoundingBox | b in groups[k] ensures b.InUnitSquare() {
        GatheredMember(groups, b);
        assert b in multiset(boxes);
      }
      HullInUnitSquare(m, groups[k]);
    }
  }
}
