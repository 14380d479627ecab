/** How merging unites boxes: only ones that overlap beyond the caller's threshold, two at a time.
    Nothing in the statement refers to the passes that do it. */
module MergeTrees {
  import opened Geometry
  import opened BoxMerge

  /** A box of the input by its position, or two united boxes. */
  datatype Tree = Leaf(at: nat) | Join(left: Tree, right: Tree)

  /** The leftmost position. */
  function First(t: Tree): nat {
    match t case Leaf(at) => at case Join(left, _) => First(left)
  }

  ghost function Leaves(t: Tree): multiset<nat> {
    match t case Leaf(at) => multiset{at} case Join(left, right) => Leaves(left) + Leaves(right)
  }

  ghost function AllLeaves(trees: seq<Tree>): multiset<nat> {
    if trees == [] then multiset{} else Leaves(trees[0]) + AllLeaves(trees[1..])
  }

  predicate Inside(t: Tree, n: nat) {
    match t case Leaf(at) => at < n case Join(left, right) => Inside(left, n) && Inside(right, n)
  }

  function Hull(t: Tree, boxes: seq<BoundingBox>): BoundingBox
    requires Inside(t, |boxes|)
  {
    match t
    case Leaf(at) => boxes[at]
    case Join(left, right) => Hull(left, boxes).United(Hull(right, boxes))
  }

  /** Wherever two boxes were united they overlapped, and the one that began earlier came first. */
  predicate Earned(t: Tree, boxes: seq<BoundingBox>, threshold: real)
    requires Inside(t, |boxes|)
  {
    match t
    case Leaf(_) => true
    case Join(left, right) =>
      && Earned(left, boxes, threshold) && Earned(right, boxes, threshold) && First(left) < First(right)
      && Hull(left, boxes).Overlaps(Hull(right, boxes), threshold)
  }

  /** The tree shows how `box` came about. */
  predicate Builds(t: Tree, box: BoundingBox, boxes: seq<BoundingBox>, threshold: real) {
    Inside(t, |boxes|) && Earned(t, boxes, threshold) && Hull(t, boxes) == box
  }

  ghost predicate AllBuild(trees: seq<Tree>, list: seq<BoundingBox>, boxes: seq<BoundingBox>, threshold: real) {
    |trees| == |list| && forall k :: 0 <= k < |list| ==> Builds(trees[k], list[k], boxes, threshold)
  }

  ghost predicate InOrder(trees: seq<Tree>) {
    forall i, j :: 0 <= i < j < |trees| ==> First(trees[i]) < First(trees[j])
  }

  ghost predicate AllAfter(t: Tree, trees: seq<Tree>) {
    forall k :: 0 <= k < |trees| ==> First(t) < First(trees[k])
  }

  lemma JoinBuilds(a: Tree, x: BoundingBox, b: Tree, y: BoundingBox, boxes: seq<BoundingBox>, threshold: real)
    requires Builds(a, x, boxes, threshold) && Builds(b, y, boxes, threshold)
    requires First(a) < First(b) && x.Overlaps(y, threshold)
    ensures Builds(Join(a, b), x.United(y), boxes, threshold)
    ensures First(Join(a, b)) == First(a) && Leaves(Join(a, b)) == Leaves(a) + Leaves(b)
  {
    hide BoundingBox.Overlaps, BoundingBox.United;
  }

  lemma Ahead(t: Tree, trees: seq<Tree>)
    requires AllAfter(t, trees) && InOrder(trees)
    ensures InOrder([t] + trees) && AllLeaves([t] + trees) == Leaves(t) + AllLeaves(trees)
  {
    hide First, Leaves;
    assert ([t] + trees)[1..] == trees;
  }

  lemma Behind(trees: seq<Tree>)
    requires trees != [] && InOrder(trees)
    ensures AllAfter(trees[0], trees[1..]) && InOrder(trees[1..])
    ensures AllLeaves(trees) == Leaves(trees[0]) + AllLeaves(trees[1..])
  {
    hide First, Leaves;
  }

  lemma ListAhead(t: Tree, box: BoundingBox, trees: seq<Tree>, list: seq<BoundingBox>, boxes: seq<BoundingBox>,
                  threshold: real)
    requires Builds(t, box, boxes, threshold) && AllBuild(trees, list, boxes, threshold)
    ensures AllBuild([t] + trees, [box] + list, boxes, threshold)
  {
    hide Builds;
  }

  /** One box meets the rest of the list. */
  lemma {:induction false} AbsorbTrees(t: Tree, current: BoundingBox, trees: seq<Tree>, rest: seq<BoundingBox>,
                                       boxes: seq<BoundingBox>, threshold: real)
    returns (t': Tree, trees': seq<Tree>)
    requires Builds(t, current, boxes, threshold) && AllBuild(trees, rest, boxes, threshold)
    requires AllAfter(t, trees) && InOrder(trees)
    ensures Builds(t', Absorb(current, rest, threshold).0, boxes, threshold) && First(t') == First(t)
    ensures AllBuild(trees', Absorb(current, rest, threshold).1, boxes, threshold)
    ensures AllAfter(t', trees') && InOrder(trees')
    ensures forall k :: 0 <= k < |trees'| ==> exists j :: 0 <= j < |trees| && First(trees'[k]) == First(trees[j])
    ensures Leaves(t') + AllLeaves(trees') == Leaves(t) + AllLeaves(trees)
    decreases |rest|
  {
    hide BoundingBox.Overlaps, BoundingBox.United, Builds, First, Leaves, AllLeaves;
    if rest == [] {
      t', trees' := t, trees;
    } else {
      Behind(trees);
      if current.Overlaps(rest[0], threshold) {
        JoinBuilds(t, current, trees[0], rest[0], boxes, threshold);
        assert Leaves(t) + (Leaves(trees[0]) + AllLeaves(trees[1..]))
            == Leaves(t) + Leaves(trees[0]) + AllLeaves(trees[1..]);
        t', trees' := AbsorbTrees(Join(t, trees[0]), current.United(rest[0]), trees[1..], rest[1..], boxes, threshold);
      } else {
        var left;
        t', left := AbsorbTrees(t, current, trees[1..], rest[1..], boxes, threshold);
        AfterKept(trees[0], trees[1..], left);
        Ahead(trees[0], left);
        ListAhead(trees[0], rest[0], left, Absorb(current, rest[1..], threshold).1, boxes, threshold);
        var mine, head, before, after := Leaves(t'), Leaves(trees[0]), AllLeaves(trees[1..]), AllLeaves(left);
        assert mine + (head + after) == head + (mine + after);
        assert Leaves(t) + (head + before) == head + (Leaves(t) + before);
        trees' := [trees[0]] + left;
      }
    }
  }

  lemma AfterKept(t: Tree, trees: seq<Tree>, left: seq<Tree>)
    requires AllAfter(t, trees)
    requires forall k :: 0 <= k < |left| ==> exists j :: 0 <= j < |trees| && First(left[k]) == First(trees[j])
    ensures AllAfter(t, left)
  {
    hide First;
  }

  lemma {:induction false} SweepTrees(trees: seq<Tree>, list: seq<BoundingBox>, boxes: seq<BoundingBox>,
                                      threshold: real)
    returns (trees': seq<Tree>)
    requires AllBuild(trees, list, boxes, threshold) && InOrder(trees)
    ensures AllBuild(trees', Sweep(list, threshold), boxes, threshold) && InOrder(trees')
    ensures forall k :: 0 <= k < |trees'| ==> exists j :: 0 <= j < |trees| && First(trees'[k]) == First(trees[j])
    ensures AllLeaves(trees') == AllLeaves(trees)
    decreases |list|
  {
    hide Absorb, Builds, First, Leaves, AllLeaves;
    if list == [] {
      trees' := trees;
    } else {
      Behind(trees);
      var (box, left) := Absorb(list[0], list[1..], threshold);
      var t, rest := AbsorbTrees(trees[0], list[0], trees[1..], list[1..], boxes, threshold);
      var swept := SweepTrees(rest, left, boxes, threshold);
      AfterKept(t, rest, swept);
      Ahead(t, swept);
      ListAhead(t, box, swept, Sweep(left, threshold), boxes, threshold);
      trees' := [t] + swept;
    }
  }

  lemma {:induction false} PassTrees(trees: seq<Tree>, list: seq<BoundingBox>, boxes: seq<BoundingBox>,
                                     threshold: real)
    returns (trees': seq<Tree>)
    requires AllBuild(trees, list, boxes, threshold) && InOrder(trees)
    ensures AllBuild(trees', Merged(list, threshold), boxes, threshold) && InOrder(trees')
    ensures AllLeaves(trees') == AllLeaves(trees)
    decreases |list|
  {
    hide Sweep, AllBuild, InOrder, AllLeaves;
    var next := Sweep(list, threshold);
    trees' := trees;
    if |next| < |list| {
      trees' := SweepTrees(trees, list, boxes, threshold);
      trees' := PassTrees(trees', next, boxes, threshold);
    }
  }

  /** Every position below n, once. */
  ghost function Positions(n: nat): multiset<nat> { if n == 0 then multiset{} else Positions(n - 1) + multiset{n - 1} }

  lemma {:induction false} Singles(boxes: seq<BoundingBox>, threshold: real, n: nat) returns (trees: seq<Tree>)
    requires n <= |boxes|
    ensures AllBuild(trees, boxes[..n], boxes, threshold) && InOrder(trees)
    ensures forall k :: 0 <= k < n ==> First(trees[k]) == k
    ensures AllLeaves(trees) == Positions(n)
  {
    hide BoundingBox.Overlaps, BoundingBox.United, AllLeaves, InOrder;
    NoTrees();
    trees := [];
    if n > 0 {
      var fewer := Singles(boxes, threshold, n - 1);
      LastLeaf(fewer, Leaf(n - 1));
      LastInOrder(fewer, Leaf(n - 1));
      trees := fewer + [Leaf(n - 1)];
    }
  }

  lemma NoTrees()
    ensures AllLeaves([]) == multiset{} && InOrder([])
  {
  }

  lemma LastInOrder(trees: seq<Tree>, t: Tree)
    requires InOrder(trees) && forall k :: 0 <= k < |trees| ==> First(trees[k]) < First(t)
    ensures InOrder(trees + [t])
  {
    hide First;
  }

  lemma {:induction false} LastLeaf(trees: seq<Tree>, t: Tree)
    ensures AllLeaves(trees + [t]) == AllLeaves(trees) + Leaves(t)
  {
    hide Leaves;
    if trees == [] {
      assert [] + [t] == [t] && [t][1..] == [];
    } else {
      assert (trees + [t])[1..] == trees[1..] + [t];
      LastLeaf(trees[1..], t);
    }
  }

  /** Each returned box is built from boxes of the list by uniting two at a time, and only two
      that overlap beyond the threshold; every box of the list is used exactly once; and the
      returned boxes are in the order of their earliest parts. */
  lemma MergedForest(boxes: seq<BoundingBox>, threshold: real) returns (trees: seq<Tree>)
    ensures |trees| == |Merged(boxes, threshold)|
    ensures forall k :: 0 <= k < |trees| ==> Builds(trees[k], Merged(boxes, threshold)[k], boxes, threshold)
    ensures forall i, j :: 0 <= i < j < |trees| ==> First(trees[i]) < First(trees[j])
    ensures AllLeaves(trees) == Positions(|boxes|)
  {
    hide Merged, Builds, AllLeaves, Positions, First;
    var singles := Singles(boxes, threshold, |boxes|);
    assert boxes[..|boxes|] == boxes;
    trees := PassTrees(singles, boxes, boxes, threshold);
  }
}
