/** `DomainRadixTree`: the domain index, a tree of heap nodes that is walked from the top-level
    label down.  A node is identified by the label suffix that leads to it. */
module DomainTree {
  import opened Bytes
  import opened Blocklist
  import opened DomainLabels
  import opened DomainRules

  class Node {
    var isTerminal: bool
    var children: map<Label, Node>

    constructor ()
      ensures !isTerminal && children == map[]
    {
      isTerminal, children := false, map[];
    }
  }

  /** The names of the nodes that a set of rules needs: the suffixes of its minimal rules. */
  ghost predicate NeedsNode(minimal: set<Name>, key: Name) {
    key == [] || exists m :: m in minimal && IsSuffix(key, m)
  }

  /** `k` is strictly longer than `key` and ends with it. */
  predicate Below(key: Name, k: Name) { IsSuffix(key, k) && k != key }

  lemma BelowCons(key: Name, l: Label, k: Name)
    ensures Below(key, [l] + k) <==> k == key || Below(key, k)
  {
    var name := [l] + k;
    assert name[1..] == k;
    if IsSuffix(key, k) { SuffixSlice(name, 1); SuffixTransitive(key, k, name); }
    if Below(key, name) {
      if |key| == |name| { SuffixEqualLength(key, name); }
      SuffixesNest(key, k, name);
    }
    assert k[0..] == k;
  }

  lemma SuffixOfCons(k: Name, l: Label, key: Name)
    ensures IsSuffix(k, [l] + key) <==> k == [l] + key || IsSuffix(k, key)
  {
    var name := [l] + key;
    assert name[1..] == key && name[0..] == name;
    SuffixSlice(name, 1);
    if IsSuffix(k, key) { SuffixTransitive(k, key, name); }
    if IsSuffix(k, name) {
      if |k| == |name| { SuffixEqualLength(k, name); } else { SuffixesNest(k, key, name); }
    }
  }

  lemma NothingBelow(key: Name)
    ensures !Below(key, [])
  {
  }

  /** The nodes needed once a broader rule has come in. */
  lemma NeedsAfterBroader(rules: set<Name>, r: Name, k: Name)
    requires !Blocked(rules, r) && r != []
    ensures NeedsNode(Minimal(rules + {r}), k)
       <==> (NeedsNode(Minimal(rules), k) || IsSuffix(k, r)) && !Below(r, k)
  {
    MinimalBroader(rules, r);
    var after := Minimal(rules + {r});
    assert r in after;
    if NeedsNode(after, k) && k != [] {
      var m :| m in after && IsSuffix(k, m);
      if IsSuffix(r, k) {
        SuffixTransitive(r, k, m);
        if m == r { SuffixEqualLength(r, k); }
      }
    }
    if NeedsNode(Minimal(rules), k) && k != [] && !Below(r, k) {
      var m :| m in Minimal(rules) && IsSuffix(k, m);
      if IsSuffix(r, m) {
        if |k| <= |r| { SuffixesNest(k, r, m); } else { SuffixesNest(r, k, m); }
      }
    }
  }

  /** A blocked name has a non-empty suffix that is a minimal rule. */
  lemma BlockedSuffix(rules: set<Name>, name: Name) returns (j: nat)
    requires [] !in rules && Blocked(rules, name)
    ensures j < |name| && name[j..] in Minimal(rules)
  {
    MinimalBlocks(rules, name);
    var m :| m in Minimal(rules) && IsSuffix(m, name);
    j := |name| - |m|;
  }

  /** The node of `k` hangs under the node of the name one label shorter. */
  ghost predicate LinkedUp(nodes: map<Name, Node>, kids: map<Name, map<Label, Node>>, k: Name) {
    k in nodes && (k == [] ||
      (k[1..] in nodes && k[1..] in kids && k[0] in kids[k[1..]] && kids[k[1..]][k[0]] == nodes[k]))
  }

  /** Every child of the node of `k` has its name. */
  ghost predicate LinkedDown(nodes: map<Name, Node>, kids: map<Name, map<Label, Node>>, k: Name) {
    k in kids && forall l :: l in kids[k] ==> [l] + k in nodes
  }

  /** The nodes form a tree: the children of a node are exactly the names one label longer. */
  ghost predicate TreeShape(root: Node, nodes: map<Name, Node>, kids: map<Name, map<Label, Node>>) {
    && kids.Keys == nodes.Keys
    && [] in nodes && nodes[[]] == root
    && (forall k {:trigger LinkedUp(nodes, kids, k)} :: k in nodes ==> LinkedUp(nodes, kids, k))
    && (forall k {:trigger LinkedDown(nodes, kids, k)} :: k in nodes ==> LinkedDown(nodes, kids, k))
    && (forall k, k' :: k in nodes && k' in nodes && nodes[k] == nodes[k'] ==> k == k')
  }

  /** Children and longer names are the same thing. */
  lemma ChildName(root: Node, nodes: map<Name, Node>, kids: map<Name, map<Label, Node>>, key: Name, l: Label, c: Name)
    requires TreeShape(root, nodes, kids) && key in nodes && c == [l] + key
    ensures l in kids[key] <==> c in nodes
    ensures l in kids[key] ==> kids[key][l] == nodes[c]
  {
    assert c[1..] == key && c[0] == l;
    assert LinkedDown(nodes, kids, key);
    assert c in nodes ==> LinkedUp(nodes, kids, c);
  }

  lemma FreshShape(root: Node)
    ensures TreeShape(root, map[[] := root], map[[] := map[]])
    ensures Faithful({}, {[]}, {}, 0)
  {
    assert Minimal({}) == {};
  }

  lemma OnlyAt(root: Node, nodes: map<Name, Node>, kids: map<Name, map<Label, Node>>, key: Name)
    requires TreeShape(root, nodes, kids) && key in nodes
    ensures forall k :: k in nodes && k != key ==> nodes[k] != nodes[key]
  {
  }

  lemma RootAt(root: Node, nodes: map<Name, Node>, kids: map<Name, map<Label, Node>>)
    requires TreeShape(root, nodes, kids)
    ensures [] in nodes && nodes[[]] == root
  {
  }

  lemma ShapeWithChild(root: Node, nodes: map<Name, Node>, kids: map<Name, map<Label, Node>>, key: Name, l: Label,
                       c: Name, n: Node)
    requires TreeShape(root, nodes, kids) && key in nodes && l !in kids[key] && c == [l] + key
    requires forall k :: k in nodes ==> nodes[k] != n
    ensures c !in nodes
    ensures TreeShape(root, nodes[c := n], kids[key := kids[key][l := n]][c := map[]])
  {
    assert c[1..] == key && c[0] == l;
    assert c in nodes ==> LinkedUp(nodes, kids, c);
    var kids' := kids[key := kids[key][l := n]][c := map[]];
    var nodes' := nodes[c := n];
    forall k | k in nodes' ensures LinkedUp(nodes', kids', k) {
      if k != c {
        assert LinkedUp(nodes, kids, k);
        if k != [] && k[1..] == key { assert k == [k[0]] + key; }
      }
    }
    forall k | k in nodes' ensures LinkedDown(nodes', kids', k) {
      if k != c { assert LinkedDown(nodes, kids, k); }
    }
  }

  lemma NothingBelowItself(key: Name)
    ensures !Below(key, key)
  {
  }

  /** The map without what is below the name. */
  ghost function Pruned<V>(m: map<Name, V>, key: Name): map<Name, V> {
    map k | k in m && !Below(key, k) :: m[k]
  }

  lemma PrunedParts<V>(m: map<Name, V>, key: Name)
    ensures Pruned(m, key).Keys == PrunedSet(m.Keys, key)
    ensures forall k :: k in Pruned(m, key) ==> k in m && Pruned(m, key)[k] == m[k]
  {
    hide Below;
  }

  ghost function PrunedSet(s: set<Name>, key: Name): set<Name> {
    set k | k in s && !Below(key, k)
  }

  lemma PrunedSetParts(s: set<Name>, key: Name)
    ensures PrunedSet(s, key) <= s && (key in s ==> key in PrunedSet(s, key))
    ensures forall k :: k in PrunedSet(s, key) <==> k in s && !Below(key, k)
  {
  }

  lemma ShapeWithoutBelow(root: Node, nodes: map<Name, Node>, kids: map<Name, map<Label, Node>>, key: Name)
    requires TreeShape(root, nodes, kids) && key in nodes
    ensures TreeShape(root, Pruned(nodes, key), Pruned(kids, key)[key := map[]])
  {
    hide Below;
    hide Pruned, PrunedSet;
    var nodes', kids' := Pruned(nodes, key), Pruned(kids, key)[key := map[]];
    PrunedParts(nodes, key);
    PrunedParts(kids, key);
    PrunedSetParts(nodes.Keys, key);
    assert !Below(key, key) by { NothingBelowItself(key); }
    NothingBelow(key);
    forall k | k in nodes' ensures LinkedDown(nodes', kids', k) {
      assert LinkedDown(nodes, kids, k);
      forall l | l in kids'[k] ensures [l] + k in nodes' { BelowCons(key, l, k); }
    }
    forall k | k in nodes' ensures LinkedUp(nodes', kids', k) {
      assert LinkedUp(nodes, kids, k);
      if k != [] {
        assert k == [k[0]] + k[1..];
        BelowCons(key, k[0], k[1..]);
      }
    }
  }

  /** The node names and terminal names are the ones the rules call for. */
  ghost predicate Faithful(rules: set<Name>, names: set<Name>, terminals: set<Name>, total: nat) {
    && [] !in rules
    && (forall k :: k in names <==> NeedsNode(Minimal(rules), k))
    && terminals == Minimal(rules)
    && |terminals| <= total
  }

  /** On the way down to `name`, at its suffix `key`: the tree of the rules plus the path so
      far, and no terminal node passed yet. */
  ghost predicate OnPath(rules: set<Name>, names: set<Name>, terminals: set<Name>, name: Name, key: Name) {
    && [] !in rules
    && (forall k :: k in names <==> NeedsNode(Minimal(rules), k) || IsSuffix(k, key))
    && terminals == Minimal(rules)
    && IsSuffix(key, name)
    && (forall j :: |name| - |key| < j <= |name| ==> name[j..] !in terminals)
  }

  lemma FaithfulParts(rules: set<Name>, names: set<Name>, terminals: set<Name>, total: nat)
    requires Faithful(rules, names, terminals, total)
    ensures |terminals| <= total
  {
  }

  lemma PathStart(rules: set<Name>, names: set<Name>, terminals: set<Name>, total: nat, name: Name)
    requires Faithful(rules, names, terminals, total)
    ensures OnPath(rules, names, terminals, name, name[|name|..]) && name[|name|..] == [] && [] !in terminals
  {
  }

  lemma PathStep(rules: set<Name>, names: set<Name>, terminals: set<Name>, name: Name, i: nat)
    requires 0 < i <= |name| && OnPath(rules, names, terminals, name, name[i..]) && name[i..] !in terminals
    ensures name[i - 1..] == [name[i - 1]] + name[i..]
    ensures OnPath(rules, names + {name[i - 1..]}, terminals, name, name[i - 1..])
    ensures name[i - 1..] !in names ==> name[i - 1..] !in terminals
  {
    hide Minimal;
    var key, l := name[i..], name[i - 1];
    assert name[i - 1..] == [l] + key;
    SuffixSlice(name, i - 1);
    var names' := names + {[l] + key};
    forall k ensures k in names' <==> NeedsNode(Minimal(rules), k) || IsSuffix(k, [l] + key) {
      SuffixOfCons(k, l, key);
    }
  }

  /** A terminal node on the way down: a broader (or the same) rule is there already. */
  lemma PathBlocked(rules: set<Name>, names: set<Name>, terminals: set<Name>, total: nat, name: Name, key: Name)
    requires OnPath(rules, names, terminals, name, key) && key in terminals && |terminals| <= total && name != []
    ensures Blocked(rules, name)
    ensures Faithful(rules, names, terminals, total) && Faithful(rules + {name}, names, terminals, total)
  {
    assert key in Minimal(rules);
    MinimalRedundant(rules, name);
  }

  lemma PathUnblocked(rules: set<Name>, names: set<Name>, terminals: set<Name>, name: Name)
    requires OnPath(rules, names, terminals, name, name) && name !in terminals
    ensures !Blocked(rules, name)
  {
    if Blocked(rules, name) {
      var j := BlockedSuffix(rules, name);
      WholeSlice(name);
    }
  }

  lemma WholeSlice(name: Name)
    ensures name[0..] == name
  {
  }

  lemma SetBelow(terminals: set<Name>, name: Name)
    ensures PrunedSet(terminals, name) + {name} == (set k | k in terminals && !IsSuffix(name, k)) + {name}
  {
    hide IsSuffix;
  }

  lemma PathNewName(rules: set<Name>, name: Name)
    requires [] !in rules && name != []
    ensures [] !in rules + {name}
  {
  }

  /** No terminal node on the way down, the last one included: the rule is new. */
  lemma PathNew(rules: set<Name>, names: set<Name>, terminals: set<Name>, total: nat, name: Name)
    requires OnPath(rules, names, terminals, name, name) && name !in terminals && |terminals| <= total && name != []
    ensures Faithful(rules + {name}, PrunedSet(names, name), PrunedSet(terminals, name) + {name}, total + 1)
  {
    hide Below, IsSuffix, Minimal, NeedsNode, Blocked, PrunedSet;
    PathUnblocked(rules, names, terminals, name);
    NewMinimal(rules, terminals, name);
    PathNewName(rules, name);
    PrunedSetParts(names, name);
    PrunedSetParts(terminals, name);
    forall k ensures k in PrunedSet(names, name) <==> NeedsNode(Minimal(rules + {name}), k) {
      NeedsAfterBroader(rules, name, k);
    }
    Cardinality(PrunedSet(terminals, name), terminals);
  }

  lemma NewMinimal(rules: set<Name>, terminals: set<Name>, name: Name)
    requires terminals == Minimal(rules) && !Blocked(rules, name)
    ensures PrunedSet(terminals, name) + {name} == Minimal(rules + {name})
  {
    MinimalBroader(rules, name);
    SetBelow(terminals, name);
  }

  lemma NeededBelow(minimal: set<Name>, name: Name, j: nat, i: nat)
    requires j <= i <= |name| && name[j..] in minimal
    ensures NeedsNode(minimal, name[i..])
  {
    SuffixSlice(name, j);
    SuffixSlice(name, i);
    SuffixesNest(name[i..], name[j..], name);
  }

  /** The path breaks off before any terminal node: no rule is a suffix. */
  lemma PathBroken(rules: set<Name>, names: set<Name>, terminals: set<Name>, total: nat, name: Name, i: nat)
    requires 0 < i <= |name| && Faithful(rules, names, terminals, total)
    requires OnPath(rules, names, terminals, name, name[i..]) && name[i - 1..] !in names && name[i..] !in terminals
    ensures !Blocked(rules, name)
  {
    hide IsSuffix, NeedsNode, Minimal, Blocked;
    if Blocked(rules, name) {
      var j := BlockedSuffix(rules, name);
      if j < i { NeededBelow(Minimal(rules), name, j, i - 1); }
    }
  }

  lemma Cardinality(a: set<Name>, b: set<Name>)
    requires a <= b
    ensures |a| <= |b|
  {
    if a != {} {
      var x :| x in a;
      Cardinality(a - {x}, b - {x});
    }
  }

  // ---------- Node objects and their ghost view ----------

  ghost predicate KidsHeld(nodes: map<Name, Node>, kids: map<Name, map<Label, Node>>)
    reads nodes.Values`children
  {
    nodes.Keys <= kids.Keys && forall k {:trigger nodes[k]} :: k in nodes ==> nodes[k].children == kids[k]
  }

  ghost predicate EndsMarked(nodes: map<Name, Node>, terminals: set<Name>)
    reads nodes.Values`isTerminal
  {
    forall k {:trigger nodes[k]} :: k in nodes ==> (nodes[k].isTerminal <==> k in terminals)
  }

  /** The nodes but one: what holds of these survives a change of that one. */
  lemma Others(nodes: map<Name, Node>, kids: map<Name, map<Label, Node>>, terminals: set<Name>, key: Name)
    requires key in nodes && KidsHeld(nodes, kids) && EndsMarked(nodes, terminals)
    requires forall k :: k in nodes && k != key ==> nodes[k] != nodes[key]
    ensures KidsHeld(nodes - {key}, kids) && EndsMarked(nodes - {key}, terminals)
    ensures nodes[key] !in (nodes - {key}).Values
  {
  }

  lemma ChildHeld(nodes: map<Name, Node>, kids: map<Name, map<Label, Node>>, key: Name, longer: Name, l: Label, n: Node)
    requires key in nodes && longer !in nodes && kids.Keys == nodes.Keys
    requires KidsHeld(nodes - {key}, kids) && nodes[key].children == kids[key][l := n] && n.children == map[]
    ensures KidsHeld(nodes[longer := n], kids[key := kids[key][l := n]][longer := map[]])
  {
    forall k | k in nodes && k != key ensures nodes[k].children == kids[k] { assert (nodes - {key})[k] == nodes[k]; }
  }

  lemma HeldAt(nodes: map<Name, Node>, kids: map<Name, map<Label, Node>>, key: Name)
    requires KidsHeld(nodes, kids) && key in nodes
    ensures key in kids && nodes[key].children == kids[key]
  {
  }

  lemma LeafMarked(nodes: map<Name, Node>, terminals: set<Name>, longer: Name, n: Node)
    requires EndsMarked(nodes, terminals) && longer !in nodes && terminals <= nodes.Keys && !n.isTerminal
    ensures EndsMarked(nodes[longer := n], terminals)
  {
  }

  lemma PrunedView(nodes: map<Name, Node>, kids: map<Name, map<Label, Node>>, terminals: set<Name>, key: Name)
    requires kids.Keys == nodes.Keys && terminals <= nodes.Keys && key in nodes
    ensures Pruned(kids, key)[key := map[]].Keys == Pruned(nodes, key).Keys
    ensures PrunedSet(terminals, key) + {key} <= Pruned(nodes, key).Keys
  {
    hide Below, Pruned, PrunedSet;
    PrunedParts(nodes, key);
    PrunedParts(kids, key);
    PrunedSetParts(nodes.Keys, key);
    PrunedSetParts(terminals, key);
  }

  lemma TerminalHeld(nodes: map<Name, Node>, kids: map<Name, map<Label, Node>>, terminals: set<Name>, key: Name)
    requires key in nodes && kids.Keys == nodes.Keys
    requires KidsHeld(nodes - {key}, kids) && EndsMarked(nodes - {key}, terminals)
    requires nodes[key].children == map[] && nodes[key].isTerminal
    ensures KidsHeld(Pruned(nodes, key), Pruned(kids, key)[key := map[]])
    ensures EndsMarked(Pruned(nodes, key), PrunedSet(terminals, key) + {key})
  {
    hide Below, Pruned, PrunedSet;
    PrunedParts(nodes, key);
    PrunedParts(kids, key);
    PrunedSetParts(nodes.Keys, key);
    PrunedSetParts(terminals, key);
    var nodes', kids' := Pruned(nodes, key), Pruned(kids, key)[key := map[]];
    forall k | k in nodes'
      ensures nodes'[k].children == kids'[k] && (nodes'[k].isTerminal <==> k in PrunedSet(terminals, key) + {key})
    {
      if k != key { assert (nodes - {key})[k] == nodes'[k] && kids'[k] == kids[k]; }
    }
  }

  class DomainRadixTree {
    var root: Node
    var totalRules: nat
    /** Every node of the tree by its label suffix, and the rules inserted so far. */
    ghost var nodes: map<Name, Node>
    ghost var rules: set<Name>

    /** Their children and the names of the terminal ones. */
    ghost var kids: map<Name, map<Label, Node>>
    ghost var terminals: set<Name>

    /** The ghost view agrees with the node objects. */
    ghost predicate Reflects()
      reads this, nodes.Values
    {
      && kids.Keys == nodes.Keys && terminals <= nodes.Keys
      && KidsHeld(nodes, kids) && EndsMarked(nodes, terminals)
    }

    ghost predicate Shaped()
      reads this, nodes.Values
    {
      Reflects() && TreeShape(root, nodes, kids)
    }

    ghost predicate Valid()
      reads this, nodes.Values
    {
      Shaped() && Faithful(rules, nodes.Keys, terminals, totalRules)
    }

    constructor ()
      ensures Valid() && rules == {} && totalRules == 0 && fresh(nodes.Values)
    {
      root := new Node();
      totalRules := 0;
      new;
      nodes, kids, terminals, rules := map[[] := root], map[[] := map[]], {}, {};
      FreshShape(root);
    }

    method Clear()
      modifies this
      ensures Valid() && rules == {} && totalRules == 0 && fresh(nodes.Values)
    {
      root := new Node();
      totalRules := 0;
      nodes, kids, terminals, rules := map[[] := root], map[[] := map[]], {}, {};
      FreshShape(root);
    }

    method AddChild(ghost key: Name, ghost longer: Name, current: Node, l: Label)
      requires Shaped() && key in nodes && nodes[key] == current && longer == [l] + key && l !in current.children
      modifies this`nodes, this`kids, current`children
      ensures Shaped()
      ensures nodes.Keys == old(nodes.Keys) + {longer} && l in current.children && nodes[longer] == current.children[l]
      ensures forall k :: k in nodes ==> (k in old(nodes) && nodes[k] == old(nodes)[k]) || fresh(nodes[k])
    {
      hide TreeShape, KidsHeld, EndsMarked;
      ghost var nodes0, kids0 := nodes, kids;
      OnlyAt(root, nodes0, kids0, key);
      Others(nodes0, kids0, terminals, key);
      HeldAt(nodes0, kids0, key);
      var n := new Node();
      ShapeWithChild(root, nodes0, kids0, key, l, longer, n);
      current.children := current.children[l := n];
      nodes := nodes0[longer := n];
      kids := kids0[key := kids0[key][l := n]][longer := map[]];
      ChildHeld(nodes0, kids0, key, longer, l, n);
      LeafMarked(nodes0, terminals, longer, n);
      assert kids.Keys == nodes.Keys;
      assert terminals <= nodes.Keys;
      assert KidsHeld(nodes, kids);
      assert EndsMarked(nodes, terminals);
      assert TreeShape(root, nodes, kids);
    }

    /** The child of `current` for a label, made when it is missing. */
    method EnsureChild(ghost key: Name, ghost longer: Name, current: Node, l: Label) returns (child: Node)
      requires Shaped() && key in nodes && nodes[key] == current && longer == [l] + key
      modifies this`nodes, this`kids, current`children
      ensures Shaped()
      ensures nodes.Keys == old(nodes.Keys) + {longer} && nodes[longer] == child
      ensures forall k :: k in nodes ==> (k in old(nodes) && nodes[k] == old(nodes)[k]) || fresh(nodes[k])
    {
      hide TreeShape;
      ChildName(root, nodes, kids, key, l, longer);
      if l !in current.children { AddChild(key, longer, current, l); }
      child := current.children[l];
    }

    /** `current` becomes a rule; everything below it goes. */
    method MarkTerminal(ghost key: Name, current: Node)
      requires Shaped() && key in nodes && nodes[key] == current
      modifies this`nodes, this`kids, this`terminals, current
      ensures Shaped()
      ensures nodes == Pruned(old(nodes), key)
      ensures terminals == PrunedSet(old(terminals), key) + {key}
    {
      hide TreeShape, Below, Pruned, PrunedSet, KidsHeld, EndsMarked;
      OnlyAt(root, nodes, kids, key);
      Others(nodes, kids, terminals, key);
      ghost var nodes0, kids0, terminals0 := nodes, kids, terminals;
      ShapeWithoutBelow(root, nodes0, kids0, key);
      PrunedView(nodes0, kids0, terminals0, key);
      current.isTerminal, current.children := true, map[];
      TerminalHeld(nodes0, kids0, terminals0, key);
      nodes, kids, terminals := Pruned(nodes0, key), Pruned(kids0, key)[key := map[]],
                                PrunedSet(terminals0, key) + {key};
      assert kids.Keys == nodes.Keys && terminals <= nodes.Keys;
      assert KidsHeld(nodes, kids);
      assert EndsMarked(nodes, terminals);
      assert TreeShape(root, nodes, kids);
    }

    /** `node` is reached after walking the labels of `name` from the last down to index i. */
    ghost predicate Cursor(name: Name, i: nat, node: Node)
      reads this, nodes.Values
    {
      && i <= |name| && Shaped() && |terminals| <= totalRules
      && name[i..] in nodes && nodes[name[i..]] == node
      && OnPath(rules, nodes.Keys, terminals, name, name[i..])
    }

    lemma CursorStart(name: Name)
      requires Valid()
      ensures Cursor(name, |name|, root) && !root.isTerminal
    {
      hide TreeShape, OnPath, Faithful;
      FaithfulParts(rules, nodes.Keys, terminals, totalRules);
      PathStart(rules, nodes.Keys, terminals, totalRules, name);
      RootAt(root, nodes, kids);
    }

    lemma CursorNode(name: Name, i: nat, node: Node)
      requires Cursor(name, i, node)
      ensures i <= |name| && name[i..] in nodes && nodes[name[i..]] == node
    {
    }

    lemma CursorTerminal(name: Name, i: nat, node: Node)
      requires Cursor(name, i, node) && node.isTerminal && name != []
      ensures Blocked(rules, name) && Shaped() && Faithful(rules + {name}, nodes.Keys, terminals, totalRules)
    {
      hide TreeShape, OnPath, Faithful, Blocked;
      PathBlocked(rules, nodes.Keys, terminals, totalRules, name, name[i..]);
    }

    lemma CursorEnd(name: Name, node: Node)
      requires Cursor(name, 0, node) && !node.isTerminal
      ensures !Blocked(rules, name)
      ensures Shaped() && name in nodes && nodes[name] == node && name !in terminals && |terminals| <= totalRules
      ensures OnPath(rules, nodes.Keys, terminals, name, name)
    {
      hide TreeShape, OnPath, Blocked;
      WholeSlice(name);
      PathUnblocked(rules, nodes.Keys, terminals, name);
    }

    lemma CursorChild(name: Name, i: nat, node: Node)
      requires Valid() && i > 0 && Cursor(name, i, node) && !node.isTerminal
      ensures name[i - 1] in node.children ==> Cursor(name, i - 1, node.children[name[i - 1]])
      ensures name[i - 1] !in node.children ==> !Blocked(rules, name)
    {
      hide TreeShape, OnPath, Faithful, Blocked;
      PathStep(rules, nodes.Keys, terminals, name, i);
      ChildName(root, nodes, kids, name[i..], name[i - 1], name[i - 1..]);
      if name[i - 1] in node.children {
        assert nodes.Keys + {name[i - 1..]} == nodes.Keys;
      } else {
        PathBroken(rules, nodes.Keys, terminals, totalRules, name, i);
      }
    }

    method StepDown(name: Name, i: nat, current: Node) returns (child: Node)
      requires i > 0 && Cursor(name, i, current) && !current.isTerminal
      modifies this`nodes, this`kids, current`children
      ensures Cursor(name, i - 1, child)
      ensures forall k :: k in nodes ==> (k in old(nodes) && nodes[k] == old(nodes)[k]) || fresh(nodes[k])
    {
      hide TreeShape, OnPath;
      PathStep(rules, nodes.Keys, terminals, name, i);
      child := EnsureChild(name[i..], name[i - 1..], current, name[i - 1]);
    }

    /** Walks down as far as there is no terminal node, adding nodes where the path ends. */
    method WalkDown(name: Name) returns (current: Node, i: nat)
      requires Valid()
      modifies this`nodes, this`kids, nodes.Values
      ensures Cursor(name, i, current) && (i == 0 || current.isTerminal)
      ensures forall k :: k in nodes ==> (k in old(nodes) && nodes[k] == old(nodes)[k]) || fresh(nodes[k])
    {
      CursorStart(name);
      hide Faithful, TreeShape, OnPath, Cursor, Reflects;
      current, i := root, |name|;
      while i > 0 && !current.isTerminal
        invariant Cursor(name, i, current)
        invariant forall k :: k in nodes ==> (k in old(nodes) && nodes[k] == old(nodes)[k]) || fresh(nodes[k])
      {
        CursorNode(name, i, current);
        current := StepDown(name, i, current);
        i := i - 1;
      }
    }

    method AddRule(labels: Name, current: Node)
      requires Cursor(labels, 0, current) && !current.isTerminal && labels != []
      modifies this, current
      ensures Valid() && rules == old(rules) + {labels} && totalRules == old(totalRules) + 1
      ensures !Blocked(old(rules), labels)
      ensures forall k :: k in nodes ==> k in old(nodes) && nodes[k] == old(nodes)[k]
    {
      hide Faithful, TreeShape, OnPath, Blocked, Cursor, Below, PrunedSet, Pruned, KidsHeld, EndsMarked;
      CursorEnd(labels, current);
      PathNew(rules, nodes.Keys, terminals, totalRules, labels);
      PrunedParts(nodes, labels);
      MarkTerminal(labels, current);
      rules := rules + {labels};
      totalRules := totalRules + 1;
    }

    method InsertLabels(labels: Name)
      requires Valid() && labels != []
      modifies this, nodes.Values
      ensures Valid()
      ensures rules == old(rules) + {labels}
      ensures totalRules == old(totalRules) + if Blocked(old(rules), labels) then 0 else 1
      ensures forall k :: k in nodes ==> (k in old(nodes) && nodes[k] == old(nodes)[k]) || fresh(nodes[k])
    {
      hide Faithful, TreeShape, OnPath, Blocked, Cursor, KidsHeld, EndsMarked;
      var current, i := WalkDown(labels);
      CursorNode(labels, i, current);
      if current.isTerminal {
        CursorTerminal(labels, i, current);
        rules := rules + {labels};
      } else {
        AddRule(labels, current);
      }
    }

    method Insert(domain: seq<byte>)
      requires Valid()
      modifies this, nodes.Values
      ensures Valid()
      ensures rules == old(rules) + NamesOf(domain)
      ensures totalRules == old(totalRules)
                          + if Labels(domain) == [] || Blocked(old(rules), Labels(domain)) then 0 else 1
      ensures forall k :: k in nodes ==> (k in old(nodes) && nodes[k] == old(nodes)[k]) || fresh(nodes[k])
    {
      hide Faithful, TreeShape, OnPath, Blocked, Labels;
      var labels := SplitDomainLabels(domain);
      if labels == [] { return; }
      InsertLabels(labels);
    }

    /** A whole run of insertions, into an index in any state. */
    method InsertAll(domains: seq<seq<byte>>)
      requires Valid()
      modifies this, nodes.Values
      ensures Valid() && rules == old(rules) + RuleNames(domains)
      ensures totalRules == old(totalRules) + Increments(old(rules), LabelNames(domains))
    {
      hide DomainRadixTree.Valid, Labels, Blocked, RuleNames, LabelNames, NamesOf, Increments;
      assert domains[0..] == domains;
      for i := 0 to |domains|
        invariant Valid() && rules + RuleNames(domains[i..]) == old(rules) + RuleNames(domains)
        invariant totalRules + Increments(rules, LabelNames(domains[i..]))
               == old(totalRules) + Increments(old(rules), LabelNames(domains))
        invariant forall k :: k in nodes ==> (k in old(nodes) && nodes[k] == old(nodes)[k]) || fresh(nodes[k])
      {
        assert domains[i..] == [domains[i]] + domains[i + 1..];
        NamesCons(rules, domains[i], domains[i + 1..]);
        Insert(domains[i]);
      }
      assert domains[|domains|..] == [];
      NoNames(rules);
    }

    method Matches(domain: seq<byte>) returns (found: bool)
      requires Valid()
      ensures found <==> Blocked(rules, Labels(domain))
    {
      hide Faithful, TreeShape, OnPath, Blocked, Labels, Cursor, Reflects;
      var labels := SplitDomainLabels(domain);
      if labels == [] {
        NothingBlocksRoot(rules, nodes.Keys, terminals, totalRules);
        return false;
      }
      var current, i: nat := root, |labels|;
      CursorStart(labels);
      while i > 0
        invariant 0 <= i <= |labels| && Cursor(labels, i, current) && !current.isTerminal
      {
        CursorChild(labels, i, current);
        if labels[i - 1] !in current.children { return false; }
        current := current.children[labels[i - 1]];
        i := i - 1;
        if current.isTerminal {
          CursorTerminal(labels, i, current);
          return true;
        }
      }
      CursorEnd(labels, current);
      found := current.isTerminal;
    }

    /** One line: comment and address stripped, what is left inserted. */
    method LoadLine(line: seq<byte>, count: nat) returns (newCount: nat)
      requires Valid()
      modifies this, nodes.Values
      ensures Valid()
      ensures Load(newCount, rules, totalRules) == Loaded(Load(count, old(rules), old(totalRules)), LineRule(line))
      ensures forall k :: k in nodes ==> (k in old(nodes) && nodes[k] == old(nodes)[k]) || fresh(nodes[k])
    {
      hide DomainRadixTree.Valid, NamesOf, Blocked, Labels, LineRule;
      newCount := count;
      var rule := LineRule(line);
      if rule.Some? {
        Insert(rule.value);
        newCount := count + 1;
      }
    }

    /** `load_from_file`: no content stands for a file that cannot be opened. */
    method LoadFromFile(file: Option<seq<byte>>) returns (count: nat)
      requires Valid()
      modifies this, nodes.Values
      ensures Valid()
      ensures file.None? ==> count == 0 && rules == old(rules) && totalRules == old(totalRules)
      ensures file.Some? ==> var texts := RuleTexts(Lines(file.value));
                             && count == |texts| && rules == old(rules) + RuleNames(texts)
                             && totalRules == old(totalRules) + Increments(old(rules), LabelNames(texts))
    {
      count := 0;
      if file.None? { return; }
      hide DomainRadixTree.Valid, FirstLine, AfterLine, Ahead, Loaded;
      hide Lines, RuleTexts, RuleNames, LabelNames, Increments;
      var content := file.value;
      while content != []
        invariant Valid()
        invariant Ahead(Load(count, rules, totalRules), content)
               == Ahead(Load(0, old(rules), old(totalRules)), file.value)
        invariant forall k :: k in nodes ==> (k in old(nodes) && nodes[k] == old(nodes)[k]) || fresh(nodes[k])
        decreases |content|
      {
        NextLine(Load(count, rules, totalRules), content);
        var line := FirstLine(content);
        content := AfterLine(content);
        count := LoadLine(line, count);
      }
      NoLines(Load(count, rules, totalRules));
      AheadIs(Load(0, old(rules), old(totalRules)), file.value);
    }

    /** Terminal nodes are the minimal rules; they are exactly the leaves (the bare root aside),
        and `totalRules` is at least their number. */
    lemma ShapeFacts()
      requires Valid()
      ensures forall k :: k in nodes ==> (nodes[k].isTerminal <==> k in Minimal(rules))
      ensures forall k :: k in nodes && k != [] ==> (nodes[k].isTerminal <==> nodes[k].children == map[])
      ensures !root.isTerminal && (root.children == map[] <==> rules == {})
      ensures |Minimal(rules)| <= totalRules
    {
      RootAt(root, nodes, kids);
      forall k | k in nodes && k != [] ensures nodes[k].isTerminal <==> nodes[k].children == map[] {
        if k in terminals { TerminalIsLeaf(k); } else { InnerHasChild(k); }
      }
      if rules != {} {
        var r :| r in rules;
        var m := MinimalBelow(rules, r);
        BareSuffix(m);
        InnerHasChild([]);
      }
      if root.children != map[] {
        var l :| l in kids[[]];
        ChildName(root, nodes, kids, [], l, [l] + []);
        NeededHasRule(rules, [l] + []);
      }
    }

    lemma TerminalIsLeaf(k: Name)
      requires Valid() && k in terminals
      ensures kids[k] == map[]
    {
      if l :| l in kids[k] {
        ChildName(root, nodes, kids, k, l, [l] + k);
        var m :| m in Minimal(rules) && IsSuffix([l] + k, m);
        SuffixOfCons(k, l, k);
        SuffixSlice(k, 0);
        WholeSlice(k);
        SuffixTransitive(k, [l] + k, m);
        MinimalBelowMinimal(rules, k, m);
      }
    }

    lemma InnerHasChild(k: Name)
      requires Valid() && k in nodes && k !in terminals && rules != {}
      ensures kids[k] != map[]
    {
      var longer := LongerNeeded(rules, k);
      ChildName(root, nodes, kids, k, longer[0], longer);
    }
  }

  lemma NeededHasRule(rules: set<Name>, k: Name)
    requires k != [] && NeedsNode(Minimal(rules), k)
    ensures rules != {}
  {
    var m :| m in Minimal(rules) && IsSuffix(k, m);
    assert m in rules;
  }

  lemma MinimalBelowMinimal(rules: set<Name>, k: Name, m: Name)
    requires k in Minimal(rules) && m in Minimal(rules) && IsSuffix(k, m)
    ensures k == m
  {
    assert IsMinimal(rules, m);
  }

  lemma LongerNeeded(rules: set<Name>, k: Name) returns (longer: Name)
    requires NeedsNode(Minimal(rules), k) && k !in Minimal(rules) && rules != {}
    ensures longer != [] && longer == [longer[0]] + k && NeedsNode(Minimal(rules), longer)
  {
    var m: Name;
    if k == [] {
      var r :| r in rules;
      m := MinimalBelow(rules, r);
      BareSuffix(m);
    } else {
      m :| m in Minimal(rules) && IsSuffix(k, m);
    }
    var i := |m| - |k|;
    if i == 0 { SuffixEqualLength(k, m); }
    longer := m[i - 1..];
    assert longer == [m[i - 1]] + k;
    SuffixSlice(m, i - 1);
  }

  /** The tree depends only on the set of rules, not on the order they came in. */
  lemma SameRulesSameShape(a: DomainRadixTree, b: DomainRadixTree)
    requires a.Valid() && b.Valid() && a.rules == b.rules
    ensures a.nodes.Keys == b.nodes.Keys
    ensures forall k :: k in a.nodes ==>
              a.nodes[k].isTerminal == b.nodes[k].isTerminal && a.nodes[k].children.Keys == b.nodes[k].children.Keys
  {
    assert forall k :: k in a.nodes <==> NeedsNode(Minimal(a.rules), k);
    forall k | k in a.nodes
      ensures a.nodes[k].isTerminal == b.nodes[k].isTerminal && a.nodes[k].children.Keys == b.nodes[k].children.Keys
    {
      forall l ensures l in a.kids[k] <==> l in b.kids[k] {
        ChildName(a.root, a.nodes, a.kids, k, l, [l] + k);
        ChildName(b.root, b.nodes, b.kids, k, l, [l] + k);
      }
    }
  }

  lemma BareSuffix(m: Name)
    ensures IsSuffix([], m)
  {
  }

  /** The rule a text stands for; a text without labels is none. */
  function NamesOf(text: seq<byte>): set<Name> { if Labels(text) == [] then {} else {Labels(text)} }

  /** The names that a list of domains inserts, in order. */
  function LabelNames(domains: seq<seq<byte>>): seq<Name> {
    if domains == [] then []
    else (if Labels(domains[0]) == [] then [] else [Labels(domains[0])]) + LabelNames(domains[1..])
  }

  function RuleNames(texts: seq<seq<byte>>): set<Name> { SetOf(LabelNames(texts)) }

  lemma NoNames(rules: set<Name>)
    ensures RuleNames([]) == {} && Increments(rules, LabelNames([])) == 0
  {
  }

  lemma NamesCons(rules: set<Name>, t: seq<byte>, texts: seq<seq<byte>>)
    ensures RuleNames([t] + texts) == NamesOf(t) + RuleNames(texts)
    ensures Increments(rules, LabelNames([t] + texts))
         == (if Labels(t) == [] || Blocked(rules, Labels(t)) then 0 else 1)
            + Increments(rules + NamesOf(t), LabelNames(texts))
  {
    hide Labels, Blocked;
    assert ([t] + texts)[1..] == texts;
    var l, rest := Labels(t), LabelNames(texts);
    if l == [] {
      assert LabelNames([t] + texts) == [] + rest == rest && rules + {} == rules;
    } else {
      assert LabelNames([t] + texts) == [l] + rest && ([l] + rest)[1..] == rest;
    }
  }

  lemma RuleTextsCons(line: seq<byte>, lines: seq<seq<byte>>)
    ensures LineRule(line).None? ==> RuleTexts([line] + lines) == RuleTexts(lines)
    ensures LineRule(line).Some? ==> RuleTexts([line] + lines) == [LineRule(line).value] + RuleTexts(lines)
  {
    hide LineRule;
    assert ([line] + lines)[1..] == lines;
    assert [] + RuleTexts(lines) == RuleTexts(lines);
  }

  /** Count, rules and rule counter of a load. */
  datatype Load = Load(count: nat, rules: set<Name>, total: nat)

  /** What a line makes of them. */
  ghost function Loaded(load: Load, rule: Option<seq<byte>>): Load {
    if rule.None? then load
    else
      var l := Labels(rule.value);
      Load(load.count + 1, load.rules + NamesOf(rule.value),
           load.total + if l == [] || Blocked(load.rules, l) then 0 else 1)
  }

  ghost function AfterTexts(load: Load, texts: seq<seq<byte>>): Load {
    Load(load.count + |texts|, load.rules + RuleNames(texts), load.total + Increments(load.rules, LabelNames(texts)))
  }

  /** What they will be once the rest of the file is loaded. */
  ghost function Ahead(load: Load, content: seq<byte>): Load { AfterTexts(load, RuleTexts(Lines(content))) }

  lemma AheadIs(load: Load, content: seq<byte>)
    ensures Ahead(load, content) == AfterTexts(load, RuleTexts(Lines(content)))
  {
    hide AfterTexts, RuleTexts, Lines;
  }

  lemma NoLines(load: Load)
    ensures Ahead(load, []) == load
  {
    assert RuleTexts(Lines([])) == [];
    hide RuleNames, LabelNames, Increments;
    NoNames(load.rules);
    assert load.rules + {} == load.rules;
  }

  lemma NextText(load: Load, t: seq<byte>, texts: seq<seq<byte>>)
    ensures AfterTexts(load, [t] + texts) == AfterTexts(Loaded(load, Some(t)), texts)
  {
    hide RuleNames, LabelNames, NamesOf, Blocked, Labels, Increments;
    NamesCons(load.rules, t, texts);
    assert load.rules + (NamesOf(t) + RuleNames(texts)) == load.rules + NamesOf(t) + RuleNames(texts);
  }

  lemma NextLine(load: Load, content: seq<byte>)
    requires content != []
    ensures |AfterLine(content)| < |content|
    ensures Ahead(load, content) == Ahead(Loaded(load, LineRule(FirstLine(content))), AfterLine(content))
  {
    TextsUnfold(content);
    hide LineRule, FirstLine, AfterLine, Lines, RuleTexts, AfterTexts, NamesOf, Blocked, Labels;
    var rule := LineRule(FirstLine(content));
    if rule.Some? { NextText(load, rule.value, RuleTexts(Lines(AfterLine(content)))); }
  }

  /** One line of the file. */
  lemma TextsUnfold(content: seq<byte>)
    requires content != []
    ensures |AfterLine(content)| < |content|
    ensures var rule, rest := LineRule(FirstLine(content)), RuleTexts(Lines(AfterLine(content)));
            RuleTexts(Lines(content)) == if rule.Some? then [rule.value] + rest else rest
  {
    hide LineRule, RuleTexts, Lines, FirstLine, AfterLine;
    LinesUnfold(content);
    RuleTextsCons(FirstLine(content), Lines(AfterLine(content)));
  }

  lemma NothingBlocksRoot(rules: set<Name>, names: set<Name>, terminals: set<Name>, total: nat)
    requires Faithful(rules, names, terminals, total)
    ensures !Blocked(rules, [])
  {
  }
}
