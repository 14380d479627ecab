/** What a set of blocking rules means: a rule, given by its labels, blocks every name whose
    labels end with it.  The index only has to keep the minimal rules. */
module DomainRules {
  import opened DomainLabels

  type Name = seq<Label>

  /** `tail` is a label-wise suffix of `name`. */
  predicate IsSuffix(tail: Name, name: Name) {
    |tail| <= |name| && name[|name| - |tail|..] == tail
  }

  ghost predicate Blocked(rules: set<Name>, name: Name) {
    exists r :: r in rules && IsSuffix(r, name)
  }

  /** The rules with no other rule as a suffix. */
  ghost function Minimal(rules: set<Name>): set<Name> {
    set r | r in rules && IsMinimal(rules, r)
  }

  ghost predicate IsMinimal(rules: set<Name>, r: Name) {
    forall q :: q in rules && IsSuffix(q, r) ==> q == r
  }

  lemma SuffixTransitive(a: Name, b: Name, c: Name)
    requires IsSuffix(a, b) && IsSuffix(b, c)
    ensures IsSuffix(a, c)
  {
    assert c[|c| - |a|..] == c[|c| - |b|..][|b| - |a|..];
  }

  /** Two suffixes of one name: the shorter is a suffix of the longer. */
  lemma SuffixesNest(a: Name, b: Name, name: Name)
    requires IsSuffix(a, name) && IsSuffix(b, name) && |a| <= |b|
    ensures IsSuffix(a, b)
  {
    assert name[|name| - |b|..][|b| - |a|..] == name[|name| - |a|..];
  }

  lemma SuffixSlice(name: Name, j: nat)
    requires j <= |name|
    ensures IsSuffix(name[j..], name)
  {
  }

  /** Below every rule there is a minimal one. */
  lemma {:induction false} MinimalBelow(rules: set<Name>, r: Name) returns (m: Name)
    requires r in rules
    ensures m in Minimal(rules) && IsSuffix(m, r)
    decreases |r|
  {
    if IsMinimal(rules, r) {
      m := r;
    } else {
      var q :| q in rules && IsSuffix(q, r) && q != r;
      if |q| == |r| { SuffixEqualLength(q, r); }
      m := MinimalBelow(rules, q);
      SuffixTransitive(m, q, r);
    }
  }

  /** The minimal rules block the same names as all the rules. */
  lemma MinimalBlocks(rules: set<Name>, name: Name)
    ensures Blocked(Minimal(rules), name) <==> Blocked(rules, name)
  {
    if r :| r in rules && IsSuffix(r, name) {
      var m := MinimalBelow(rules, r);
      SuffixTransitive(m, r, name);
    }
  }

  lemma SuffixEqualLength(a: Name, b: Name)
    requires IsSuffix(a, b) && |a| == |b|
    ensures a == b
  {
    assert b[0..] == b;
  }

  lemma StaysMinimal(rules: set<Name>, r: Name, m: Name)
    requires m in Minimal(rules) && (IsSuffix(r, m) ==> r == m)
    ensures m in Minimal(rules + {r})
  {
    assert IsMinimal(rules, m);
    forall q | q in rules + {r} && IsSuffix(q, m) ensures q == m { }
  }

  lemma WasMinimal(rules: set<Name>, r: Name, m: Name)
    requires m in Minimal(rules + {r}) && m in rules
    ensures m in Minimal(rules)
  {
    forall q | q in rules && IsSuffix(q, m) ensures q == m { assert q in rules + {r}; }
  }

  /** Adding a rule that is blocked already changes no minimal rule. */
  lemma MinimalRedundant(rules: set<Name>, r: Name)
    requires Blocked(rules, r)
    ensures Minimal(rules + {r}) == Minimal(rules)
  {
    var q :| q in rules && IsSuffix(q, r);
    forall m | m in Minimal(rules) ensures m in Minimal(rules + {r}) {
      if IsSuffix(r, m) {
        SuffixTransitive(q, r, m);
        SuffixEqualLength(r, m);
      }
      StaysMinimal(rules, r, m);
    }
    forall m | m in Minimal(rules + {r}) ensures m in Minimal(rules) {
      assert q in rules + {r};
      WasMinimal(rules, r, m);
    }
  }

  /** Adding a rule that is not blocked makes it minimal and drops the rules it covers. */
  lemma MinimalBroader(rules: set<Name>, r: Name)
    requires !Blocked(rules, r)
    ensures Minimal(rules + {r}) == (set m | m in Minimal(rules) && !IsSuffix(r, m)) + {r}
  {
    forall m | m in Minimal(rules) && !IsSuffix(r, m) ensures m in Minimal(rules + {r}) {
      StaysMinimal(rules, r, m);
    }
    assert r in Minimal(rules + {r}) by {
      forall q | q in rules + {r} && IsSuffix(q, r) ensures q == r { }
    }
    forall m | m in Minimal(rules + {r}) && m != r ensures m in Minimal(rules) && !IsSuffix(r, m) {
      assert r in rules + {r};
      WasMinimal(rules, r, m);
    }
  }

  // ---------- The rule counter ----------

  function SetOf(names: seq<Name>): set<Name> { set n | n in names }

  /** By how much a run of insertions raises the counter: by one for every rule that is not
      blocked when it comes. */
  ghost function Increments(rules: set<Name>, names: seq<Name>): nat
    decreases |names|
  {
    if names == [] then 0
    else (if Blocked(rules, names[0]) then 0 else 1) + Increments(rules + {names[0]}, names[1..])
  }

  /** Insertion i makes narrower rules that came before it redundant. */
  ghost predicate Broadens(rules: set<Name>, names: seq<Name>, i: nat)
    requires i < |names|
  {
    var before := rules + SetOf(names[..i]);
    !Blocked(before, names[i]) && Covering(before, names[i]) != {}
  }

  ghost function Covering(rules: set<Name>, r: Name): set<Name> { set m | m in Minimal(rules) && IsSuffix(r, m) }

  /** Over any run the counter grows by at least as much as the number of minimal rules, and by
      just as much exactly when no rule of the run is broader than one that came before it:
      clearing a subtree uncounts nothing. */
  lemma {:induction false} CountExact(rules: set<Name>, names: seq<Name>)
    requires [] !in names
    ensures |Minimal(rules + SetOf(names))| <= |Minimal(rules)| + Increments(rules, names)
    ensures |Minimal(rules + SetOf(names))| == |Minimal(rules)| + Increments(rules, names)
       <==> forall i: nat :: i < |names| ==> !Broadens(rules, names, i)
    decreases |names|
  {
    hide Blocked, Minimal, Broadens, Covering;
    if names == [] {
      assert rules + SetOf(names) == rules;
    } else {
      var r, rest := names[0], names[1..];
      CountExact(rules + {r}, rest);
      assert rules + SetOf(names) == rules + {r} + SetOf(rest);
      BroadensFirst(rules, names);
      forall i: nat | i < |rest| ensures Broadens(rules + {r}, rest, i) <==> Broadens(rules, names, i + 1) {
        BroadensLater(rules, names, i);
      }
      NoneBroadens(rules, names);
      if Blocked(rules, r) { MinimalRedundant(rules, r); } else { BroaderSize(rules, r); }
    }
  }

  lemma NoneBroadens(rules: set<Name>, names: seq<Name>)
    requires names != []
    requires forall i: nat :: i < |names| - 1 ==>
               (Broadens(rules + {names[0]}, names[1..], i) <==> Broadens(rules, names, i + 1))
    ensures (forall i: nat :: i < |names| ==> !Broadens(rules, names, i)) <==>
            !Broadens(rules, names, 0) &&
            forall i: nat :: i < |names| - 1 ==> !Broadens(rules + {names[0]}, names[1..], i)
  {
    hide Broadens;
    var rest := names[1..];
    if !Broadens(rules, names, 0) && forall i: nat :: i < |rest| ==> !Broadens(rules + {names[0]}, rest, i) {
      forall i: nat | i < |names| ensures !Broadens(rules, names, i) {
        if i > 0 { assert !Broadens(rules + {names[0]}, rest, i - 1); }
      }
    }
  }

  lemma BroadensFirst(rules: set<Name>, names: seq<Name>)
    requires names != []
    ensures Broadens(rules, names, 0) <==> !Blocked(rules, names[0]) && Covering(rules, names[0]) != {}
  {
    assert rules + SetOf(names[..0]) == rules;
  }

  lemma BroadensLater(rules: set<Name>, names: seq<Name>, i: nat)
    requires i + 1 < |names|
    ensures Broadens(rules + {names[0]}, names[1..], i) <==> Broadens(rules, names, i + 1)
  {
    assert names[..i + 1] == [names[0]] + names[1..][..i];
    assert rules + SetOf(names[..i + 1]) == rules + {names[0]} + SetOf(names[1..][..i]);
  }

  /** One such run: a subdomain, then its parent, counts two rules and keeps one. */
  lemma CountTooHigh(sub: Label, parent: Label)
    ensures var names := [[sub, parent], [parent]];
            Increments({}, names) == 2 && Minimal(SetOf(names)) == {[parent]}
  {
    var narrow: Name, broad: Name := [sub, parent], [parent];
    var names := [narrow, broad];
    var rest := names[1..];
    assert rest == [broad] && rest[1..] == [] && {} + {narrow} == {narrow};
    assert !Blocked({}, narrow) && !Blocked({narrow}, broad);
    assert Increments({narrow}, [broad]) == 1;
    assert narrow[1..] == broad && IsSuffix(broad, narrow);
    assert SetOf(names) == {narrow, broad};
    assert IsMinimal({narrow, broad}, broad) && !IsMinimal({narrow, broad}, narrow);
  }

  lemma BroaderSize(rules: set<Name>, r: Name)
    requires !Blocked(rules, r) && r != []
    ensures |Minimal(rules + {r})| == |Minimal(rules)| - |Covering(rules, r)| + 1
  {
    MinimalBroader(rules, r);
    SuffixSlice(r, 0);
    assert r[0..] == r;
    var kept := Minimal(rules) - Covering(rules, r);
    assert Minimal(rules + {r}) == kept + {r};
    assert r !in kept;
    assert Covering(rules, r) <= Minimal(rules);
    assert Minimal(rules) == kept + Covering(rules, r);
  }
}
