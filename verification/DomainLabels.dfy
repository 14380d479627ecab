/** Splitting a domain name into lower-case labels (`split_domain_labels`). */
module DomainLabels {
  import opened Bytes

  type Label = seq<byte>

  function TrimEnd(d: seq<byte>): seq<byte> {
    if d != [] && (d[|d| - 1] == DOT || IsSpace(d[|d| - 1])) then TrimEnd(d[..|d| - 1]) else d
  }

  function TrimStart(d: seq<byte>): seq<byte> {
    if d != [] && IsSpace(d[0]) then TrimStart(d[1..]) else d
  }

  /** The non-empty stretches between dots, in lower case. */
  function Split(d: seq<byte>): seq<Label>
    decreases |d|
  {
    if d == [] then []
    else
      var n := Find(d, DOT);
      (if n > 0 then [Lower(d[..n])] else []) + (if n < |d| then Split(d[n + 1..]) else [])
  }

  function Labels(domain: seq<byte>): seq<Label> { Split(TrimStart(TrimEnd(domain))) }

  method Trim(domain: seq<byte>) returns (d: seq<byte>)
    ensures d == TrimStart(TrimEnd(domain))
  {
    d := domain;
    while d != [] && (d[|d| - 1] == DOT || IsSpace(d[|d| - 1]))
      invariant TrimEnd(d) == TrimEnd(domain)
      decreases |d|
    {
      d := d[..|d| - 1];
    }
    while d != [] && IsSpace(d[0])
      invariant TrimStart(d) == TrimStart(TrimEnd(domain))
      decreases |d|
    {
      d := d[1..];
    }
  }

  method LowerCopy(d: seq<byte>, from: nat, to: nat) returns (piece: Label)
    requires from <= to <= |d|
    ensures piece == Lower(d[from..to])
  {
    piece := [];
    for j := from to to
      invariant piece == Lower(d[from..j])
    {
      assert d[from..j + 1] == d[from..j] + [d[j]];
      piece := piece + [ToLower(d[j])];
    }
  }

  lemma SplitStep(d: seq<byte>, start: nat, i: nat)
    requires start <= i <= |d| && (i < |d| ==> d[i] == DOT)
    requires forall k :: start <= k < i ==> d[k] != DOT
    ensures Split(d[start..]) == (if i > start then [Lower(d[start..i])] else [])
                               + (if i < |d| then Split(d[i + 1..]) else [])
  {
    hide Lower, Find, Split;
    var e, n := d[start..], i - start;
    FindIs(e, DOT, n);
    SplitAt(e, n);
    assert e[..n] == d[start..i];
    if i < |d| { assert e[n + 1..] == d[i + 1..]; }
  }

  lemma SplitAt(e: seq<byte>, n: nat)
    requires n == Find(e, DOT)
    ensures Split(e) == (if n > 0 then [Lower(e[..n])] else []) + (if n < |e| then Split(e[n + 1..]) else [])
  {
    hide Lower;
  }

  method SplitDomainLabels(domain: seq<byte>) returns (labels: seq<Label>)
    ensures labels == Labels(domain)
  {
    hide Split, TrimStart, TrimEnd, Lower;
    var d := Trim(domain);
    labels := [];
    var start, i := 0, 0;
    assert d[0..] == d;
    assert [] + Split(d) == Split(d);
    while i <= |d|
      invariant 0 <= start <= i <= |d| + 1
      invariant i == |d| + 1 ==> labels == Split(d)
      invariant i <= |d| ==> labels + Split(d[start..]) == Split(d)
      invariant forall k :: start <= k < i && k < |d| ==> d[k] != DOT
      decreases |d| + 1 - i
    {
      if i == |d| || d[i] == DOT {
        SplitStep(d, start, i);
        ghost var rest := if i < |d| then Split(d[i + 1..]) else [];
        if i > start {
          var piece := LowerCopy(d, start, i);
          assert labels + ([piece] + rest) == labels + [piece] + rest;
          labels := labels + [piece];
        } else {
          assert labels + ([] + rest) == labels + rest;
        }
        assert labels + [] == labels;
        start := i + 1;
      }
      i := i + 1;
    }
  }

  // ---------- What labels are ----------

  predicate HasNo(s: seq<byte>, c: byte) { forall k :: 0 <= k < |s| ==> s[k] != c }

  /** A label as it comes out of splitting. */
  predicate Proper(piece: Label) { piece != [] && HasNo(piece, DOT) && Lower(piece) == piece }

  lemma {:induction false} SplitProper(d: seq<byte>)
    ensures forall l :: l in Split(d) ==> Proper(l)
    decreases |d|
  {
    if d != [] {
      hide Find, Lower, Proper;
      var n := Find(d, DOT);
      FindBound(d, DOT);
      if n > 0 { LowerLabel(d[..n]); }
      if n < |d| { SplitProper(d[n + 1..]); }
    }
  }

  lemma LowerLabel(l: seq<byte>)
    requires l != [] && HasNo(l, DOT)
    ensures Proper(Lower(l))
  {
    LowerTwice(l);
  }

  /** Labels are non-empty, free of dots and in lower case. */
  lemma LabelsProper(domain: seq<byte>)
    ensures forall l :: l in Labels(domain) ==> Proper(l)
  {
    SplitProper(TrimStart(TrimEnd(domain)));
  }

  lemma {:induction false} FindLower(d: seq<byte>)
    ensures Find(Lower(d), DOT) == Find(d, DOT)
  {
    FindIs(Lower(d), DOT, Find(d, DOT));
  }

  lemma {:induction false} SplitLower(d: seq<byte>)
    ensures Split(Lower(d)) == Split(d)
    decreases |d|
  {
    hide Find, Lower;
    LowerParts(d, Find(d, DOT));
    if d != [] {
      var n := Find(d, DOT);
      FindBound(d, DOT);
      FindLower(d);
      LowerTwice(d[..n]);
      if n < |d| { SplitLower(d[n + 1..]); }
    }
  }

  lemma LowerParts(d: seq<byte>, n: nat)
    ensures |Lower(d)| == |d|
    ensures n <= |d| ==> Lower(d)[..n] == Lower(d[..n])
    ensures n < |d| ==> Lower(d)[n + 1..] == Lower(d[n + 1..])
  {
  }

  lemma LowerKeepsTrimming(b: byte)
    ensures ToLower(b) == DOT <==> b == DOT
    ensures IsSpace(ToLower(b)) <==> IsSpace(b)
  {
  }

  lemma {:induction false} TrimEndLower(d: seq<byte>)
    ensures TrimEnd(Lower(d)) == Lower(TrimEnd(d))
    decreases |d|
  {
    hide IsSpace, ToLower;
    if d != [] {
      var n := |d| - 1;
      LowerKeepsTrimming(d[n]);
      assert Lower(d)[..n] == Lower(d[..n]);
      TrimEndLower(d[..n]);
    }
  }

  lemma {:induction false} TrimStartLower(d: seq<byte>)
    ensures TrimStart(Lower(d)) == Lower(TrimStart(d))
    decreases |d|
  {
    hide IsSpace, ToLower;
    if d != [] {
      LowerKeepsTrimming(d[0]);
      assert Lower(d)[1..] == Lower(d[1..]);
      TrimStartLower(d[1..]);
    }
  }

  /** Case does not matter. */
  lemma LabelsCaseInsensitive(domain: seq<byte>, other: seq<byte>)
    requires SameText(domain, other)
    ensures Labels(other) == Labels(domain)
  {
    hide Lower, Labels;
    LowerForgetsCase(domain, other);
    LabelsOfLower(domain);
    LabelsOfLower(other);
  }

  lemma LabelsOfLower(domain: seq<byte>)
    ensures Labels(Lower(domain)) == Labels(domain)
  {
    TrimEndLower(domain);
    TrimStartLower(TrimEnd(domain));
    SplitLower(TrimStart(TrimEnd(domain)));
  }

  /** `Split` where the first dot is known: in front of it one label, behind it the rest. */
  lemma SplitAtDot(head: seq<byte>, rest: seq<byte>)
    requires HasNo(head, DOT)
    ensures Split(head + [DOT] + rest) == (if head == [] then [] else [Lower(head)]) + Split(rest)
  {
    hide Find, Lower;
    var d := head + [DOT] + rest;
    FindIs(d, DOT, |head|);
    assert d[..|head|] == head && d[|head| + 1..] == rest;
  }

  lemma SplitNoDot(head: seq<byte>)
    requires HasNo(head, DOT)
    ensures Split(head) == if head == [] then [] else [Lower(head)]
  {
    hide Find, Lower;
    FindIs(head, DOT, |head|);
    assert head[..|head|] == head;
  }

  lemma {:induction false} SplitConcat(a: seq<byte>, b: seq<byte>)
    ensures Split(a + [DOT] + b) == Split(a) + Split(b)
    decreases |a|
  {
    hide Find, Lower, Split;
    var n := Find(a, DOT);
    FindBound(a, DOT);
    if n < |a| {
      var rest := a[n + 1..];
      assert a == a[..n] + [DOT] + rest;
      assert a + [DOT] + b == a[..n] + [DOT] + (rest + [DOT] + b);
      SplitAtDot(a[..n], rest);
      SplitAtDot(a[..n], rest + [DOT] + b);
      SplitConcat(rest, b);
    } else {
      SplitAtDot(a, b);
      SplitNoDot(a);
    }
  }

  predicate Unspaced(s: seq<byte>) { forall k :: 0 <= k < |s| ==> !IsSpace(s[k]) }

  lemma {:induction false} UnspacedLabels(d: seq<byte>)
    requires Unspaced(d)
    ensures Labels(d) == Split(d)
  {
    TrimDots(d);
    UnspacedStart(TrimEnd(d));
  }

  lemma SplitTrailingDot(d: seq<byte>)
    ensures Split(d + [DOT]) == Split(d)
  {
    SplitConcat(d, []);
    assert d + [DOT] + [] == d + [DOT];
  }

  lemma {:induction false} TrimDots(d: seq<byte>)
    requires Unspaced(d)
    ensures Split(TrimEnd(d)) == Split(d) && Unspaced(TrimEnd(d))
    decreases |d|
  {
    hide Split, IsSpace;
    if d != [] && d[|d| - 1] == DOT {
      var e := d[..|d| - 1];
      TrimDots(e);
      SplitTrailingDot(e);
      assert d == e + [DOT];
    }
  }

  lemma UnspacedStart(d: seq<byte>)
    requires Unspaced(d)
    ensures TrimStart(d) == d
  {
  }

  /** The labels of `sub.domain` are those of `sub` followed by those of `domain`. */
  lemma SubdomainLabels(sub: seq<byte>, domain: seq<byte>)
    requires Unspaced(sub) && Unspaced(domain)
    ensures Labels(sub + [DOT] + domain) == Labels(sub) + Labels(domain)
  {
    UnspacedLabels(sub);
    UnspacedLabels(domain);
    assert Unspaced(sub + [DOT] + domain);
    UnspacedLabels(sub + [DOT] + domain);
    SplitConcat(sub, domain);
  }

  /** Trailing dots and whitespace do not matter. */
  lemma TrailingIgnored(domain: seq<byte>, c: byte)
    requires c in {46, 9, 10, 11, 12, 13, 32}
    ensures Labels(domain + [c]) == Labels(domain)
  {
    assert (domain + [c])[..|domain|] == domain;
  }

  function Join(labels: seq<Label>): seq<byte> {
    if labels == [] then []
    else if |labels| == 1 then labels[0]
    else labels[0] + [DOT] + Join(labels[1..])
  }

  lemma {:induction false} SplitJoin(labels: seq<Label>)
    requires forall l :: l in labels ==> Proper(l)
    ensures Split(Join(labels)) == labels
  {
    if labels != [] {
      assert labels[0] in labels;
      FindIs(labels[0], DOT, |labels[0]|);
      assert labels[0][..|labels[0]|] == labels[0];
      assert Split(labels[0]) == [labels[0]];
      if |labels| > 1 {
        SplitJoin(labels[1..]);
        SplitConcat(labels[0], Join(labels[1..]));
      }
      assert labels == [labels[0]] + labels[1..];
    }
  }

  predicate StartsTight(s: seq<byte>) { s != [] && !IsSpace(s[0]) }

  predicate EndsTight(s: seq<byte>) { s != [] && !IsSpace(s[|s| - 1]) }

  /** No whitespace where the name begins and where it ends. */
  predicate TightEnds(labels: seq<Label>) {
    labels == [] || (StartsTight(labels[0]) && EndsTight(labels[|labels| - 1]))
  }

  lemma {:induction false} JoinEnds(labels: seq<Label>)
    requires labels != [] && forall k :: 0 <= k < |labels| ==> Proper(labels[k])
    ensures var d := Join(labels);
            && d != [] && d[|d| - 1] != DOT
            && (StartsTight(d) <==> StartsTight(labels[0])) && (EndsTight(d) <==> EndsTight(labels[|labels| - 1]))
  {
    assert Proper(labels[0]);
    if |labels| > 1 { JoinEnds(labels[1..]); }
  }

  lemma {:induction false} TrimEndPrefix(d: seq<byte>)
    ensures TrimEnd(d) <= d
    ensures d != [] && IsSpace(d[|d| - 1]) ==> |TrimEnd(d)| < |d|
  {
    if d != [] && (d[|d| - 1] == DOT || IsSpace(d[|d| - 1])) { TrimEndPrefix(d[..|d| - 1]); }
  }

  lemma {:induction false} TrimStartShorter(d: seq<byte>)
    ensures |TrimStart(d)| <= |d| && (d != [] && IsSpace(d[0]) ==> |TrimStart(d)| < |d|)
  {
    if d != [] && IsSpace(d[0]) { TrimStartShorter(d[1..]); }
  }

  lemma JoinCons(head: Label, tail: seq<Label>)
    ensures Join([head] + tail) == head + if tail == [] then [] else [DOT] + Join(tail)
  {
    assert ([head] + tail)[1..] == tail;
    if tail == [] { assert head + [] == head; }
    else { assert head + [DOT] + Join(tail) == head + ([DOT] + Join(tail)); }
  }

  lemma {:induction false} JoinSplitShorter(d: seq<byte>)
    ensures |Join(Split(d))| <= |d|
    decreases |d|
  {
    hide Find, Lower, Join, Split;
    JoinNothing();
    SplitParts(d);
    if d != [] {
      var n := Find(d, DOT);
      FindBound(d, DOT);
      if n < |d| { JoinSplitShorter(d[n + 1..]); }
      if n > 0 { JoinLength(d[..n], if n < |d| then Split(d[n + 1..]) else []); }
    }
  }

  lemma SplitParts(d: seq<byte>)
    ensures d == [] ==> Split(d) == []
    ensures d != [] && Find(d, DOT) <= |d| ==>
              var n := Find(d, DOT);
              var tail := if n < |d| then Split(d[n + 1..]) else [];
              Split(d) == if n > 0 then [Lower(d[..n])] + tail else tail
  {
    hide Find, Lower;
  }

  lemma JoinLength(head: seq<byte>, tail: seq<Label>)
    ensures |Join([Lower(head)] + tail)| == |head| + if tail == [] then 0 else 1 + |Join(tail)|
  {
    hide Join, Lower;
    JoinCons(Lower(head), tail);
    LowerLength(head);
  }

  lemma JoinNothing()
    ensures Join([]) == []
  {
  }

  lemma LowerLength(s: seq<byte>)
    ensures |Lower(s)| == |s|
  {
  }

  /** Joining labels and splitting again is the identity exactly when the joined name neither
      begins nor ends with whitespace; inside it whitespace is kept. */
  lemma LabelsOfJoin(labels: seq<Label>)
    requires forall l :: l in labels ==> Proper(l)
    ensures Labels(Join(labels)) == labels <==> TightEnds(labels)
  {
    hide Lower, Split, TrimEnd, TrimStart, Proper, StartsTight, EndsTight;
    SplitJoin(labels);
    var d := Join(labels);
    if labels == [] {
      TightKept(d);
    } else {
      JoinEnds(labels);
      if TightEnds(labels) { TightKept(d); } else { LooseLost(d); JoinSplitShorter(TrimStart(TrimEnd(d))); }
    }
  }

  lemma TightKept(d: seq<byte>)
    requires d == [] || (StartsTight(d) && EndsTight(d) && d[|d| - 1] != DOT)
    ensures TrimStart(TrimEnd(d)) == d
  {
  }

  lemma LooseLost(d: seq<byte>)
    requires d != [] && !(StartsTight(d) && EndsTight(d))
    ensures |TrimStart(TrimEnd(d))| < |d|
  {
    TrimEndPrefix(d);
    TrimStartShorter(TrimEnd(d));
  }
}
