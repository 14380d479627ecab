/** Domain names in DNS messages: the reading loop of the packet parser next to the name
    expansion of RFC 1035 section 4.1.4. */
module DnsName {
  import opened Bytes
  import opened DomainLabels

  const MAX_HOPS: nat := 64
  const COMPRESSED: nat := 192

  /** A label in octets as they stand in the message. */
  type Octets = seq<byte>

  // ---------- The reading loop ----------

  datatype NameResult = Malformed | Name(qname: seq<byte>, next: nat)

  function AppendLabel(qname: seq<byte>, octets: Octets): seq<byte> {
    (if qname != [] then qname + [DOT] else qname) + Lower(octets)
  }

  function PointerTarget(data: seq<byte>, at: nat): nat
    requires at + 1 < |data|
  {
    var first: nat, second: nat := data[at], data[at + 1];
    first % 64 * 256 + second
  }

  /** What the loop makes of a name from the given state on.  A first octet of 192 or more is a
      pointer; 1 to 191 is taken as a plain length. */
  function ReadName(data: seq<byte>, curr: nat, hops: nat, jumped: bool, offset: nat, qname: seq<byte>): NameResult
    decreases MAX_HOPS - hops
  {
    if curr >= |data| || hops >= MAX_HOPS then Name(qname, offset)
    else if data[curr] == 0 then Name(qname, if jumped then offset else curr + 1)
    else if data[curr] >= COMPRESSED then
      if curr + 1 >= |data| then Malformed
      else ReadName(data, PointerTarget(data, curr), hops + 1, true, if jumped then offset else curr + 2, qname)
    else
      var end := curr + 1 + data[curr];
      if end > |data| then Malformed
      else
        ReadName(data, end, hops + 1, jumped, if jumped then offset else end, AppendLabel(qname, data[curr + 1..end]))
  }

  function NameAt(data: seq<byte>, pos: nat): NameResult { ReadName(data, pos, 0, false, pos, []) }

  method LowerOnto(qname: seq<byte>, data: seq<byte>, curr: nat, len: nat) returns (r: seq<byte>)
    requires curr + len <= |data|
    ensures r == AppendLabel(qname, data[curr..curr + len])
  {
    hide Lower, ToLower;
    r := if qname != [] then qname + [DOT] else qname;
    ghost var start := r;
    assert start + Lower(data[curr..curr]) == start by { LowerNothing(); }
    for i := 0 to len
      invariant r == start + Lower(data[curr..curr + i])
    {
      LowerNext(data[curr..curr + i], data[curr..curr + i + 1], data[curr + i]);
      r := r + [ToLower(data[curr + i])];
    }
  }

  lemma LowerNothing()
    ensures Lower([]) == []
  {
  }

  lemma LowerNext(s: seq<byte>, longer: seq<byte>, c: byte)
    requires longer == s + [c]
    ensures Lower(longer) == Lower(s) + [ToLower(c)]
  {
  }

  /** The loop itself: in bounds and at most 64 hops on every byte string, cycles included. */
  method ParseName(data: seq<byte>, start: nat) returns (result: NameResult)
    ensures result == NameAt(data, start)
  {
    hide AppendLabel;
    var qname, hops, curr, jumped, offset := [], 0, start, false, start;
    while curr < |data| && hops < MAX_HOPS
      invariant 0 <= hops <= MAX_HOPS && curr >= 0 && offset >= 0
      invariant ReadName(data, curr, hops, jumped, offset, qname) == NameAt(data, start)
      decreases MAX_HOPS - hops
    {
      var labelLen := data[curr];
      if labelLen == 0 {
        if !jumped { offset := curr + 1; }
        return Name(qname, offset);
      }
      if labelLen >= COMPRESSED {
        if curr + 1 >= |data| { return Malformed; }
        var target := PointerTarget(data, curr);
        if !jumped { offset := curr + 2; }
        jumped := true;
        curr := target;
        hops := hops + 1;
      } else {
        curr := curr + 1;
        if curr + labelLen > |data| { return Malformed; }
        qname := LowerOnto(qname, data, curr, labelLen);
        curr := curr + labelLen;
        if !jumped { offset := curr; }
        hops := hops + 1;
      }
    }
    result := Name(qname, offset);
  }

  // ---------- RFC 1035 section 4.1.4 ----------

  /** The labels a name stands for, if it can be expanded with at most n labels and pointers. */
  function Expand(data: seq<byte>, pos: nat, n: nat): Option<seq<Octets>>
    decreases n
  {
    if pos >= |data| then None
    else if data[pos] == 0 then Some([])
    else if n == 0 then None
    else if data[pos] >= COMPRESSED then
      if pos + 1 >= |data| then None else Expand(data, PointerTarget(data, pos), n - 1)
    else
      var end := pos + 1 + data[pos];
      if end > |data| then None
      else match Expand(data, end, n - 1)
        case None => None
        case Some(rest) => Some([data[pos + 1..end]] + rest)
  }

  /** Octet by octet: zero ends a name, 1 to 191 count the octets of a label, and a larger octet
      is with the next one a pointer of 14 bits, the two highest bits being set. */
  lemma ExpandOctets(data: seq<byte>, pos: nat, n: nat)
    requires pos + 1 < |data| && n > 0
    ensures data[pos] == 0 ==> Expand(data, pos, n) == Some([])
    ensures data[pos] >= 192 ==>
              Expand(data, pos, n) == Expand(data, (data[pos] - 192) * 256 + data[pos + 1] as nat, n - 1)
    ensures 1 <= data[pos] <= 191 && pos + 1 + data[pos] <= |data| ==>
              var end := pos + 1 + data[pos];
              var rest := Expand(data, end, n - 1);
              Expand(data, pos, n) == if rest.Some? then Some([data[pos + 1..end]] + rest.value) else None
    ensures 1 <= data[pos] <= 191 && pos + 1 + data[pos] > |data| ==> Expand(data, pos, n) == None
  {
  }

  /** Just past the zero octet or the first pointer that ends the name in place. */
  function InPlaceEnd(data: seq<byte>, pos: nat): Option<nat>
    decreases |data| - pos
  {
    if pos >= |data| then None
    else if data[pos] == 0 then Some(pos + 1)
    else if data[pos] >= COMPRESSED then if pos + 1 < |data| then Some(pos + 2) else None
    else if pos + 1 + data[pos] > |data| then None
    else InPlaceEnd(data, pos + 1 + data[pos])
  }

  function AppendAll(qname: seq<byte>, labels: seq<Octets>): seq<byte>
    decreases |labels|
  {
    if labels == [] then qname else AppendAll(AppendLabel(qname, labels[0]), labels[1..])
  }

  predicate NonEmptyLabels(labels: seq<Octets>) { forall k :: 0 <= k < |labels| ==> labels[k] != [] }

  function LowerAll(labels: seq<Octets>): (r: seq<Label>)
    ensures |r| == |labels|
  {
    if labels == [] then [] else [Lower(labels[0])] + LowerAll(labels[1..])
  }

  lemma {:induction false} ExpandNonEmpty(data: seq<byte>, pos: nat, n: nat)
    requires Expand(data, pos, n).Some?
    ensures NonEmptyLabels(Expand(data, pos, n).value) && |Expand(data, pos, n).value| <= n
    decreases n
  {
    if data[pos] != 0 {
      if data[pos] >= COMPRESSED { ExpandNonEmpty(data, PointerTarget(data, pos), n - 1); }
      else { ExpandNonEmpty(data, pos + 1 + data[pos], n - 1); }
    }
  }

  lemma JoinLowerAll(labels: seq<Octets>)
    requires labels != []
    ensures Join(LowerAll(labels))
         == Lower(labels[0]) + if |labels| == 1 then [] else [DOT] + Join(LowerAll(labels[1..]))
  {
    hide Lower, Join;
    JoinCons(Lower(labels[0]), LowerAll(labels[1..]));
  }

  lemma {:induction false} AppendAllJoin(qname: seq<byte>, labels: seq<Octets>)
    requires NonEmptyLabels(labels)
    ensures AppendAll(qname, labels)
         == if labels == [] then qname else (if qname != [] then qname + [DOT] else qname) + Join(LowerAll(labels))
    decreases |labels|
  {
    if labels != [] {
      var next := AppendLabel(qname, labels[0]);
      assert |next| >= |labels[0]|;
      AppendAllJoin(next, labels[1..]);
      JoinLowerAll(labels);
      hide Lower, Join, LowerAll;
      var prefix, head := if qname != [] then qname + [DOT] else qname, Lower(labels[0]);
      var tail := Join(LowerAll(labels[1..]));
      assert prefix + head + [DOT] + tail == prefix + (head + ([DOT] + tail));
      assert prefix + (head + []) == prefix + head;
    }
  }

  // ---------- Names of 64 hops and more ----------

  predicate IsPointer(data: seq<byte>, pos: nat) { pos < |data| && data[pos] >= COMPRESSED }

  /** The offsets of the labels and pointers met on the way to the terminator: the name's hops. */
  function Trail(data: seq<byte>, pos: nat, n: nat): seq<nat>
    requires Expand(data, pos, n).Some?
    decreases n
  {
    if data[pos] == 0 then []
    else if data[pos] >= COMPRESSED then [pos] + Trail(data, PointerTarget(data, pos), n - 1)
    else [pos] + Trail(data, pos + 1 + data[pos], n - 1)
  }

  ghost predicate AnyPointer(data: seq<byte>, trail: seq<nat>) { exists p :: p in trail && IsPointer(data, p) }

  ghost predicate AllPointers(data: seq<byte>, trail: seq<nat>) { forall p :: p in trail ==> IsPointer(data, p) }

  /** The loop, with `budget` hops left, has all of the name when it stops: the hops are fewer;
      or the budget takes it through a pointer (one before counts as well, that is `jumped`),
      which settles the next offset, and nothing but pointers is left. */
  ghost predicate WithinReach(data: seq<byte>, trail: seq<nat>, budget: nat, jumped: bool) {
    |trail| < budget || ((jumped || AnyPointer(data, trail[..budget])) && AllPointers(data, trail[budget..]))
  }

  lemma ReachStep(data: seq<byte>, pos: nat, rest: seq<nat>, budget: nat, jumped: bool)
    requires budget > 0
    ensures WithinReach(data, [pos] + rest, budget, jumped)
       <==> WithinReach(data, rest, budget - 1, jumped || IsPointer(data, pos))
  {
    hide IsPointer, AllPointers;
    var trail := [pos] + rest;
    if |trail| >= budget {
      assert trail[..budget] == [pos] + rest[..budget - 1];
      assert trail[budget..] == rest[budget - 1..];
    }
  }

  /** Only pointers are left exactly when no label is. */
  lemma {:induction false} OnlyPointers(data: seq<byte>, pos: nat, n: nat)
    requires Expand(data, pos, n).Some?
    ensures Expand(data, pos, n).value == [] <==> AllPointers(data, Trail(data, pos, n))
    decreases n
  {
    if data[pos] >= COMPRESSED {
      OnlyPointers(data, PointerTarget(data, pos), n - 1);
    } else if data[pos] != 0 {
      assert pos in Trail(data, pos, n);
    }
  }

  lemma {:induction false} AppendAllLonger(qname: seq<byte>, labels: seq<Octets>)
    requires NonEmptyLabels(labels)
    ensures |AppendAll(qname, labels)| >= |qname| && (AppendAll(qname, labels) == qname <==> labels == [])
    decreases |labels|
  {
    if labels != [] { AppendAllLonger(AppendLabel(qname, labels[0]), labels[1..]); }
  }

  lemma {:induction false} ExpandEnds(data: seq<byte>, pos: nat, n: nat)
    requires Expand(data, pos, n).Some?
    ensures InPlaceEnd(data, pos).Some?
    decreases n
  {
    if 0 < data[pos] < COMPRESSED { ExpandEnds(data, pos + 1 + data[pos], n - 1); }
  }

  /** The loop ends with the rest of the name and the right offset exactly when it is in reach. */
  lemma {:induction false} ReadExactIff(data: seq<byte>, curr: nat, hops: nat, jumped: bool, offset: nat,
                                        qname: seq<byte>, n: nat)
    requires Expand(data, curr, n).Some? && hops <= MAX_HOPS && (!jumped ==> offset == curr)
    ensures InPlaceEnd(data, curr).Some?
    ensures ReadName(data, curr, hops, jumped, offset, qname)
            == Name(AppendAll(qname, Expand(data, curr, n).value),
                    if jumped then offset else InPlaceEnd(data, curr).value)
       <==> WithinReach(data, Trail(data, curr, n), MAX_HOPS - hops, jumped)
    decreases n
  {
    hide AppendLabel, AppendAll, WithinReach, PointerTarget, Expand, Trail, ReadName, InPlaceEnd;
    ExpandEnds(data, curr, n);
    ExpandStarts(data, curr, n);
    if hops == MAX_HOPS {
      ReadSpent(data, curr, jumped, offset, qname, n);
    } else if data[curr] == 0 {
      ReadTerminator(data, curr, hops, jumped, offset, qname, n);
      ReachNothing(data, MAX_HOPS - hops, jumped);
    } else if data[curr] >= COMPRESSED {
      PointerHop(data, curr, hops, jumped, offset, qname, n);
      var target := PointerTarget(data, curr);
      ReachStep(data, curr, Trail(data, target, n - 1), MAX_HOPS - hops, jumped);
      ReadExactIff(data, target, hops + 1, true, if jumped then offset else curr + 2, qname, n - 1);
    } else {
      LabelHop(data, curr, hops, jumped, offset, qname, n);
      var end := curr + 1 + data[curr];
      var l := data[curr + 1..end];
      ReachStep(data, curr, Trail(data, end, n - 1), MAX_HOPS - hops, jumped);
      ReadExactIff(data, end, hops + 1, jumped, if jumped then offset else end, AppendLabel(qname, l), n - 1);
      AppendAllCons(qname, l, Expand(data, end, n - 1).value);
    }
  }

  lemma ExpandStarts(data: seq<byte>, curr: nat, n: nat)
    requires Expand(data, curr, n).Some?
    ensures curr < |data| && (data[curr] != 0 ==> n > 0)
    ensures data[curr] >= COMPRESSED ==> curr + 1 < |data| && Expand(data, PointerTarget(data, curr), n - 1).Some?
    ensures 0 < data[curr] < COMPRESSED ==>
              curr + 1 + data[curr] <= |data| && Expand(data, curr + 1 + data[curr], n - 1).Some?
  {
  }

  lemma ReadTerminator(data: seq<byte>, curr: nat, hops: nat, jumped: bool, offset: nat, qname: seq<byte>, n: nat)
    requires curr < |data| && data[curr] == 0 && hops < MAX_HOPS
    ensures Expand(data, curr, n) == Some([]) && Trail(data, curr, n) == [] && InPlaceEnd(data, curr) == Some(curr + 1)
    ensures ReadName(data, curr, hops, jumped, offset, qname) == Name(qname, if jumped then offset else curr + 1)
    ensures AppendAll(qname, []) == qname
  {
  }

  lemma PointerHop(data: seq<byte>, curr: nat, hops: nat, jumped: bool, offset: nat, qname: seq<byte>, n: nat)
    requires Expand(data, curr, n).Some? && IsPointer(data, curr) && hops < MAX_HOPS
    ensures n > 0 && curr + 1 < |data| && InPlaceEnd(data, curr) == Some(curr + 2)
    ensures var target := PointerTarget(data, curr);
            && Expand(data, curr, n) == Expand(data, target, n - 1)
            && Trail(data, curr, n) == [curr] + Trail(data, target, n - 1)
            && ReadName(data, curr, hops, jumped, offset, qname)
               == ReadName(data, target, hops + 1, true, if jumped then offset else curr + 2, qname)
  {
  }

  lemma LabelHop(data: seq<byte>, curr: nat, hops: nat, jumped: bool, offset: nat, qname: seq<byte>, n: nat)
    requires Expand(data, curr, n).Some? && curr < |data| && 0 < data[curr] < COMPRESSED && hops < MAX_HOPS
    ensures n > 0 && curr + 1 + data[curr] <= |data| && !IsPointer(data, curr)
    ensures var end := curr + 1 + data[curr];
            && InPlaceEnd(data, curr) == InPlaceEnd(data, end)
            && Expand(data, end, n - 1).Some?
            && Expand(data, curr, n) == Some([data[curr + 1..end]] + Expand(data, end, n - 1).value)
            && Trail(data, curr, n) == [curr] + Trail(data, end, n - 1)
            && ReadName(data, curr, hops, jumped, offset, qname)
               == ReadName(data, end, hops + 1, jumped, if jumped then offset else end,
                           AppendLabel(qname, data[curr + 1..end]))
  {
    hide AppendLabel;
  }

  lemma AppendAllCons(qname: seq<byte>, l: Octets, rest: seq<Octets>)
    ensures AppendAll(qname, [l] + rest) == AppendAll(AppendLabel(qname, l), rest)
  {
    hide AppendLabel;
    assert ([l] + rest)[1..] == rest;
  }

  lemma ReachNothing(data: seq<byte>, budget: nat, jumped: bool)
    requires budget > 0
    ensures WithinReach(data, [], budget, jumped)
  {
  }

  /** With no hop left the loop keeps name and offset as they are. */
  lemma ReadSpent(data: seq<byte>, curr: nat, jumped: bool, offset: nat, qname: seq<byte>, n: nat)
    requires Expand(data, curr, n).Some? && InPlaceEnd(data, curr).Some? && (!jumped ==> offset == curr)
    ensures ReadName(data, curr, MAX_HOPS, jumped, offset, qname)
            == Name(AppendAll(qname, Expand(data, curr, n).value),
                    if jumped then offset else InPlaceEnd(data, curr).value)
       <==> WithinReach(data, Trail(data, curr, n), 0, jumped)
  {
    hide Expand, InPlaceEnd, AppendAll, Trail, AllPointers;
    ExpandNonEmpty(data, curr, n);
    AppendAllLonger(qname, Expand(data, curr, n).value);
    OnlyPointers(data, curr, n);
    EndBeyond(data, curr);
    var trail := Trail(data, curr, n);
    assert trail[0..] == trail && trail[..0] == [];
  }

  /** A name that the loop reads in full: its hops are within reach of the 64. */
  ghost predicate ReadInFull(data: seq<byte>, pos: nat, n: nat)
    requires Expand(data, pos, n).Some?
  {
    WithinReach(data, Trail(data, pos, n), MAX_HOPS, false)
  }

  /** Of all names that have an expansion, however long, the loop reads exactly those right that
      have fewer than 64 hops, or go through a pointer in the first 64 and only through pointers
      after these. */
  lemma NameExactIff(data: seq<byte>, pos: nat, n: nat)
    requires Expand(data, pos, n).Some?
    ensures InPlaceEnd(data, pos).Some?
    ensures NameAt(data, pos) == Name(Join(LowerAll(Expand(data, pos, n).value)), InPlaceEnd(data, pos).value)
       <==> ReadInFull(data, pos, n)
  {
    ReadExactIff(data, pos, 0, false, pos, [], n);
    ExpandNonEmpty(data, pos, n);
    AppendAllJoin([], Expand(data, pos, n).value);
  }

  /** A name of at most 63 hops is in reach ... */
  lemma NameIsExpansion(data: seq<byte>, pos: nat)
    requires Expand(data, pos, MAX_HOPS - 1).Some?
    ensures ReadInFull(data, pos, MAX_HOPS - 1) && InPlaceEnd(data, pos).Some?
    ensures NameAt(data, pos)
         == Name(Join(LowerAll(Expand(data, pos, MAX_HOPS - 1).value)), InPlaceEnd(data, pos).value)
  {
    hide Trail, Join, LowerAll, NameAt, InPlaceEnd;
    NameExactIff(data, pos, MAX_HOPS - 1);
    TrailBound(data, pos, MAX_HOPS - 1);
  }

  lemma {:induction false} TrailBound(data: seq<byte>, pos: nat, n: nat)
    requires Expand(data, pos, n).Some?
    ensures |Trail(data, pos, n)| <= n
    decreases n
  {
    if data[pos] != 0 {
      TrailBound(data, if data[pos] >= COMPRESSED then PointerTarget(data, pos) else pos + 1 + data[pos], n - 1);
    }
  }

  /** ... and so is one of 64 hops that begins with a pointer, as a chain of 64 pointers does. */
  lemma PointerFirst(data: seq<byte>, pos: nat)
    requires Expand(data, pos, MAX_HOPS).Some? && IsPointer(data, pos)
    ensures ReadInFull(data, pos, MAX_HOPS)
  {
    hide Expand;
    TrailBound(data, pos, MAX_HOPS);
    TrailFirst(data, pos, MAX_HOPS);
    var trail := Trail(data, pos, MAX_HOPS);
    if |trail| == MAX_HOPS { assert pos in trail[..MAX_HOPS] && trail[MAX_HOPS..] == []; }
  }

  lemma TrailFirst(data: seq<byte>, pos: nat, n: nat)
    requires Expand(data, pos, n).Some? && data[pos] != 0
    ensures Trail(data, pos, n) != [] && Trail(data, pos, n)[0] == pos
  {
  }

  /** More room for hops changes neither the expansion nor the hops. */
  lemma {:induction false} ExpandMore(data: seq<byte>, pos: nat, n: nat, m: nat)
    requires n <= m && Expand(data, pos, n).Some?
    ensures Expand(data, pos, m) == Expand(data, pos, n) && Trail(data, pos, m) == Trail(data, pos, n)
    decreases n
  {
    if data[pos] != 0 {
      ExpandMore(data, if data[pos] >= COMPRESSED then PointerTarget(data, pos) else pos + 1 + data[pos], n - 1, m - 1);
    }
  }

  // ---------- What is read of any name ----------

  /** The labels met in the first `budget` hops: to the terminator, to the end of the message or
      until the hops are spent; None where a label or pointer is cut off. */
  function MetLabels(data: seq<byte>, pos: nat, budget: nat): Option<seq<Octets>>
    decreases budget
  {
    if pos >= |data| || budget == 0 || data[pos] == 0 then Some([])
    else if data[pos] >= COMPRESSED then
      if pos + 1 >= |data| then None else MetLabels(data, PointerTarget(data, pos), budget - 1)
    else
      var end := pos + 1 + data[pos];
      if end > |data| then None
      else match MetLabels(data, end, budget - 1)
        case None => None
        case Some(rest) => Some([data[pos + 1..end]] + rest)
  }

  lemma {:induction false} ReadMet(data: seq<byte>, curr: nat, hops: nat, jumped: bool, offset: nat, qname: seq<byte>)
    requires hops <= MAX_HOPS
    ensures var met := MetLabels(data, curr, MAX_HOPS - hops);
            var read := ReadName(data, curr, hops, jumped, offset, qname);
            && (read.Malformed? <==> met.None?)
            && (met.Some? ==> read.qname == AppendAll(qname, met.value))
    decreases MAX_HOPS - hops
  {
    hide AppendLabel, AppendAll, PointerTarget;
    if curr >= |data| || hops == MAX_HOPS || data[curr] == 0 {
      AppendNothing(qname);
    } else if data[curr] >= COMPRESSED {
      if curr + 1 < |data| {
        ReadMet(data, PointerTarget(data, curr), hops + 1, true, if jumped then offset else curr + 2, qname);
      }
    } else {
      var end := curr + 1 + data[curr];
      if end <= |data| {
        var l := data[curr + 1..end];
        ReadMet(data, end, hops + 1, jumped, if jumped then offset else end, AppendLabel(qname, l));
        var rest := MetLabels(data, end, MAX_HOPS - hops - 1);
        if rest.Some? { AppendAllCons(qname, l, rest.value); }
      }
    }
  }

  lemma AppendNothing(qname: seq<byte>)
    ensures AppendAll(qname, []) == qname
  {
  }

  lemma {:induction false} MetNonEmpty(data: seq<byte>, pos: nat, budget: nat)
    requires MetLabels(data, pos, budget).Some?
    ensures NonEmptyLabels(MetLabels(data, pos, budget).value) && |MetLabels(data, pos, budget).value| <= budget
    decreases budget
  {
    if pos < |data| && budget > 0 && data[pos] != 0 {
      MetNonEmpty(data, if data[pos] >= COMPRESSED then PointerTarget(data, pos) else pos + 1 + data[pos], budget - 1);
    }
  }

  /** On every byte string, names without an expansion included, the loop reads the labels met in
      64 hops, in lower case with dots between them; it fails exactly where one is cut off. */
  lemma NameIsMet(data: seq<byte>, pos: nat)
    ensures NameAt(data, pos).Malformed? <==> MetLabels(data, pos, MAX_HOPS).None?
    ensures MetLabels(data, pos, MAX_HOPS).Some? ==>
              var met := MetLabels(data, pos, MAX_HOPS).value;
              NameAt(data, pos).qname == Join(LowerAll(met)) && NonEmptyLabels(met) && |met| <= MAX_HOPS
  {
    hide MetLabels, ReadName;
    ReadMet(data, pos, 0, false, pos, []);
    if MetLabels(data, pos, MAX_HOPS).Some? {
      MetNonEmpty(data, pos, MAX_HOPS);
      AppendAllJoin([], MetLabels(data, pos, MAX_HOPS).value);
    }
  }

  /** No label lies beyond the first `budget` hops. */
  ghost predicate LabelsWithin(data: seq<byte>, trail: seq<nat>, budget: nat) {
    |trail| <= budget || AllPointers(data, trail[budget..])
  }

  /** What is met of a name with an expansion is a prefix of it, and all of it exactly when no
      label lies beyond the hops. */
  lemma {:induction false} MetIsPrefix(data: seq<byte>, pos: nat, n: nat, budget: nat)
    requires Expand(data, pos, n).Some?
    ensures MetLabels(data, pos, budget).Some?
    ensures var met, all := MetLabels(data, pos, budget).value, Expand(data, pos, n).value;
            met <= all && (met == all <==> LabelsWithin(data, Trail(data, pos, n), budget))
    decreases n
  {
    hide PointerTarget, AllPointers;
    ExpandStarts(data, pos, n);
    var trail := Trail(data, pos, n);
    if data[pos] != 0 {
      if budget == 0 {
        OnlyPointers(data, pos, n);
        assert trail[0..] == trail;
      } else {
        var next := if data[pos] >= COMPRESSED then PointerTarget(data, pos) else pos + 1 + data[pos];
        MetIsPrefix(data, next, n - 1, budget - 1);
        var rest := Trail(data, next, n - 1);
        assert trail == [pos] + rest;
        if |rest| >= budget { assert trail[budget..] == rest[budget - 1..]; }
        if data[pos] < COMPRESSED {
          PrefixCons(data[pos + 1..next], MetLabels(data, next, budget - 1).value, Expand(data, next, n - 1).value);
        }
      }
    }
  }

  lemma PrefixCons(l: Octets, met: seq<Octets>, all: seq<Octets>)
    requires met <= all
    ensures [l] + met <= [l] + all && ([l] + met == [l] + all <==> met == all)
  {
    assert ([l] + met)[1..] == met && ([l] + all)[1..] == all;
  }

  /** The first n labels standing in place, and where they end. */
  function InPlaceLabels(data: seq<byte>, pos: nat, n: nat): Option<(seq<Octets>, nat)>
    decreases n
  {
    if n == 0 then Some(([], pos))
    else if pos >= |data| || data[pos] == 0 || data[pos] >= COMPRESSED || pos + 1 + data[pos] > |data| then None
    else
      var end := pos + 1 + data[pos];
      match InPlaceLabels(data, end, n - 1)
      case None => None
      case Some((rest, last)) => Some(([data[pos + 1..end]] + rest, last))
  }

  lemma {:induction false} ReadInPlace(data: seq<byte>, curr: nat, hops: nat, offset: nat, qname: seq<byte>, n: nat)
    requires InPlaceLabels(data, curr, n).Some? && hops + n == MAX_HOPS && offset == curr
    ensures var (labels, last) := InPlaceLabels(data, curr, n).value;
            ReadName(data, curr, hops, false, offset, qname) == Name(AppendAll(qname, labels), last)
    decreases n
  {
    hide AppendLabel;
    if n > 0 {
      var end := curr + 1 + data[curr];
      var l := data[curr + 1..end];
      ReadInPlace(data, end, hops + 1, end, AppendLabel(qname, l), n - 1);
      var rest := InPlaceLabels(data, end, n - 1).value.0;
      assert ([l] + rest)[1..] == rest;
    }
  }

  /** A name with 64 labels or more in place is cut short after the 64th: its remaining labels
      and its terminator are left for whatever is read next. */
  lemma LongNameCutShort(data: seq<byte>, pos: nat)
    requires InPlaceLabels(data, pos, MAX_HOPS).Some?
    ensures var (labels, last) := InPlaceLabels(data, pos, MAX_HOPS).value;
            NameAt(data, pos) == Name(AppendAll([], labels), last)
    ensures Expand(data, pos, MAX_HOPS - 1) == None
    ensures InPlaceEnd(data, pos).Some? ==> InPlaceEnd(data, pos).value > InPlaceLabels(data, pos, MAX_HOPS).value.1
  {
    ReadInPlace(data, pos, 0, pos, [], MAX_HOPS);
    TooManyLabels(data, pos, MAX_HOPS);
  }

  lemma {:induction false} TooManyLabels(data: seq<byte>, pos: nat, n: nat)
    requires n > 0 && InPlaceLabels(data, pos, n).Some?
    ensures Expand(data, pos, n - 1) == None
    ensures InPlaceEnd(data, pos).Some? ==> InPlaceEnd(data, pos).value > InPlaceLabels(data, pos, n).value.1
    decreases n
  {
    var end := pos + 1 + data[pos];
    if n > 1 { TooManyLabels(data, end, n - 1); } else { EndBeyond(data, end); }
  }

  lemma {:induction false} EndBeyond(data: seq<byte>, pos: nat)
    ensures InPlaceEnd(data, pos).Some? ==> InPlaceEnd(data, pos).value > pos
    decreases |data| - pos
  {
    if pos < |data| && 0 < data[pos] < COMPRESSED && pos + 1 + data[pos] <= |data| {
      EndBeyond(data, pos + 1 + data[pos]);
    }
  }

  // ---------- What every name read looks like ----------

  /** Lower case, and with a dot in every stretch of 192 octets. */
  ghost predicate Readable(qname: seq<byte>) {
    && Lower(qname) == qname
    && forall i :: 0 <= i && i + COMPRESSED <= |qname| ==> DotWithin(qname, i)
  }

  ghost predicate DotWithin(qname: seq<byte>, i: nat)
    requires i + COMPRESSED <= |qname|
  {
    exists j :: i <= j < i + COMPRESSED && qname[j] == DOT
  }

  lemma AppendReadable(qname: seq<byte>, octets: Octets)
    requires Readable(qname) && |octets| < COMPRESSED
    ensures Readable(AppendLabel(qname, octets))
  {
    var r := AppendLabel(qname, octets);
    LowerTwice(octets);
    assert Lower(r) == r;
    forall i | 0 <= i && i + COMPRESSED <= |r| ensures DotWithin(r, i) {
      if i + COMPRESSED <= |qname| {
        assert DotWithin(qname, i);
        var j :| i <= j < i + COMPRESSED && qname[j] == DOT;
        assert r[j] == DOT;
      } else {
        assert r[|qname|] == DOT;
      }
    }
  }

  /** Every name the loop accepts is readable, and the next offset never goes back. */
  lemma {:induction false} ReadNameReadable(data: seq<byte>, curr: nat, hops: nat, jumped: bool, offset: nat,
                                            qname: seq<byte>)
    requires Readable(qname) && (!jumped ==> offset <= curr)
    ensures ReadName(data, curr, hops, jumped, offset, qname).Name? ==>
              && Readable(ReadName(data, curr, hops, jumped, offset, qname).qname)
              && ReadName(data, curr, hops, jumped, offset, qname).next >= offset
    decreases MAX_HOPS - hops
  {
    hide AppendLabel, Readable;
    if curr < |data| && hops < MAX_HOPS && data[curr] != 0 {
      if data[curr] >= COMPRESSED {
        if curr + 1 < |data| {
          ReadNameReadable(data, PointerTarget(data, curr), hops + 1, true, if jumped then offset else curr + 2, qname);
        }
      } else {
        var end := curr + 1 + data[curr];
        if end <= |data| {
          AppendReadable(qname, data[curr + 1..end]);
          ReadNameReadable(data, end, hops + 1, jumped, if jumped then offset else end,
                           AppendLabel(qname, data[curr + 1..end]));
        }
      }
    }
  }
}
