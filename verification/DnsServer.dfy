/** `DnsServer`: the block-or-forward decision for every datagram, and its counters. */
module DnsServer {
  import opened Bytes
  import opened Blocklist
  import opened DomainLabels
  import opened DomainRules
  import opened DomainTree
  import opened DnsName
  import opened DnsPacket
  import opened DnsRoundTrip
  import BF = BloomFilter

  const BUFFER_SIZE: nat := 2048

  /** What becomes of one received datagram; a forwarded one is counted as such even when there
      is no upstream socket to send it on. */
  datatype Verdict =
    | Ignored
    | Rejected
    | Sinkholed(reply: seq<byte>)
    | Forwarded(sent: Option<seq<byte>>)

  /** A receive into the fixed buffer drops what does not fit. */
  function Received(datagram: seq<byte>): seq<byte> {
    if |datagram| <= BUFFER_SIZE then datagram else datagram[..BUFFER_SIZE]
  }

  /** The first question's name is what is looked up; rules block by label suffix. */
  ghost function Decision(rules: set<DomainRules.Name>, upstream: bool, datagram: seq<byte>): Verdict {
    var data := Received(datagram);
    if data == [] then Ignored
    else match Parsed(data)
      case None => Rejected
      case Some(packet) =>
        if packet.questions == [] then Rejected
        else if Blocked(rules, Labels(packet.questions[0].qname)) then Sinkholed(Sinkhole(packet))
        else Forwarded(if upstream then Some(data) else None)
  }

  datatype Counts = Counts(total: nat, blocked: nat, forwarded: nat, rejected: nat)

  function Counted(c: Counts, verdict: Verdict): Counts {
    match verdict
    case Ignored => c
    case Rejected => c.(total := c.total + 1, rejected := c.rejected + 1)
    case Sinkholed(_) => c.(total := c.total + 1, blocked := c.blocked + 1)
    case Forwarded(_) => c.(total := c.total + 1, forwarded := c.forwarded + 1)
  }

  ghost function Decisions(rules: set<DomainRules.Name>, upstream: bool, datagrams: seq<seq<byte>>): seq<Verdict> {
    if datagrams == [] then []
    else
      var n := |datagrams| - 1;
      Decisions(rules, upstream, datagrams[..n]) + [Decision(rules, upstream, datagrams[n])]
  }

  function CountAll(c: Counts, verdicts: seq<Verdict>): Counts {
    if verdicts == [] then c else Counted(CountAll(c, verdicts[..|verdicts| - 1]), verdicts[|verdicts| - 1])
  }

  class DnsServer {
    const tree: DomainRadixTree
    const bloom: BF.BloomFilter
    /** The upstream socket could be created. */
    var upstreamOpen: bool
    var totalQueries: nat
    var blockedQueries: nat
    var forwardedQueries: nat
    /** Datagrams that could not be parsed or asked nothing. */
    ghost var rejectedPackets: nat

    ghost predicate Valid()
      reads this, tree, tree.nodes.Values, bloom
    {
      && tree.Valid()
      && bloom.Sized() && bloom.numHashes > 0 && BF.Positions(bloom.bits) == {}
      && totalQueries == blockedQueries + forwardedQueries + rejectedPackets
    }

    ghost function Tally(): Counts
      reads this
    {
      Counts(totalQueries, blockedQueries, forwardedQueries, rejectedPackets)
    }

    /** `m` and `k` are the sizes the Bloom filter computes from its element count and rate. */
    constructor (m: nat, k: nat)
      ensures Valid() && tree.rules == {} && Tally() == Counts(0, 0, 0, 0) && !upstreamOpen
      ensures fresh(tree) && fresh(tree.nodes.Values) && fresh(bloom)
    {
      tree := new DomainRadixTree();
      bloom := new BF.BloomFilter(m, k);
      totalQueries, blockedQueries, forwardedQueries, rejectedPackets := 0, 0, 0, 0;
      upstreamOpen := false;
    }

    /** Only the tree is loaded; the Bloom filter stays empty.  Whether the listening socket could
        be bound and the upstream socket created is for the system to say. */
    method Init(file: Option<seq<byte>>, bound: bool, upstreamCreated: bool) returns (ok: bool)
      requires Valid()
      modifies tree, tree.nodes.Values, this`upstreamOpen
      ensures Valid() && Tally() == old(Tally()) && ok == bound
      ensures upstreamOpen == if bound then upstreamCreated else old(upstreamOpen)
      ensures tree.rules == old(tree.rules)
                            + match file case None => {} case Some(content) => RuleNames(RuleTexts(Lines(content)))
    {
      hide DomainRadixTree.Valid, BF.Positions, RuleTexts, RuleNames, Lines;
      var loaded := tree.LoadFromFile(file);
      if !bound { return false; }
      upstreamOpen := upstreamCreated;
      ok := true;
    }

    /** One pass of the loop for one datagram. */
    method Handle(datagram: seq<byte>) returns (verdict: Verdict)
      requires Valid()
      modifies this
      ensures Valid() && verdict == Decision(tree.rules, upstreamOpen, datagram)
      ensures Tally() == Counted(old(Tally()), verdict) && upstreamOpen == old(upstreamOpen)
    {
      hide DomainRadixTree.Valid, BF.Positions, BF.Probes, Blocked, Labels, Parsed, Sinkhole;
      var data := Received(datagram);
      if data == [] { return Ignored; }
      totalQueries := totalQueries + 1;
      var parsed := Parse(data);
      if parsed.None? || parsed.value.questions == [] {
        rejectedPackets := rejectedPackets + 1;
        return Rejected;
      }
      var qname := parsed.value.questions[0].qname;
      var isBlocked := tree.Matches(qname);
      if !isBlocked {
        isBlocked := bloom.Contains(qname);
        EmptyFilter(qname, bloom.numHashes, bloom.numBits);
      }
      if isBlocked {
        blockedQueries := blockedQueries + 1;
        var reply := BuildSinkholeResponse(parsed.value);
        verdict := Sinkholed(reply);
      } else {
        forwardedQueries := forwardedQueries + 1;
        verdict := Forwarded(if upstreamOpen then Some(data) else None);
      }
    }

    /** The receive loop over a run of datagrams. */
    method RunLoop(datagrams: seq<seq<byte>>) returns (verdicts: seq<Verdict>)
      requires Valid()
      modifies this
      ensures Valid() && verdicts == Decisions(tree.rules, upstreamOpen, datagrams)
      ensures Tally() == CountAll(old(Tally()), verdicts)
    {
      hide DomainRadixTree.Valid, BF.Positions, Decision, Counted;
      verdicts := [];
      for i := 0 to |datagrams|
        invariant Valid() && verdicts == Decisions(tree.rules, upstreamOpen, datagrams[..i])
        invariant Tally() == CountAll(old(Tally()), verdicts)
      {
        assert datagrams[..i + 1][..i] == datagrams[..i];
        var verdict := Handle(datagrams[i]);
        assert (verdicts + [verdict])[..|verdicts|] == verdicts;
        verdicts := verdicts + [verdict];
      }
      assert datagrams[..|datagrams|] == datagrams;
    }
  }

  /** An empty filter contains nothing. */
  lemma EmptyFilter(key: seq<byte>, numHashes: nat, numBits: nat)
    requires numHashes > 0
    ensures numBits > 0 ==> !(BF.Probes(key, numHashes, numBits) <= {})
  {
    if numBits > 0 { BF.NoFalseNegatives([], key, key, numHashes, numBits); }
  }

  function Number(verdicts: seq<Verdict>, wanted: Verdict -> bool): nat {
    if verdicts == [] then 0
    else Number(verdicts[..|verdicts| - 1], wanted) + if wanted(verdicts[|verdicts| - 1]) then 1 else 0
  }

  /** Over any run each counter grows by the number of datagrams with that outcome, and every
      datagram that is not empty is counted in the total. */
  lemma {:induction false} CountersExact(c: Counts, verdicts: seq<Verdict>)
    ensures var r := CountAll(c, verdicts);
            && r.blocked == c.blocked + Number(verdicts, (v: Verdict) => v.Sinkholed?)
            && r.forwarded == c.forwarded + Number(verdicts, (v: Verdict) => v.Forwarded?)
            && r.rejected == c.rejected + Number(verdicts, (v: Verdict) => v.Rejected?)
            && r.total - c.total == (r.blocked - c.blocked) + (r.forwarded - c.forwarded) + (r.rejected - c.rejected)
            && r.total == c.total + Number(verdicts, (v: Verdict) => !v.Ignored?)
  {
    if verdicts != [] { CountersExact(c, verdicts[..|verdicts| - 1]); }
  }

  // ---------- End to end ----------

  lemma {:induction false} RuleNamesAre(texts: seq<seq<byte>>, name: DomainRules.Name)
    ensures name in RuleNames(texts) <==> name != [] && exists t :: t in texts && Labels(t) == name
  {
    hide Labels;
    if texts != [] {
      RuleNamesAre(texts[1..], name);
      NamesCons({}, texts[0], texts[1..]);
      assert texts == [texts[0]] + texts[1..];
    }
  }

  /** The datagram parses and asks something. */
  predicate IsQuery(datagram: seq<byte>) {
    Parsed(Received(datagram)).Some? && Parsed(Received(datagram)).value.questions != []
  }

  /** Nothing beyond the first 2048 octets of a datagram matters. */
  lemma LongDatagramCut(rules: set<DomainRules.Name>, upstream: bool, datagram: seq<byte>, rest: seq<byte>)
    requires |datagram| == 2048
    ensures Decision(rules, upstream, datagram + rest) == Decision(rules, upstream, datagram)
    ensures Received(datagram) == datagram
  {
    assert (datagram + rest)[..2048] == datagram;
    if rest == [] { assert datagram + rest == datagram; }
    assert Received(datagram + rest) == datagram;
  }

  /** The labels read are told apart by the dots put between them, and trimming leaves them alone. */
  predicate Unambiguous(labels: seq<Octets>) { (forall l :: l in labels ==> HasNo(l, DOT)) && TightEnds(labels) }

  /** A query is sinkholed exactly when a rule ends the labels read of its first name. */
  lemma DecisionOnRead(rules: set<DomainRules.Name>, upstream: bool, datagram: seq<byte>)
    requires IsQuery(datagram) && Unambiguous(ReadLabels(Received(datagram)))
    ensures var verdict, data := Decision(rules, upstream, datagram), Received(datagram);
            && (verdict.Sinkholed? <==> Blocked(rules, LowerAll(ReadLabels(data))))
            && (verdict.Sinkholed? ==> verdict.reply == Sinkhole(Parsed(data).value))
            && (!verdict.Sinkholed? ==> verdict == Forwarded(if upstream then Some(data) else None))
  {
    hide Labels, Parsed, Sinkhole, Blocked, ReadLabels, TightEnds;
    var data := Received(datagram);
    QuestionName(data);
    WireLabels(ReadLabels(data));
    NonEmptyData(data);
  }

  /** Anything else is counted and dropped, except that an empty datagram is not even counted. */
  lemma NoQueryRejected(rules: set<DomainRules.Name>, upstream: bool, datagram: seq<byte>)
    ensures Decision(rules, upstream, datagram) == Ignored <==> datagram == []
    ensures Decision(rules, upstream, datagram) == Rejected <==> datagram != [] && !IsQuery(datagram)
  {
    hide Parsed, Labels, Blocked, Sinkhole;
  }

  /** From wire to decision: a query is sinkholed exactly when some rule text of the file has
      labels, and these end the labels read of the query's first name (in lower case). */
  lemma EndToEnd(content: seq<byte>, upstream: bool, datagram: seq<byte>)
    requires IsQuery(datagram) && Unambiguous(ReadLabels(Received(datagram)))
    ensures Decision(RuleNames(RuleTexts(Lines(content))), upstream, datagram).Sinkholed?
       <==> exists t :: t in RuleTexts(Lines(content)) && Labels(t) != []
                        && IsSuffix(Labels(t), LowerAll(ReadLabels(Received(datagram))))
  {
    hide Labels, Lines, RuleTexts, RuleNames, IsQuery, Unambiguous, IsSuffix, ReadLabels, Decision;
    var texts := RuleTexts(Lines(content));
    DecisionOnRead(RuleNames(texts), upstream, datagram);
    BlockedByText(texts, LowerAll(ReadLabels(Received(datagram))));
  }

  /** Whatever the rules, the decision is the one for the name on the wire exactly when no label
      of it lies beyond the first 64 hops. */
  lemma DecisionOnWire(upstream: bool, datagram: seq<byte>, n: nat)
    requires IsQuery(datagram) && Unambiguous(ReadLabels(Received(datagram)))
    requires Expand(Received(datagram), HEADER, n).Some?
    ensures (forall rules: set<DomainRules.Name> ::
               Decision(rules, upstream, datagram).Sinkholed?
               <==> Blocked(rules, LowerAll(Expand(Received(datagram), HEADER, n).value)))
       <==> LabelsWithin(Received(datagram), Trail(Received(datagram), HEADER, n), MAX_HOPS)
  {
    hide IsQuery, Unambiguous, Decision, Blocked, LabelsWithin, Trail, Expand, LowerAll, ReadLabels;
    var data := Received(datagram);
    var read, all := ReadLabels(data), Expand(data, HEADER, n).value;
    ReadOf(data, n);
    forall rules: set<DomainRules.Name>
      ensures Decision(rules, upstream, datagram).Sinkholed? <==> Blocked(rules, LowerAll(read))
    {
      DecisionOnRead(rules, upstream, datagram);
    }
    if |read| < |all| {
      var rules := {LowerAll(all)};
      OwnRule(LowerAll(all), LowerAll(read));
      assert Decision(rules, upstream, datagram).Sinkholed? <==> Blocked(rules, LowerAll(read));
    }
  }

  lemma ReadOf(data: seq<byte>, n: nat)
    requires Expand(data, HEADER, n).Some?
    ensures var read, all := ReadLabels(data), Expand(data, HEADER, n).value;
            && |read| <= |all| && (read == all <==> LabelsWithin(data, Trail(data, HEADER, n), MAX_HOPS))
            && (|read| == |all| ==> read == all)
  {
    hide Expand, MetLabels, LabelsWithin;
    MetIsPrefix(data, HEADER, n, MAX_HOPS);
  }

  /** A name taken as a rule blocks itself and no shorter name. */
  lemma OwnRule(name: DomainRules.Name, shorter: DomainRules.Name)
    requires |shorter| < |name|
    ensures Blocked({name}, name) && !Blocked({name}, shorter)
  {
    assert name[0..] == name && IsSuffix(name, name);
  }

  lemma NonEmptyData(data: seq<byte>)
    requires Parsed(data).Some?
    ensures data != []
  {
  }

  lemma BlockedByText(texts: seq<seq<byte>>, name: DomainRules.Name)
    ensures Blocked(RuleNames(texts), name) <==> exists t :: t in texts && Labels(t) != [] && IsSuffix(Labels(t), name)
  {
    hide Labels, RuleNames, IsSuffix;
    if t :| t in texts && Labels(t) != [] && IsSuffix(Labels(t), name) { RuleNamesAre(texts, Labels(t)); }
    if r :| r in RuleNames(texts) && IsSuffix(r, name) {
      RuleNamesAre(texts, r);
      var t :| t in texts && Labels(t) == r;
    }
  }

  /** Splitting the parsed name gives back the labels on the wire, in lower case. */
  lemma WireLabels(labels: seq<Octets>)
    requires NonEmptyLabels(labels) && (forall l :: l in labels ==> HasNo(l, DOT)) && TightEnds(labels)
    ensures Labels(Join(LowerAll(labels))) == LowerAll(labels)
  {
    hide Labels;
    LowerProper(labels);
    LowerEnds(labels);
    LabelsOfJoin(LowerAll(labels));
  }

  lemma {:induction false} LowerAllAt(labels: seq<Octets>, k: nat)
    requires k < |labels|
    ensures LowerAll(labels)[k] == Lower(labels[k])
  {
    if k > 0 { LowerAllAt(labels[1..], k - 1); }
  }

  lemma LowerEnds(labels: seq<Octets>)
    requires TightEnds(labels)
    ensures TightEnds(LowerAll(labels))
  {
    hide Lower, LowerAll, StartsTight, EndsTight;
    LowerAllLength(labels);
    if labels != [] {
      var last := |labels| - 1;
      LowerAllAt(labels, 0);
      LowerAllAt(labels, last);
      LowerTight(labels[0]);
      LowerTight(labels[last]);
    }
  }

  lemma LowerAllLength(labels: seq<Octets>)
    ensures |LowerAll(labels)| == |labels|
  {
  }

  lemma LowerTight(l: Octets)
    ensures (StartsTight(Lower(l)) <==> StartsTight(l)) && (EndsTight(Lower(l)) <==> EndsTight(l))
  {
    if l != [] {
      LowerKeepsTrimming(l[0]);
      LowerKeepsTrimming(l[|l| - 1]);
    }
  }

  lemma {:induction false} LowerProper(labels: seq<Octets>)
    requires NonEmptyLabels(labels) && forall l :: l in labels ==> HasNo(l, DOT)
    ensures forall l :: l in LowerAll(labels) ==> DomainLabels.Proper(l)
  {
    if labels != [] {
      assert labels[0] in labels;
      LowerTwice(labels[0]);
      LowerProper(labels[1..]);
    }
  }

  /** With a compiled list the rules are its domains: a query is sinkholed exactly when the labels
      read of its first name are those of a listed domain or of a subdomain of one. */
  lemma CompiledDecision(header: seq<byte>, domains: seq<seq<byte>>, upstream: bool, datagram: seq<byte>)
    requires (forall d :: d in domains ==> Plain(d)) && forall k :: 0 <= k < |header| ==> header[k] != NEWLINE
    requires IsQuery(datagram) && Unambiguous(ReadLabels(Received(datagram)))
    ensures Decision(RuleNames(RuleTexts(Lines(Compiled(header, domains)))), upstream, datagram).Sinkholed?
       <==> exists d :: d in domains && Labels(d) != []
                        && IsSuffix(Labels(d), LowerAll(ReadLabels(Received(datagram))))
  {
    hide Labels, Lines, RuleTexts, RuleNames, IsQuery, Unambiguous, IsSuffix, Compiled, Decision, ReadLabels;
    CompiledRules(header, domains);
    EndToEnd(Compiled(header, domains), upstream, datagram);
  }

  // ---------- Where the decision and the message part ----------

  /** The octets of a query for 64 labels "a" and then "b": header, name, type and class. */
  predicate LongQuery(d: seq<byte>) {
    && |d| == 147 && d[..12] == [0, 7, 1, 0, 0, 1, 0, 0, 0, 0, 0, 0]
    && (forall k :: 12 <= k < 140 ==> d[k] == if k % 2 == 0 then 1 else 97)
    && d[140..] == [1, 98, 0, 0, 1, 0, 1]
  }

  function Repeated(k: nat): (r: seq<Octets>)
    ensures |r| == k && forall i :: 0 <= i < k ==> r[i] == [97]
  {
    seq(k, _ => [97])
  }

  lemma LongLabel(d: seq<byte>, pos: nat, k: nat)
    requires LongQuery(d) && pos + 2 * k == 140 && pos >= 12 && k > 0
    ensures pos + 2 <= |d| && d[pos] == 1 && d[pos + 1..pos + 1 + d[pos]] == [97]
    ensures [[97]] + Repeated(k - 1) == Repeated(k)
    ensures [[97]] + (Repeated(k - 1) + [[98]]) == Repeated(k) + [[98]]
  {
  }

  lemma {:induction false} LongMet(d: seq<byte>, pos: nat, k: nat)
    requires LongQuery(d) && pos + 2 * k == 140 && pos >= 12
    ensures MetLabels(d, pos, k) == Some(Repeated(k))
    decreases k
  {
    if k > 0 {
      LongLabel(d, pos, k);
      hide LongQuery, Repeated;
      LongMet(d, pos + 2, k - 1);
    }
  }

  lemma {:induction false} LongInPlace(d: seq<byte>, pos: nat, k: nat)
    requires LongQuery(d) && pos + 2 * k == 140 && pos >= 12
    ensures InPlaceLabels(d, pos, k) == Some((Repeated(k), 140))
    decreases k
  {
    if k > 0 {
      LongLabel(d, pos, k);
      hide LongQuery, Repeated;
      LongInPlace(d, pos + 2, k - 1);
    }
  }

  lemma LongEnd(d: seq<byte>)
    requires LongQuery(d)
    ensures Expand(d, 140, 1) == Some([[98]])
  {
    assert d[140] == d[140..][0] && d[141] == d[140..][1] && d[142] == d[140..][2];
    assert d[141..142] == [98];
    assert Expand(d, 142, 0) == Some([]);
    assert [[98]] + [] == [[98]];
  }

  lemma {:induction false} LongExpanded(d: seq<byte>, pos: nat, k: nat)
    requires LongQuery(d) && pos + 2 * k == 140 && pos >= 12
    ensures Expand(d, pos, k + 1) == Some(Repeated(k) + [[98]])
    decreases k
  {
    if k == 0 {
      LongEnd(d);
      assert Repeated(0) + [[98]] == [[98]];
    } else {
      LongLabel(d, pos, k);
      hide LongQuery, Repeated;
      LongExpanded(d, pos + 2, k - 1);
    }
  }

  lemma LongParsed(d: seq<byte>)
    requires LongQuery(d)
    ensures IsQuery(d) && Received(d) == d && ReadLabels(d) == Repeated(MAX_HOPS)
    ensures Expand(d, HEADER, MAX_HOPS + 1) == Some(Repeated(MAX_HOPS) + [[98]])
  {
    hide MetLabels, InPlaceLabels, Expand, ReadName, NameAt, Questions, Repeated, AppendAll;
    LongMet(d, HEADER, MAX_HOPS);
    LongInPlace(d, HEADER, MAX_HOPS);
    LongExpanded(d, HEADER, MAX_HOPS);
    LongNameCutShort(d, HEADER);
    SingleQuestion(d, AppendAll([], Repeated(MAX_HOPS)), 140);
    assert d[4] == d[..12][4] && d[5] == d[..12][5];
  }

  lemma {:induction false} LowerRepeated(k: nat, tail: seq<Octets>)
    ensures LowerAll(Repeated(k) + tail) == Repeated(k) + LowerAll(tail)
  {
    var all := Repeated(k) + tail;
    if k == 0 {
      assert all == tail && Repeated(0) + LowerAll(tail) == LowerAll(tail);
    } else {
      assert all[0] == [97] && Lower([97]) == [97] && all[1..] == Repeated(k - 1) + tail;
      LowerRepeated(k - 1, tail);
      assert [[97]] + (Repeated(k - 1) + LowerAll(tail)) == Repeated(k) + LowerAll(tail);
    }
  }

  /** One query whose decision is not that of the name on the wire: its name has 65 labels and ends
      with the rule, and 64 of them are read. */
  lemma LongNameForwarded() returns (datagram: seq<byte>)
    ensures IsQuery(datagram) && Received(datagram) == datagram && Expand(datagram, HEADER, MAX_HOPS + 1).Some?
    ensures Blocked({[[98]]}, LowerAll(Expand(datagram, HEADER, MAX_HOPS + 1).value))
    ensures Decision({[[98]]}, true, datagram) == Forwarded(Some(datagram))
  {
    hide Expand, ReadLabels, Parsed, Decision, Repeated, Unambiguous;
    datagram := [0, 7, 1, 0, 0, 1, 0, 0, 0, 0, 0, 0]
              + seq(128, i => if i % 2 == 0 then 1 else 97)
              + [1, 98, 0, 0, 1, 0, 1];
    LongParsed(datagram);
    RepeatedNames();
    DecisionOnRead({[[98]]}, true, datagram);
  }

  lemma RepeatedNames()
    ensures Unambiguous(Repeated(MAX_HOPS))
    ensures !Blocked({[[98]]}, LowerAll(Repeated(MAX_HOPS)))
    ensures Blocked({[[98]]}, LowerAll(Repeated(MAX_HOPS) + [[98]]))
  {
    hide LowerAll;
    var name := Repeated(MAX_HOPS);
    LowerRepeated(MAX_HOPS, []);
    LowerRepeated(MAX_HOPS, [[98]]);
    LowerOne();
    assert name + [] == name;
    assert name[MAX_HOPS - 1..][0] == [97] && [97][0] != [98][0];
    assert (name + [[98]])[MAX_HOPS..] == [[98]];
    assert IsSuffix([[98]], name + [[98]]);
  }

  lemma LowerOne()
    ensures LowerAll([]) == [] && LowerAll([[98]]) == [[98]]
  {
    assert Lower([98]) == [98] && [[98]][1..] == [];
  }

  /** A listed domain and everything below it is blocked: whatever text stands before the domain
      and a dot. */
  lemma SubdomainBlocked(rules: set<DomainRules.Name>, sub: seq<byte>, domain: seq<byte>)
    requires Unspaced(sub) && Unspaced(domain) && Labels(domain) in rules
    ensures Blocked(rules, Labels(domain)) && Blocked(rules, Labels(sub + [46] + domain))
  {
    hide Labels, Unspaced;
    SubdomainLabels(sub, domain);
    var whole, tail := Labels(sub) + Labels(domain), Labels(domain);
    assert whole[|whole| - |tail|..] == tail && tail[0..] == tail;
    assert IsSuffix(tail, whole) && IsSuffix(tail, tail);
  }

  /** Ending in the same text is not enough: a longer last label is another domain. */
  lemma LongerLabelFree(c: byte, domain: seq<byte>)
    requires domain != [] && c != DOT && !IsSpace(c) && Unspaced(domain) && HasNo(domain, DOT)
    ensures !Blocked({Labels(domain)}, Labels([c] + domain))
  {
    hide Lower, Labels;
    assert Unspaced([c] + domain) && HasNo([c] + domain, DOT);
    OneLabel(domain);
    OneLabel([c] + domain);
    assert [Lower([c] + domain)][0..] == [Lower([c] + domain)];
    LowerLength(domain);
    LowerLength([c] + domain);
  }

  lemma LowerLength(s: seq<byte>)
    ensures |Lower(s)| == |s|
  {
  }

  lemma OneLabel(domain: seq<byte>)
    requires domain != [] && Unspaced(domain) && HasNo(domain, DOT)
    ensures Labels(domain) == [Lower(domain)]
  {
    UnspacedLabels(domain);
    hide Lower;
    FindIs(domain, DOT, |domain|);
    assert domain[..|domain|] == domain;
  }

  /** The decision looks at nothing but the first question's name. */
  lemma FirstQuestionDecides(rules: set<DomainRules.Name>, upstream: bool, a: seq<byte>, b: seq<byte>)
    requires IsQuery(a) && IsQuery(b)
    requires Parsed(Received(a)).value.questions[0].qname == Parsed(Received(b)).value.questions[0].qname
    ensures Decision(rules, upstream, a).Sinkholed? <==> Decision(rules, upstream, b).Sinkholed?
  {
    hide Parsed, Labels, Blocked, Sinkhole;
    NonEmptyData(Received(a));
    NonEmptyData(Received(b));
  }

  /** One such case: the second question is on the list, and the message is forwarded whole. */
  lemma SecondQuestionForwarded() returns (datagram: seq<byte>, packet: DnsPacket)
    ensures Received(datagram) == datagram && Parsed(datagram) == Some(packet)
    ensures |packet.questions| == 2 && Blocked({[[98]]}, Labels(packet.questions[1].qname))
    ensures Decision({[[98]]}, true, datagram) == Forwarded(Some(datagram))
  {
    hide Labels, Parsed, Blocked, Sinkhole;
    datagram := [0, 7, 1, 0, 0, 2, 0, 0, 0, 0, 0, 0, 1, 97, 0, 0, 1, 0, 1, 1, 98, 0, 0, 1, 0, 1];
    packet := DnsPacket(7, 256, [DnsQuestion([97], 1, 1), DnsQuestion([98], 1, 1)]);
    TwoQuestions(datagram);
    OneOctetLabels(97);
    OneOctetLabels(98);
    ItselfAlone(98, 97);
  }

  lemma TwoQuestions(data: seq<byte>)
    requires data == [0, 7, 1, 0, 0, 2, 0, 0, 0, 0, 0, 0, 1, 97, 0, 0, 1, 0, 1, 1, 98, 0, 0, 1, 0, 1]
    ensures Parsed(data) == Some(DnsPacket(7, 256, [DnsQuestion([97], 1, 1), DnsQuestion([98], 1, 1)]))
  {
    hide NameAt, Questions;
    OneOctetName(data, 12);
    OneOctetName(data, 19);
    NoQuestion(data, 26);
    NextQuestion(data, 19, 0, [98], 22, []);
    var first, second := DnsQuestion([97], 1, 1), DnsQuestion([98], 1, 1);
    assert [second] + [] == [second];
    assert Questions(data, 19, 1) == Some([second]);
    NextQuestion(data, 12, 1, [97], 15, [second]);
    assert [first] + [second] == [first, second];
  }

  lemma NoQuestion(data: seq<byte>, offset: nat)
    ensures Questions(data, offset, 0) == Some([])
  {
  }

  lemma NextQuestion(data: seq<byte>, offset: nat, more: nat, name: seq<byte>, next: nat, rest: seq<DnsQuestion>)
    requires NameAt(data, offset) == Name(name, next) && next + 4 <= |data|
    requires Questions(data, next + 4, more) == Some(rest)
    ensures Questions(data, offset, more + 1)
         == Some([DnsQuestion(name, ReadU16(data, next), ReadU16(data, next + 2))] + rest)
  {
    hide NameAt, ReadU16;
  }

  /** A one-label rule blocks that label and no other. */
  lemma ItselfAlone(rule: byte, other: byte)
    requires rule != other
    ensures Blocked({[[rule]]}, [[rule]]) && !Blocked({[[rule]]}, [[other]])
  {
    assert IsSuffix([[rule]], [[rule]]);
    assert [[other]][0..] == [[other]] && [other][0] != [rule][0];
  }

  lemma OneOctetName(data: seq<byte>, pos: nat)
    requires pos + 2 < |data| && data[pos] == 1 && data[pos + 2] == 0 && ToLower(data[pos + 1]) == data[pos + 1]
    ensures NameAt(data, pos) == Name([data[pos + 1]], pos + 3)
  {
    var l := data[pos + 1..pos + 2];
    assert l == [data[pos + 1]] && Lower(l) == l && AppendLabel([], l) == l;
    assert ReadName(data, pos + 2, 1, false, pos + 2, l) == Name(l, pos + 3);
  }

  lemma OneOctetLabels(c: byte)
    requires c != DOT && !IsSpace(c) && ToLower(c) == c
    ensures Labels([c]) == [[c]]
  {
    assert DomainLabels.Proper([c]) by { assert Lower([c]) == [c]; }
    LabelsOfJoin([[c]]);
  }
}
