/** The sinkhole response read back: exactly which questions survive, and that the answer is
    one well-formed resource record for the question's name. */
module DnsRoundTrip {
  import opened Bytes
  import opened DomainLabels
  import opened DnsName
  import opened DnsPacket

  // ---------- Names made of non-empty labels ----------

  /** 1 to k non-empty stretches joined by single dots. */
  predicate Dotted(q: seq<byte>, k: nat)
    decreases k
  {
    q != [] && k > 0 &&
    var n := Find(q, DOT);
    n > 0 && (n == |q| || Dotted(q[n + 1..], k - 1))
  }

  function Pieces(q: seq<byte>): seq<Octets>
    decreases |q|
  {
    if q == [] then []
    else
      var n := Find(q, DOT);
      [q[..n]] + if n < |q| then Pieces(q[n + 1..]) else []
  }

  lemma {:induction false} DottedMore(q: seq<byte>, k: nat, m: nat)
    requires Dotted(q, k) && k <= m
    ensures Dotted(q, m)
    decreases k
  {
    hide Find;
    var n := Find(q, DOT);
    if n < |q| { DottedMore(q[n + 1..], k - 1, m - 1); }
  }

  predicate PlainLabel(l: Octets) { l != [] && HasNo(l, DOT) }

  lemma DottedHead(l: Octets, rest: seq<byte>, k: nat)
    requires PlainLabel(l) && k > 0 && (rest == [] || (rest[0] == DOT && Dotted(rest[1..], k - 1)))
    ensures Dotted(l + rest, k)
  {
    var q := l + rest;
    FindIs(q, DOT, |l|);
    if rest != [] { assert q[|l| + 1..] == rest[1..]; }
  }

  /** Joining 1 to k plain labels gives a dotted name ... */
  lemma {:induction false} JoinDotted(labels: seq<Octets>, k: nat)
    requires labels != [] && |labels| <= k && forall l :: l in labels ==> PlainLabel(l)
    ensures Dotted(Join(labels), k)
    decreases |labels|
  {
    hide Dotted, PlainLabel;
    assert labels == [labels[0]] + labels[1..];
    JoinCons(labels[0], labels[1..]);
    var tail := [DOT] + Join(labels[1..]);
    if |labels| > 1 {
      JoinDotted(labels[1..], k - 1);
      assert tail[1..] == Join(labels[1..]);
      DottedHead(labels[0], tail, k);
    } else {
      DottedHead(labels[0], [], k);
    }
  }

  /** ... and every dotted name arises that way, from its pieces. */
  lemma {:induction false} DottedPieces(q: seq<byte>, k: nat)
    requires Dotted(q, k)
    ensures 1 <= |Pieces(q)| <= k && Join(Pieces(q)) == q
    ensures forall l :: l in Pieces(q) ==> PlainLabel(l)
    decreases k
  {
    var n := Find(q, DOT);
    if n < |q| {
      DottedPieces(q[n + 1..], k - 1);
      JoinCons(q[..n], Pieces(q[n + 1..]));
      assert q == q[..n] + ([DOT] + q[n + 1..]);
    } else {
      JoinCons(q[..n], []);
      assert q[..n] == q && Pieces(q) == [q[..n]] + [];
    }
  }

  // ---------- Reading an encoded name back ----------

  function AfterPiece(q: seq<byte>): seq<byte>
    requires q != []
  {
    var n := Find(q, DOT);
    if n < |q| then q[n + 1..] else []
  }

  lemma AfterPieceShorter(q: seq<byte>)
    requires q != []
    ensures |AfterPiece(q)| < |q|
  {
  }

  /** What the reading loop makes of the encoding of `q`: the name, and the octets consumed.
      An empty stretch is written as a zero octet and so read as the end of the name. */
  function Reread(q: seq<byte>, hops: nat, acc: seq<byte>): (seq<byte>, nat)
    decreases |q|
  {
    if hops >= MAX_HOPS then (acc, 0)
    else if q == [] || Find(q, DOT) == 0 then (acc, 1)
    else
      AfterPieceShorter(q);
      var n := Find(q, DOT);
      var (name, used) := Reread(AfterPiece(q), hops + 1, AppendLabel(acc, q[..n]));
      (name, 1 + n + used)
  }

  /** The encoding of the name stands in the message at a position. */
  ghost predicate EncodedAt(data: seq<byte>, pos: nat, q: seq<byte>) {
    var e := EncodedLabels(q) + [0];
    pos + |e| <= |data| && data[pos..pos + |e|] == e
  }

  lemma EncodedEnd(data: seq<byte>, pos: nat, q: seq<byte>)
    requires EncodedAt(data, pos, q) && (q == [] || Find(q, DOT) == 0)
    ensures pos < |data| && data[pos] == 0
  {
    var e := EncodedLabels(q) + [0];
    assert e[0] == 0;
    assert data[pos] == data[pos..pos + |e|][0];
  }

  lemma EncodedHead(data: seq<byte>, pos: nat, q: seq<byte>)
    requires EncodedAt(data, pos, q) && q != [] && Find(q, DOT) < COMPRESSED
    ensures var n := Find(q, DOT);
            && pos + 1 + n <= |data| && data[pos] == n && data[pos + 1..pos + 1 + n] == q[..n]
            && EncodedAt(data, pos + 1 + n, AfterPiece(q))
            && |EncodedLabels(q)| == 1 + n + |EncodedLabels(AfterPiece(q))|
  {
    hide EncodedLabels, Find, AfterPiece;
    var n := Find(q, DOT);
    FindFits(q);
    EncodedSplit(q);
    var rest := EncodedLabels(AfterPiece(q));
    TerminatedConcat(n, q[..n], rest);
    EncodedShift(data, pos, n, q[..n], rest + [0]);
  }

  lemma FindFits(q: seq<byte>)
    ensures Find(q, DOT) <= |q|
  {
  }

  lemma EncodedSplit(q: seq<byte>)
    requires q != [] && Find(q, DOT) < COMPRESSED
    ensures EncodedLabels(q) == [Find(q, DOT)] + q[..Find(q, DOT)] + EncodedLabels(AfterPiece(q))
  {
    hide EncodedLabels, Find, AfterPiece;
    FindFits(q);
    assert Find(q, DOT) % 256 == Find(q, DOT);
    EncodedUnfold(q);
    EncodedNone();
    AfterPieceIs(q);
  }

  lemma TerminatedConcat(n: byte, l: seq<byte>, rest: seq<byte>)
    ensures ([n] + l + rest) + [0] == [n] + l + (rest + [0])
  {
  }

  lemma EncodedLength(q: seq<byte>)
    requires q != []
    ensures |EncodedLabels(q)| == 1 + Find(q, DOT) + |EncodedLabels(AfterPiece(q))|
  {
    hide EncodedLabels, Find, AfterPiece;
    FindFits(q);
    EncodedUnfold(q);
    EncodedNone();
    AfterPieceIs(q);
  }

  lemma EncodedNone()
    ensures EncodedLabels([]) == []
  {
  }

  lemma EncodedShift(data: seq<byte>, pos: nat, n: byte, l: seq<byte>, rest: seq<byte>)
    requires |l| == n && pos + 1 + n + |rest| <= |data|
    requires data[pos..pos + 1 + n + |rest|] == [n] + l + rest
    ensures data[pos] == n && data[pos + 1..pos + 1 + n] == l
    ensures data[pos + 1 + n..pos + 1 + n + |rest|] == rest
  {
    var end := pos + 1 + n + |rest|;
    SliceSlice(data, pos, end, 1, 1 + n);
    SliceSlice(data, pos, end, 1 + n, 1 + n + |rest|);
    assert data[pos] == data[pos..end][0];
  }

  lemma SliceSlice(s: seq<byte>, lo: nat, hi: nat, i: nat, j: nat)
    requires lo <= hi <= |s| && i <= j <= hi - lo
    ensures s[lo..hi][i..j] == s[lo + i..lo + j]
  {
    var a, b := s[lo..hi][i..j], s[lo + i..lo + j];
    forall k | 0 <= k < |a| ensures a[k] == b[k] {
      assert a[k] == s[lo..hi][i + k];
    }
  }

  lemma ReadableSuffix(q: seq<byte>, from: nat)
    requires Readable(q) && from <= |q|
    ensures Readable(q[from..])
  {
    var r := q[from..];
    forall k | 0 <= k < |r| ensures ToLower(r[k]) == r[k] {
      assert Lower(q)[from + k] == ToLower(q[from + k]);
    }
    assert Lower(r) == r;
    forall i | 0 <= i && i + COMPRESSED <= |r| ensures DotWithin(r, i) {
      assert DotWithin(q, from + i);
      var j :| from + i <= j < from + i + COMPRESSED && q[j] == DOT;
      assert r[j - from] == DOT;
    }
  }

  /** The first piece of a readable name is in lower case and fits a length octet below 192. */
  lemma ReadableHead(q: seq<byte>)
    requires Readable(q) && q != []
    ensures Find(q, DOT) < COMPRESSED && Lower(q[..Find(q, DOT)]) == q[..Find(q, DOT)]
    ensures Readable(AfterPiece(q))
  {
    var n := Find(q, DOT);
    if COMPRESSED <= |q| {
      assert DotWithin(q, 0);
      FirstDotWithin(q);
    }
    assert Lower(q)[..n] == Lower(q[..n]);
    ReadableSuffix(q, if n < |q| then n + 1 else |q|);
    assert AfterPiece(q) == q[if n < |q| then n + 1 else |q|..];
  }

  lemma FirstDotWithin(q: seq<byte>)
    requires COMPRESSED <= |q| && DotWithin(q, 0)
    ensures Find(q, DOT) < COMPRESSED
  {
    hide Find;
    FindBound(q, DOT);
    var j :| 0 <= j < COMPRESSED && q[j] == DOT;
  }

  lemma {:induction false} RereadIsRead(data: seq<byte>, pos: nat, q: seq<byte>, hops: nat, acc: seq<byte>)
    requires EncodedAt(data, pos, q) && Readable(q)
    ensures ReadName(data, pos, hops, false, pos, acc) == Name(Reread(q, hops, acc).0, pos + Reread(q, hops, acc).1)
    decreases |q|
  {
    hide EncodedLabels, Find, Readable, AppendLabel, EncodedAt, AfterPiece;
    if hops < MAX_HOPS {
      if q == [] || Find(q, DOT) == 0 {
        EncodedEnd(data, pos, q);
      } else {
        var n := Find(q, DOT);
        ReadableHead(q);
        EncodedHead(data, pos, q);
        AfterPieceShorter(q);
        RereadIsRead(data, pos + 1 + n, AfterPiece(q), hops + 1, AppendLabel(acc, q[..n]));
      }
    }
  }

  /** The name that would make the round trip exact. */
  function Target(acc: seq<byte>, q: seq<byte>): seq<byte> { (if acc != [] then acc + [DOT] else []) + q }

  lemma TargetStep(acc: seq<byte>, q: seq<byte>)
    requires Readable(q) && q != [] && Find(q, DOT) > 0
    ensures AppendLabel(acc, q[..Find(q, DOT)]) != []
    ensures Find(q, DOT) < |q| ==> Target(AppendLabel(acc, q[..Find(q, DOT)]), AfterPiece(q)) == Target(acc, q)
    ensures Find(q, DOT) == |q| ==> AppendLabel(acc, q[..Find(q, DOT)]) == Target(acc, q)
  {
    hide Readable, AfterPiece, AppendLabel, Lower, Find;
    var n := Find(q, DOT);
    ReadableHead(q);
    AfterPieceIs(q);
    AppendLower(acc, q[..n]);
    if n == |q| { assert q[..n] == q; } else { TargetSplit(acc, q, n); }
  }

  lemma AppendLower(acc: seq<byte>, label': seq<byte>)
    requires Lower(label') == label'
    ensures AppendLabel(acc, label') == (if acc != [] then acc + [DOT] else []) + label'
  {
  }

  lemma TargetSplit(acc: seq<byte>, q: seq<byte>, n: nat)
    requires n < |q| && q[n] == DOT
    ensures (if acc != [] then acc + [DOT] else []) + q[..n] + [DOT] + q[n + 1..] == Target(acc, q)
  {
    assert q == q[..n] + [DOT] + q[n + 1..];
  }

  lemma {:induction false} RereadExact(q: seq<byte>, hops: nat, acc: seq<byte>)
    requires Readable(q) && hops <= MAX_HOPS && (hops > 0 ==> acc != [])
    ensures Reread(q, hops, acc).0 == Target(acc, q) <==> (q == [] && acc == []) || Dotted(q, MAX_HOPS - hops)
    decreases |q|
  {
    hide EncodedLabels, Readable, AppendLabel, AfterPiece, Reread, Dotted, Target, Find;
    RereadUnfold(q, hops, acc);
    DottedUnfold(q, MAX_HOPS - hops);
    if hops < MAX_HOPS && q != [] && Find(q, DOT) > 0 {
      var n := Find(q, DOT);
      ReadableHead(q);
      AfterPieceShorter(q);
      TargetStep(acc, q);
      AfterPieceIs(q);
      FindBound(q, DOT);
      if n < |q| {
        RereadExact(AfterPiece(q), hops + 1, AppendLabel(acc, q[..n]));
      } else {
        RereadUnfold(AfterPiece(q), hops + 1, AppendLabel(acc, q[..n]));
      }
    } else {
      TargetLonger(acc, q);
    }
  }

  lemma RereadUnfold(q: seq<byte>, hops: nat, acc: seq<byte>)
    ensures Reread(q, hops, acc).0
         == if hops >= MAX_HOPS || q == [] || Find(q, DOT) == 0 then acc
            else Reread(AfterPiece(q), hops + 1, AppendLabel(acc, q[..Find(q, DOT)])).0
  {
    hide AppendLabel, AfterPiece;
  }

  lemma DottedUnfold(q: seq<byte>, k: nat)
    ensures Dotted(q, k) <==> && q != [] && k > 0 && Find(q, DOT) > 0
                              && (Find(q, DOT) == |q| || Dotted(AfterPiece(q), k - 1))
  {
  }

  lemma TargetLonger(acc: seq<byte>, q: seq<byte>)
    ensures Target(acc, q) == acc <==> q == [] && acc == []
  {
  }

  lemma AfterPieceIs(q: seq<byte>)
    requires q != []
    ensures AfterPiece(q) == if Find(q, DOT) < |q| then q[Find(q, DOT) + 1..] else []
  {
  }

  lemma {:induction false} RereadUsed(q: seq<byte>, hops: nat, acc: seq<byte>)
    requires hops < MAX_HOPS && Dotted(q, MAX_HOPS - hops)
    ensures Reread(q, hops, acc).1 == |EncodedLabels(q)| + if Dotted(q, MAX_HOPS - 1 - hops) then 1 else 0
    decreases |q|
  {
    hide AppendLabel, AfterPiece;
    var n := Find(q, DOT);
    AfterPieceShorter(q);
    AfterPieceIs(q);
    if n < |q| { RereadUsed(AfterPiece(q), hops + 1, AppendLabel(acc, q[..n])); }
  }

  // ---------- The response as a message ----------

  /** Where the answer record starts. */
  function AnswerOffset(packet: DnsPacket): nat
    requires packet.questions != []
  {
    HEADER + |EncodedLabels(packet.questions[0].qname)| + 5
  }

  /** `part` stands in the message at a position. */
  ghost predicate PartAt(data: seq<byte>, pos: nat, part: seq<byte>) {
    pos + |part| <= |data| && data[pos..pos + |part|] == part
  }

  lemma PartOfConcat(a: seq<byte>, b: seq<byte>, c: seq<byte>)
    ensures PartAt(a + b + c, |a|, b)
  {
  }

  lemma PartOfPart(data: seq<byte>, pos: nat, part: seq<byte>, at: nat, inner: seq<byte>)
    requires PartAt(data, pos, part) && PartAt(part, at, inner)
    ensures PartAt(data, pos + at, inner)
  {
    SliceSlice(data, pos, pos + |part|, at, at + |inner|);
  }

  lemma ReadU16At(data: seq<byte>, at: nat, n: u16)
    requires PartAt(data, at, U16(n))
    ensures at + 1 < |data| && ReadU16(data, at) == n
  {
    assert data[at] == data[at..at + 2][0] && data[at + 1] == data[at..at + 2][1];
  }

  lemma ResponseParts(packet: DnsPacket)
    requires packet.questions != []
    ensures var r, q := Sinkhole(packet), packet.questions[0];
            var name := |EncodedLabels(q.qname)|;
            && |r| == AnswerOffset(packet) + 12 + AddressLength(q.qtype)
            && PartAt(r, 0, EncodedHeader(packet.id)) && EncodedAt(r, HEADER, q.qname)
            && PartAt(r, HEADER + name, [0] + U16(q.qtype) + U16(q.qclass))
            && PartAt(r, AnswerOffset(packet), EncodedAnswer(q.qtype))
  {
    hide EncodedLabels, U16, EncodedAnswer;
    var q := packet.questions[0];
    var h, n := EncodedHeader(packet.id), EncodedLabels(q.qname);
    var z, a := [0] + U16(q.qtype) + U16(q.qclass), EncodedAnswer(q.qtype);
    ResponseSizes(packet.id, q);
    var r := Sinkhole(packet);
    assert r == [] + h + (n + z + a);
    PartOfConcat([], h, n + z + a);
    assert r == h + (n + [0]) + (U16(q.qtype) + U16(q.qclass) + a);
    PartOfConcat(h, n + [0], U16(q.qtype) + U16(q.qclass) + a);
    assert r == (h + n) + z + a;
    PartOfConcat(h + n, z, a);
    assert r == (h + n + z) + a + [];
    PartOfConcat(h + n + z, a, []);
  }

  lemma ResponseSizes(id: u16, q: DnsQuestion)
    ensures |EncodedHeader(id)| == HEADER && |[0] + U16(q.qtype) + U16(q.qclass)| == 5
    ensures |EncodedAnswer(q.qtype)| == 12 + AddressLength(q.qtype)
  {
  }

  /** The header announces one question and one answer, with the query's id. */
  lemma ResponseHeader(packet: DnsPacket)
    requires packet.questions != []
    ensures var r := Sinkhole(packet);
            && |r| >= HEADER && ReadU16(r, 0) == packet.id && ReadU16(r, 2) == 0x8180
            && ReadU16(r, 4) == 1 && ReadU16(r, 6) == 1 && ReadU16(r, 8) == 0 && ReadU16(r, 10) == 0
  {
    ResponseParts(packet);
    hide EncodedLabels, ReadU16, PartAt, Sinkhole, EncodedAnswer;
    var r, h := Sinkhole(packet), EncodedHeader(packet.id);
    HeaderParts(packet.id);
    PartOfPart(r, 0, h, 0, U16(packet.id));
    PartOfPart(r, 0, h, 2, U16(RESPONSE_FLAGS));
    PartOfPart(r, 0, h, 4, U16(1));
    PartOfPart(r, 0, h, 6, U16(1));
    PartOfPart(r, 0, h, 8, U16(0));
    PartOfPart(r, 0, h, 10, U16(0));
    ReadU16At(r, 0, packet.id); ReadU16At(r, 2, RESPONSE_FLAGS); ReadU16At(r, 4, 1);
    ReadU16At(r, 6, 1); ReadU16At(r, 8, 0); ReadU16At(r, 10, 0);
  }

  /** The same, octet by octet. */
  lemma HeaderOctets(packet: DnsPacket)
    requires packet.questions != []
    ensures |Sinkhole(packet)| >= 12
    ensures Sinkhole(packet)[..12] == [packet.id / 256, packet.id % 256, 0x81, 0x80, 0, 1, 0, 1, 0, 0, 0, 0]
  {
    hide EncodedQuestion, EncodedAnswer;
  }

  lemma HeaderParts(id: u16)
    ensures var h := EncodedHeader(id);
            && PartAt(h, 0, U16(id)) && PartAt(h, 2, U16(RESPONSE_FLAGS)) && PartAt(h, 4, U16(1))
            && PartAt(h, 6, U16(1)) && PartAt(h, 8, U16(0)) && PartAt(h, 10, U16(0))
  {
  }

  /** Reading the question section back: the re-read name, then the two words behind it. */
  lemma ResponseQuestions(packet: DnsPacket)
    requires packet.questions != [] && Readable(packet.questions[0].qname)
    ensures var r, q := Sinkhole(packet), packet.questions[0];
            var (name, used) := Reread(q.qname, 0, []);
            NameAt(r, HEADER) == Name(name, HEADER + used)
  {
    ResponseParts(packet);
    RereadIsRead(Sinkhole(packet), HEADER, packet.questions[0].qname, 0, []);
  }

  /** The words that follow the name, when all of it was read, or all but the terminator. */
  lemma QuestionWords(packet: DnsPacket)
    requires packet.questions != []
    ensures var r, q := Sinkhole(packet), packet.questions[0];
            var end := HEADER + |EncodedLabels(q.qname)|;
            && end + 5 <= |r|
            && ReadU16(r, end + 1) == q.qtype && ReadU16(r, end + 3) == q.qclass
            && ReadU16(r, end) == q.qtype / 256 && ReadU16(r, end + 2) == (q.qtype % 256) * 256 + q.qclass / 256
  {
    hide EncodedLabels, Sinkhole, EncodedAnswer, EncodedAt, EncodedHeader, ReadU16, U16;
    ResponseParts(packet);
    var q := packet.questions[0];
    WordsAt(Sinkhole(packet), HEADER + |EncodedLabels(q.qname)|, q.qtype, q.qclass);
  }

  lemma WordsAt(r: seq<byte>, at: nat, a: u16, b: u16)
    requires PartAt(r, at, [0] + U16(a) + U16(b))
    ensures at + 5 <= |r| && ReadU16(r, at + 1) == a && ReadU16(r, at + 3) == b
    ensures ReadU16(r, at) == a / 256 && ReadU16(r, at + 2) == (a % 256) * 256 + b / 256
  {
    var w := r[at..at + 5];
    assert w == [0] + U16(a) + U16(b);
    assert forall k :: 0 <= k < 5 ==> r[at + k] == w[k];
  }

  /** The corner in which a name of exactly 64 labels comes back: the loop stops before the
      terminator, and two zero words look the same one octet earlier. */
  predicate ZeroWords(q: DnsQuestion) { q.qtype == 0 && q.qclass == 0 }

  lemma SingleQuestion(data: seq<byte>, name: seq<byte>, next: nat)
    requires NameAt(data, HEADER) == Name(name, next) && next + 4 <= |data|
    ensures Questions(data, HEADER, 1) == Some([DnsQuestion(name, ReadU16(data, next), ReadU16(data, next + 2))])
  {
    hide ReadName, ReadU16;
    assert Questions(data, next + 4, 0) == Some([]);
    var q := DnsQuestion(name, ReadU16(data, next), ReadU16(data, next + 2));
    assert [q] + [] == [q];
  }

  lemma {:induction false} RereadUsedBound(q: seq<byte>, hops: nat, acc: seq<byte>)
    requires Readable(q)
    ensures Reread(q, hops, acc).1 <= |EncodedLabels(q)| + 1
    decreases |q|
  {
    hide AppendLabel, Readable, EncodedLabels, Find, AfterPiece;
    if hops < MAX_HOPS && q != [] && Find(q, DOT) > 0 {
      ReadableHead(q);
      AfterPieceShorter(q);
      EncodedLength(q);
      RereadUsedBound(AfterPiece(q), hops + 1, AppendLabel(acc, q[..Find(q, DOT)]));
    }
  }

  /** What parsing the response yields, whatever the name. */
  lemma ResponseParsed(packet: DnsPacket)
    requires packet.questions != [] && Readable(packet.questions[0].qname)
    ensures var r, q := Sinkhole(packet), packet.questions[0];
            var (name, used) := Reread(q.qname, 0, []);
            && HEADER + used + 4 <= |r|
            && Parsed(r) == Some(DnsPacket(packet.id, RESPONSE_FLAGS,
                 [DnsQuestion(name, ReadU16(r, HEADER + used), ReadU16(r, HEADER + used + 2))]))
  {
    var r, q := Sinkhole(packet), packet.questions[0];
    var (name, used) := Reread(q.qname, 0, []);
    ResponseHeader(packet);
    ResponseQuestions(packet);
    QuestionWords(packet);
    RereadUsedBound(q.qname, 0, []);
    hide Reread, Sinkhole, Questions, EncodedLabels, ReadName, NameAt, ReadU16, Readable;
    SingleQuestion(r, name, HEADER + used);
  }

  /** The words read back are the question's own, or those shifted by one octet. */
  lemma ResponseWords(packet: DnsPacket)
    requires packet.questions != [] && Readable(packet.questions[0].qname)
    ensures var r, q := Sinkhole(packet), packet.questions[0];
            var at := HEADER + Reread(q.qname, 0, []).1;
            && at + 4 <= |r|
            && (q.qname == [] || Dotted(q.qname, MAX_HOPS - 1) ==>
                  ReadU16(r, at) == q.qtype && ReadU16(r, at + 2) == q.qclass)
            && (Dotted(q.qname, MAX_HOPS) && !Dotted(q.qname, MAX_HOPS - 1) ==>
                  ReadU16(r, at) == q.qtype / 256 && ReadU16(r, at + 2) == (q.qtype % 256) * 256 + q.qclass / 256)
  {
    hide Sinkhole, Parsed, Dotted, EncodedLabels, ReadU16, Readable, Reread;
    var q := packet.questions[0];
    ResponseParsed(packet);
    QuestionWords(packet);
    if Dotted(q.qname, MAX_HOPS - 1) { DottedMore(q.qname, MAX_HOPS - 1, MAX_HOPS); }
    if Dotted(q.qname, MAX_HOPS) { RereadUsed(q.qname, 0, []); }
    RereadEmpty();
  }

  /** The response carries the question back exactly when the name is empty or made of 1 to 63
      non-empty labels; one further corner is a name of 64 labels with type and class 0. */
  lemma RoundTripIff(packet: DnsPacket)
    requires packet.questions != [] && Readable(packet.questions[0].qname)
    ensures Parsed(Sinkhole(packet)) == Some(DnsPacket(packet.id, 0x8180, [packet.questions[0]]))
       <==> RoundTrips(packet.questions[0])
  {
    hide Sinkhole, Parsed, Dotted, ReadU16, Readable, Reread, Target;
    var q := packet.questions[0];
    ResponseParsed(packet);
    ResponseWords(packet);
    RereadExact(q.qname, 0, []);
    TargetStart(q.qname);
    if Dotted(q.qname, MAX_HOPS - 1) { DottedMore(q.qname, MAX_HOPS - 1, MAX_HOPS); }
    ShiftedWords(q.qtype, q.qclass);
  }

  predicate RoundTrips(q: DnsQuestion) {
    q.qname == [] || Dotted(q.qname, MAX_HOPS - 1) || (Dotted(q.qname, MAX_HOPS) && ZeroWords(q))
  }

  /** One such query: its name is one label, "a..b"; of this only "a" comes back. */
  lemma DotsLost() returns (datagram: seq<byte>)
    ensures Parsed(datagram) == Some(DnsPacket(7, 256, [DnsQuestion([97, DOT, DOT, 98], 1, 1)]))
    ensures var packet := Parsed(datagram).value;
            Parsed(Sinkhole(packet)) != Some(DnsPacket(packet.id, 0x8180, [packet.questions[0]]))
  {
    var name := [97, DOT, DOT, 98];
    datagram := DottedQuery(name);
    FirstReadable(datagram);
    hide Sinkhole, Parsed, Readable;
    FindIs(name, DOT, 1);
    var rest := name[2..];
    assert rest == [DOT, 98];
    FindIs(rest, DOT, 0);
    NotDotted(name, MAX_HOPS - 1);
    NotDotted(name, MAX_HOPS);
    RoundTripIff(Parsed(datagram).value);
  }

  lemma FirstReadable(data: seq<byte>)
    requires Parsed(data).Some? && Parsed(data).value.questions != []
    ensures Readable(Parsed(data).value.questions[0].qname)
  {
    ParsedReadable(data);
    hide Parsed, Readable;
  }

  lemma DottedQuery(name: seq<byte>) returns (datagram: seq<byte>)
    requires name == [97, DOT, DOT, 98]
    ensures Parsed(datagram) == Some(DnsPacket(7, 256, [DnsQuestion(name, TYPE_A, CLASS_IN)]))
  {
    hide ReadName, NameAt, Questions;
    datagram := [0, 7, 1, 0, 0, 1, 0, 0, 0, 0, 0, 0, 4, 97, 46, 46, 98, 0, 0, 1, 0, 1];
    DottedName(datagram, name);
    SingleQuestion(datagram, name, 18);
    assert ReadU16(datagram, 0) == 7 && ReadU16(datagram, 2) == 256 && ReadU16(datagram, 4) == 1;
    assert ReadU16(datagram, 18) == TYPE_A && ReadU16(datagram, 20) == CLASS_IN;
  }

  lemma DottedName(datagram: seq<byte>, name: seq<byte>)
    requires name == [97, DOT, DOT, 98] && |datagram| == 22
    requires datagram[12] == 4 && datagram[13..17] == name && datagram[17] == 0
    ensures NameAt(datagram, HEADER) == Name(name, 18)
  {
    assert Lower(name) == name;
    assert ReadName(datagram, 17, 1, false, 17, name) == Name(name, 18);
    assert AppendLabel([], name) == name;
  }

  lemma NotDotted(q: seq<byte>, k: nat)
    requires q != [] && 0 < Find(q, DOT) < |q| - 1 && Find(q[Find(q, DOT) + 1..], DOT) == 0
    ensures !Dotted(q, k)
  {
  }

  lemma TargetStart(q: seq<byte>)
    ensures Target([], q) == q
  {
  }

  lemma RereadEmpty()
    ensures Reread([], 0, []) == ([], 1) && EncodedLabels([]) == []
  {
  }

  lemma ShiftedWords(t: u16, c: u16)
    ensures t / 256 == t && (t % 256) * 256 + c / 256 == c <==> t == 0 && c == 0
  {
  }

  /** The labels of the first question, as far as the loop reads them. */
  function ReadLabels(data: seq<byte>): seq<Octets> {
    var met := MetLabels(data, HEADER, MAX_HOPS);
    if met.Some? then met.value else []
  }

  /** The first question of a parsed message carries the labels met in 64 hops. */
  lemma QuestionName(data: seq<byte>)
    requires Parsed(data).Some? && Parsed(data).value.questions != []
    ensures MetLabels(data, HEADER, MAX_HOPS) == Some(ReadLabels(data))
    ensures Parsed(data).value.questions[0].qname == Join(LowerAll(ReadLabels(data)))
    ensures Readable(Join(LowerAll(ReadLabels(data))))
    ensures NonEmptyLabels(ReadLabels(data)) && |ReadLabels(data)| <= MAX_HOPS
  {
    hide ReadName, Readable, Join, LowerAll, MetLabels;
    ParsedReadable(data);
    NameIsMet(data, HEADER);
  }

  /** A joined name has as many stretches as labels. */
  lemma DottedJoin(labels: seq<Octets>, k: nat)
    requires labels != [] && forall l :: l in labels ==> PlainLabel(l)
    ensures Dotted(Join(labels), k) <==> |labels| <= k
  {
    hide Dotted, Join, Pieces, PlainLabel;
    if |labels| <= k { JoinDotted(labels, k); }
    if Dotted(Join(labels), k) {
      DottedPieces(Join(labels), k);
      PiecesOfJoin(labels);
    }
  }

  lemma LowerAllNothing()
    ensures LowerAll([]) == [] && Join([]) == []
  {
  }

  /** Every parsed query whose first name was read without a dot inside a label gets its question
      back exactly when fewer than 64 labels were read, or type and class are 0. */
  lemma ParsedRoundTrip(data: seq<byte>)
    requires Parsed(data).Some? && Parsed(data).value.questions != []
    requires forall l :: l in ReadLabels(data) ==> HasNo(l, DOT)
    ensures var packet := Parsed(data).value;
            && packet.questions[0].qname == Join(LowerAll(ReadLabels(data)))
            && (Parsed(Sinkhole(packet)) == Some(DnsPacket(packet.id, 0x8180, [packet.questions[0]]))
                <==> |ReadLabels(data)| < MAX_HOPS || ZeroWords(packet.questions[0]))
  {
    hide Parsed, Sinkhole, Readable, ReadLabels, Dotted, Join, LowerAll, ZeroWords;
    QuestionName(data);
    RoundTripIff(Parsed(data).value);
    var labels := LowerAll(ReadLabels(data));
    LowerPlain(ReadLabels(data));
    LowerAllNothing();
    if labels == [] {
      assert Join(labels) == [];
    } else {
      JoinNotEmpty(labels);
      DottedJoin(labels, MAX_HOPS - 1);
      DottedJoin(labels, MAX_HOPS);
    }
  }

  lemma JoinNotEmpty(labels: seq<Octets>)
    requires labels != [] && forall l :: l in labels ==> PlainLabel(l)
    ensures Join(labels) != []
  {
    assert labels[0] in labels;
  }

  // ---------- Labels on the wire ----------

  lemma {:induction false} PiecesOfJoin(labels: seq<Octets>)
    requires forall l :: l in labels ==> PlainLabel(l)
    ensures Pieces(Join(labels)) == labels
  {
    if labels != [] {
      var head, tail := labels[0], labels[1..];
      assert labels == [head] + tail && PlainLabel(head);
      PiecesOfJoin(tail);
      JoinCons(head, tail);
      hide Join;
      var q := Join(labels);
      FindIs(q, DOT, |head|);
      assert q[..|head|] == head;
      if tail != [] { assert q[|head| + 1..] == Join(tail); }
    }
  }

  /** However it is expanded, an encoded name shows labels without dots. */
  lemma {:induction false} EncodedNoDots(data: seq<byte>, pos: nat, q: seq<byte>, m: nat)
    requires EncodedAt(data, pos, q) && Readable(q) && Expand(data, pos, m).Some?
    ensures forall l :: l in Expand(data, pos, m).value ==> HasNo(l, DOT)
    decreases m
  {
    hide EncodedLabels, Readable, EncodedAt, AfterPiece, Find;
    if q == [] || Find(q, DOT) == 0 {
      EncodedEnd(data, pos, q);
    } else {
      ReadableHead(q);
      EncodedHead(data, pos, q);
      FindBound(q, DOT);
      EncodedNoDots(data, pos + 1 + Find(q, DOT), AfterPiece(q), m - 1);
    }
  }

  lemma {:induction false} LowerDots(labels: seq<Octets>)
    requires forall l :: l in LowerAll(labels) ==> HasNo(l, DOT)
    ensures forall l :: l in labels ==> HasNo(l, DOT)
  {
    if labels != [] {
      var head := Lower(labels[0]);
      assert head in LowerAll(labels);
      forall k | 0 <= k < |labels[0]| ensures labels[0][k] != DOT { assert head[k] == ToLower(labels[0][k]); }
      LowerDots(labels[1..]);
    }
  }

  /** The question in the response has the labels read from the query, in lower case, exactly
      when none of them holds a dot: the text alone does not tell a dot inside a label from one
      between two. */
  lemma ResponseLabels(data: seq<byte>)
    requires Parsed(data).Some? && Parsed(data).value.questions != []
    ensures Expand(Sinkhole(Parsed(data).value), HEADER, MAX_HOPS) == Some(LowerAll(ReadLabels(data)))
       <==> forall l :: l in ReadLabels(data) ==> HasNo(l, DOT)
  {
    hide Expand, Parsed, Sinkhole, Readable, EncodedAt, Dotted, Pieces, Join, ReadLabels;
    var packet, labels := Parsed(data).value, ReadLabels(data);
    var q, r := packet.questions[0].qname, Sinkhole(packet);
    QuestionName(data);
    ResponseParts(packet);
    if forall l :: l in labels ==> HasNo(l, DOT) {
      LowerPlain(labels);
      PiecesOfJoin(LowerAll(labels));
      if labels != [] { JoinDotted(LowerAll(labels), MAX_HOPS); } else { JoinNothing(); }
      EncodedExpands(r, HEADER, q, MAX_HOPS);
    } else if Expand(r, HEADER, MAX_HOPS) == Some(LowerAll(labels)) {
      EncodedNoDots(r, HEADER, q, MAX_HOPS);
      LowerDots(labels);
    }
  }

  lemma {:induction false} LowerPlain(labels: seq<Octets>)
    requires NonEmptyLabels(labels) && forall l :: l in labels ==> HasNo(l, DOT)
    ensures forall l :: l in LowerAll(labels) ==> PlainLabel(l)
  {
    if labels != [] {
      assert labels[0] in labels;
      LowerPlain(labels[1..]);
    }
  }

  // ---------- The answer record ----------

  datatype Record = Record(name: seq<Octets>, rtype: u16, rclass: u16, ttl: nat, rdata: seq<byte>)

  /** A resource record (RFC 1035 section 4.1.3) at an offset, with the offset behind it. */
  function DecodeRecord(data: seq<byte>, pos: nat, n: nat): Option<(Record, nat)> {
    if Expand(data, pos, n).None? || InPlaceEnd(data, pos).None? then None
    else
      var f := InPlaceEnd(data, pos).value;
      if f + 10 > |data| then None
      else
        var length := ReadU16(data, f + 8);
        if f + 10 + length > |data| then None
        else
          var high: nat := ReadU16(data, f + 4);
          Some((Record(Expand(data, pos, n).value, ReadU16(data, f), ReadU16(data, f + 2),
                       high * 0x1_0000 + ReadU16(data, f + 6), data[f + 10..f + 10 + length]), f + 10 + length))
  }

  lemma {:induction false} EncodedExpands(data: seq<byte>, pos: nat, q: seq<byte>, n: nat)
    requires EncodedAt(data, pos, q) && Readable(q) && (q == [] || Dotted(q, n))
    ensures Expand(data, pos, n) == Some(Pieces(q))
    decreases |q|
  {
    hide EncodedLabels, Readable, EncodedAt;
    if q == [] {
      EncodedEnd(data, pos, q);
    } else {
      ReadableHead(q);
      EncodedHead(data, pos, q);
      AfterPieceShorter(q);
      EncodedExpands(data, pos + 1 + Find(q, DOT), AfterPiece(q), n - 1);
    }
  }

  /** The answer is one well-formed record ending with the message: its pointer leads to the
      question's name, its type follows the question (A unless AAAA was asked), its data is
      an all-zero address of that type's length. */
  lemma AnswerRecord(packet: DnsPacket, n: nat)
    requires packet.questions != [] && Readable(packet.questions[0].qname)
    requires packet.questions[0].qname == [] || Dotted(packet.questions[0].qname, n)
    ensures var r, q := Sinkhole(packet), packet.questions[0];
            && Expand(r, HEADER, n) == Some(Pieces(q.qname))
            && DecodeRecord(r, AnswerOffset(packet), n + 1)
               == Some((Record(Pieces(q.qname), if q.qtype == 28 then 28 else 1, 1, 300,
                               seq(if q.qtype == 28 then 16 else 4, _ => 0)), |r|))
  {
    hide EncodedLabels, Readable, Sinkhole, Dotted, EncodedAnswer, EncodedAt, Pieces, DecodeRecord;
    var r, q, at := Sinkhole(packet), packet.questions[0], AnswerOffset(packet);
    ResponseParts(packet);
    EncodedExpands(r, HEADER, q.qname, n);
    AnswerFields(r, at, q.qtype);
    RecordAt(r, at, q.qtype, n);
  }

  lemma RecordAt(r: seq<byte>, at: nat, qtype: u16, n: nat)
    requires |r| == at + 12 + AddressLength(qtype) && Expand(r, HEADER, n).Some?
    requires r[at] == 0xC0 && r[at + 1] == 0x0C
    requires ReadU16(r, at + 2) == (if qtype == TYPE_AAAA then TYPE_AAAA else TYPE_A) && ReadU16(r, at + 4) == CLASS_IN
    requires ReadU16(r, at + 6) == 0 && ReadU16(r, at + 8) == TTL && ReadU16(r, at + 10) == AddressLength(qtype)
    requires r[at + 12..] == seq(AddressLength(qtype), _ => 0)
    ensures DecodeRecord(r, at, n + 1)
         == Some((Record(Expand(r, HEADER, n).value, if qtype == TYPE_AAAA then TYPE_AAAA else TYPE_A, CLASS_IN, TTL,
                         seq(AddressLength(qtype), _ => 0)), |r|))
  {
    hide ReadU16;
    assert PointerTarget(r, at) == HEADER;
    assert Expand(r, at, n + 1) == Expand(r, HEADER, n);
    assert InPlaceEnd(r, at) == Some(at + 2);
    assert r[at + 12..at + 12 + AddressLength(qtype)] == r[at + 12..];
  }

  lemma AnswerFields(r: seq<byte>, at: nat, qtype: u16)
    requires PartAt(r, at, EncodedAnswer(qtype)) && |r| == at + 12 + AddressLength(qtype)
    ensures r[at] == 0xC0 && r[at + 1] == 0x0C
    ensures ReadU16(r, at + 2) == (if qtype == TYPE_AAAA then TYPE_AAAA else TYPE_A) && ReadU16(r, at + 4) == CLASS_IN
    ensures ReadU16(r, at + 6) == 0 && ReadU16(r, at + 8) == TTL && ReadU16(r, at + 10) == AddressLength(qtype)
    ensures r[at + 12..] == seq(AddressLength(qtype), _ => 0)
  {
    var a := EncodedAnswer(qtype);
    forall k | 0 <= k < |a| ensures r[at + k] == a[k] {
      assert r[at..at + |a|][k] == a[k];
    }
    assert r[at + 12..] == a[12..];
  }
}
