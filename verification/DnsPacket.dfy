/** DNS messages (RFC 1035 section 4.1): the query parser and the sinkhole response builder. */
module DnsPacket {
  import opened Bytes
  import opened DnsName

  type u16 = n: int | 0 <= n < 0x1_0000

  datatype DnsQuestion = DnsQuestion(qname: seq<byte>, qtype: u16, qclass: u16)

  datatype DnsPacket = DnsPacket(id: u16, flags: u16, questions: seq<DnsQuestion>)

  const HEADER: nat := 12
  const RESPONSE_FLAGS: u16 := 0x8180
  const TYPE_A: u16 := 1
  const TYPE_AAAA: u16 := 28
  const CLASS_IN: u16 := 1
  const TTL: nat := 300

  function ReadU16(data: seq<byte>, at: nat): u16
    requires at + 1 < |data|
  {
    var hi: int, lo: int := data[at], data[at + 1];
    hi * 256 + lo
  }

  function U16(n: u16): (r: seq<byte>)
    ensures |r| == 2
  {
    [n / 256, n % 256]
  }

  // ---------- Parsing ----------

  /** `count` questions from an offset on. */
  function Questions(data: seq<byte>, offset: nat, count: nat): Option<seq<DnsQuestion>>
    decreases count
  {
    if count == 0 then Some([])
    else match NameAt(data, offset)
      case Malformed => None
      case Name(qname, next) =>
        if next + 4 > |data| then None
        else match Questions(data, next + 4, count - 1)
          case None => None
          case Some(rest) => Some([DnsQuestion(qname, ReadU16(data, next), ReadU16(data, next + 2))] + rest)
  }

  function Parsed(data: seq<byte>): Option<DnsPacket> {
    if |data| < HEADER then None
    else match Questions(data, HEADER, ReadU16(data, 4))
      case None => None
      case Some(questions) => Some(DnsPacket(ReadU16(data, 0), ReadU16(data, 2), questions))
  }

  /** Returns None where the source returns false; what it has filled in by then is unused. */
  method Parse(data: seq<byte>) returns (result: Option<DnsPacket>)
    ensures result == Parsed(data)
  {
    hide ReadName, ReadU16;
    if |data| < HEADER { return None; }
    var id, flags, qdcount := ReadU16(data, 0), ReadU16(data, 2), ReadU16(data, 4);
    var questions: seq<DnsQuestion> := [];
    var offset := HEADER;
    var q := 0;
    QuestionsFrom(data, offset, qdcount, questions);
    while q < qdcount
      invariant 0 <= q <= qdcount && offset >= 0
      invariant Prepend(questions, Questions(data, offset, qdcount - q)) == Questions(data, HEADER, qdcount)
    {
      var name := ParseName(data, offset);
      if name.Malformed? { return None; }
      var Name(qname, next) := name;
      if next + 4 > |data| { return None; }
      var question := DnsQuestion(qname, ReadU16(data, next), ReadU16(data, next + 2));
      PrependStep(questions, question, Questions(data, next + 4, qdcount - q - 1));
      offset := next + 4;
      questions := questions + [question];
      q := q + 1;
    }
    assert questions + [] == questions;
    result := Some(DnsPacket(id, flags, questions));
  }

  function Prepend(front: seq<DnsQuestion>, back: Option<seq<DnsQuestion>>): Option<seq<DnsQuestion>> {
    match back case None => None case Some(qs) => Some(front + qs)
  }

  lemma QuestionsFrom(data: seq<byte>, offset: nat, count: nat, none: seq<DnsQuestion>)
    requires none == []
    ensures Prepend(none, Questions(data, offset, count)) == Questions(data, offset, count)
  {
    hide ReadU16, NameAt;
    match Questions(data, offset, count)
    case None =>
    case Some(qs) => assert [] + qs == qs;
  }

  lemma PrependStep(front: seq<DnsQuestion>, q: DnsQuestion, back: Option<seq<DnsQuestion>>)
    ensures Prepend(front + [q], back) == Prepend(front, Prepend([q], back))
  {
    if back.Some? { assert front + [q] + back.value == front + ([q] + back.value); }
  }

  // ---------- Building the response ----------

  /** The labels between the dots, each after its length octet; a trailing dot adds none. */
  function EncodedLabels(qname: seq<byte>): seq<byte>
    decreases |qname|
  {
    if qname == [] then []
    else
      var n := Find(qname, DOT);
      [n % 256] + qname[..n] + if n < |qname| then EncodedLabels(qname[n + 1..]) else []
  }

  function EncodedHeader(id: u16): seq<byte> { U16(id) + U16(RESPONSE_FLAGS) + U16(1) + U16(1) + U16(0) + U16(0) }

  function AddressLength(qtype: u16): nat { if qtype == TYPE_AAAA then 16 else 4 }

  /** A pointer to the question's name, then type, class, time to live and an all-zero address. */
  function EncodedAnswer(qtype: u16): (r: seq<byte>)
    ensures |r| == 12 + AddressLength(qtype)
  {
    [0xC0, 0x0C] + U16(if qtype == TYPE_AAAA then TYPE_AAAA else TYPE_A) + U16(CLASS_IN)
    + [0, 0, 1, 44] + U16(AddressLength(qtype)) + seq(AddressLength(qtype), _ => 0)
  }

  function EncodedQuestion(q: DnsQuestion): seq<byte> {
    EncodedLabels(q.qname) + [0] + U16(q.qtype) + U16(q.qclass)
  }

  function Sinkhole(packet: DnsPacket): seq<byte> {
    if packet.questions == [] then []
    else
      var q := packet.questions[0];
      EncodedHeader(packet.id) + EncodedQuestion(q) + EncodedAnswer(q.qtype)
  }

  /** What is still to be written when the loop stands at `start`. */
  ghost function Remaining(qname: seq<byte>, start: nat): seq<byte> {
    if start <= |qname| then EncodedLabels(qname[start..]) else []
  }

  lemma RemainingEnds(qname: seq<byte>)
    ensures Remaining(qname, 0) == EncodedLabels(qname)
    ensures forall start: nat :: start >= |qname| ==> Remaining(qname, start) == []
  {
    assert qname[0..] == qname;
  }

  lemma RemainingStep(qname: seq<byte>, start: nat, dot: nat)
    requires start < |qname| && dot == start + Find(qname[start..], DOT)
    ensures dot <= |qname|
    ensures Remaining(qname, start) == [(dot - start) % 256] + qname[start..dot] + Remaining(qname, dot + 1)
  {
    hide EncodedLabels, Find;
    var e, n := qname[start..], dot - start;
    EncodedUnfold(e);
    assert e[..n] == qname[start..dot];
    if dot < |qname| { assert e[n + 1..] == qname[dot + 1..]; }
  }

  lemma EncodedUnfold(e: seq<byte>)
    requires e != []
    ensures Find(e, DOT) <= |e|
    ensures EncodedLabels(e) == [Find(e, DOT) % 256] + e[..Find(e, DOT)]
                                + if Find(e, DOT) < |e| then EncodedLabels(e[Find(e, DOT) + 1..]) else []
  {
    hide Find;
    FindBound(e, DOT);
  }

  method EncodeLabels(qname: seq<byte>) returns (response: seq<byte>)
    ensures response == EncodedLabels(qname)
  {
    hide EncodedLabels, Remaining, Find;
    response := [];
    var start := 0;
    RemainingEnds(qname);
    assert [] + Remaining(qname, 0) == Remaining(qname, 0);
    while start < |qname|
      invariant 0 <= start <= |qname| + 1
      invariant response + Remaining(qname, start) == EncodedLabels(qname)
      decreases |qname| + 1 - start
    {
      var dot := start + Find(qname[start..], DOT);
      RemainingStep(qname, start, dot);
      ghost var rest := Remaining(qname, dot + 1);
      assert response + ([(dot - start) % 256] + qname[start..dot] + rest)
          == response + [(dot - start) % 256] + qname[start..dot] + rest;
      response := response + [(dot - start) % 256];
      response := response + qname[start..dot];
      start := dot + 1;
    }
    assert response + [] == response;
  }

  method BuildSinkholeResponse(packet: DnsPacket) returns (response: seq<byte>)
    ensures response == Sinkhole(packet)
  {
    if packet.questions == [] { return []; }
    hide EncodedLabels;
    response := U16(packet.id) + U16(RESPONSE_FLAGS) + U16(1) + U16(1) + U16(0) + U16(0);
    var q := packet.questions[0];
    var name := EncodeLabels(q.qname);
    ghost var question := name + [0] + U16(q.qtype) + U16(q.qclass);
    response := response + (name + [0] + U16(q.qtype) + U16(q.qclass));
    if q.qtype == TYPE_AAAA {
      response := response
                  + ([0xC0, 0x0C] + U16(TYPE_AAAA) + U16(CLASS_IN) + [0, 0, 1, 44] + U16(16) + seq(16, _ => 0));
    } else {
      response := response + ([0xC0, 0x0C] + U16(TYPE_A) + U16(CLASS_IN) + [0, 0, 1, 44] + U16(4) + seq(4, _ => 0));
    }
  }

  // ---------- What a parsed packet holds ----------

  lemma {:induction false} QuestionsReadable(data: seq<byte>, offset: nat, count: nat)
    requires Questions(data, offset, count).Some?
    ensures |Questions(data, offset, count).value| == count
    ensures forall q :: q in Questions(data, offset, count).value ==> Readable(q.qname)
    decreases count
  {
    hide ReadName, ReadU16, Readable;
    if count > 0 {
      NothingReadable();
      ReadNameReadable(data, offset, 0, false, offset, []);
      QuestionsReadable(data, NameAt(data, offset).next + 4, count - 1);
    }
  }

  lemma NothingReadable()
    ensures Readable([])
  {
  }

  /** A parsed packet has as many questions as its header says, all with readable names. */
  lemma ParsedReadable(data: seq<byte>)
    requires Parsed(data).Some?
    ensures |Parsed(data).value.questions| == ReadU16(data, 4)
    ensures forall q :: q in Parsed(data).value.questions ==> Readable(q.qname)
  {
    QuestionsReadable(data, HEADER, ReadU16(data, 4));
  }

  // ---------- The octets of a message ----------

  /** The number in two octets, the first counting 256. */
  function Pair(data: seq<byte>, at: nat): nat
    requires at + 1 < |data|
  {
    var high: nat, low: nat := data[at], data[at + 1];
    256 * high + low
  }

  /** The questions stand one behind the other: a name, two octets of type, two of class. */
  ghost predicate LaidOut(data: seq<byte>, offsets: seq<nat>, questions: seq<DnsQuestion>) {
    |offsets| == |questions| + 1 &&
    forall k :: 0 <= k < |questions| ==> QuestionAt(data, offsets[k], offsets[k + 1], questions[k])
  }

  ghost predicate QuestionAt(data: seq<byte>, from: nat, to: nat, q: DnsQuestion) {
    && NameAt(data, from).Name? && NameAt(data, from).qname == q.qname && to == NameAt(data, from).next + 4 <= |data|
    && q.qtype == Pair(data, to - 4) && q.qclass == Pair(data, to - 2)
  }

  lemma {:induction false} QuestionsLaidOut(data: seq<byte>, offset: nat, count: nat) returns (offsets: seq<nat>)
    requires Questions(data, offset, count).Some?
    ensures LaidOut(data, offsets, Questions(data, offset, count).value) && offsets[0] == offset
    ensures |Questions(data, offset, count).value| == count
    decreases count
  {
    hide NameAt;
    if count == 0 {
      offsets := [offset];
    } else {
      var next := NameAt(data, offset).next + 4;
      var rest := QuestionsLaidOut(data, next, count - 1);
      offsets := [offset] + rest;
    }
  }

  lemma {:induction false} LaidOutQuestions(data: seq<byte>, offsets: seq<nat>, questions: seq<DnsQuestion>)
    requires LaidOut(data, offsets, questions)
    ensures Questions(data, offsets[0], |questions|) == Some(questions)
    decreases |questions|
  {
    hide NameAt;
    if questions != [] {
      assert QuestionAt(data, offsets[0], offsets[1], questions[0]);
      LaidOutQuestions(data, offsets[1..], questions[1..]);
      assert questions == [questions[0]] + questions[1..];
    }
  }

  /** A message parses to exactly the packet whose id, flags and questions its octets spell, the
      header being twelve octets with the number of questions in the fifth and sixth. */
  lemma ParsedIff(data: seq<byte>, packet: DnsPacket)
    ensures Parsed(data) == Some(packet) <==>
            && |data| >= 12 && packet.id == Pair(data, 0) && packet.flags == Pair(data, 2)
            && |packet.questions| == Pair(data, 4)
            && exists offsets :: LaidOut(data, offsets, packet.questions) && offsets[0] == 12
  {
    hide QuestionAt, Questions;
    if Parsed(data).Some? {
      var offsets := QuestionsLaidOut(data, HEADER, ReadU16(data, 4));
    }
    if offsets :| LaidOut(data, offsets, packet.questions) && offsets[0] == 12 {
      LaidOutQuestions(data, offsets, packet.questions);
    }
  }
}
