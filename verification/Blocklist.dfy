/** The blocklist file: lines of plain domains or hosts-file entries, with `#` comments. */
module Blocklist {
  import opened Bytes
  import opened DomainLabels

  /** "0.0.0.0" and "127.0.0.1" in octets. */
  const ANY_ADDRESS: seq<byte> := [48, 46, 48, 46, 48, 46, 48]
  const LOOPBACK: seq<byte> := [49, 50, 55, 46, 48, 46, 48, 46, 49]

  predicate IsBlank(b: byte) { b == SPACE || b == TAB }

  predicate IsFiller(b: byte) { IsBlank(b) || b == RETURN || b == NEWLINE }

  function DropFiller(s: seq<byte>): (r: seq<byte>)
    ensures |r| <= |s| && (r != [] ==> !IsFiller(r[0]))
  {
    if s != [] && IsFiller(s[0]) then DropFiller(s[1..]) else s
  }

  function DropBlanks(s: seq<byte>): (r: seq<byte>)
    ensures |r| <= |s| && (r != [] ==> !IsBlank(r[0]))
  {
    if s != [] && IsBlank(s[0]) then DropBlanks(s[1..]) else s
  }

  /** From the first blank on; empty when there is none. */
  function FromBlank(s: seq<byte>): (r: seq<byte>)
    ensures |r| <= |s| && (r != [] ==> IsBlank(r[0]))
  {
    if s == [] || IsBlank(s[0]) then s else FromBlank(s[1..])
  }

  predicate IsHostsEntry(s: seq<byte>) { ANY_ADDRESS <= s || LOOPBACK <= s }

  /** The rule text of a line, if it has any. */
  function LineRule(line: seq<byte>): (r: Option<seq<byte>>)
    ensures r.Some? ==> r.value != []
  {
    var text := DropFiller(line[..Find(line, HASH)]);
    if text == [] then None
    else if IsHostsEntry(text) && FromBlank(text) != [] then
      var rest := DropBlanks(FromBlank(text));
      Some(if rest == [] then FromBlank(text) else rest)
    else Some(text)
  }

  function FirstLine(content: seq<byte>): seq<byte> { content[..Find(content, NEWLINE)] }

  function AfterLine(content: seq<byte>): seq<byte> {
    var n := Find(content, NEWLINE);
    if n < |content| then content[n + 1..] else []
  }

  /** What `getline` delivers: stretches between newlines, without an empty one at the end. */
  function Lines(content: seq<byte>): seq<seq<byte>>
    decreases |content|
  {
    if content == [] then [] else [FirstLine(content)] + Lines(AfterLine(content))
  }

  lemma LinesUnfold(content: seq<byte>)
    requires content != []
    ensures Lines(content) == [FirstLine(content)] + Lines(AfterLine(content))
    ensures |AfterLine(content)| < |content|
  {
  }

  /** The rule texts of all lines, in order. */
  function RuleTexts(lines: seq<seq<byte>>): seq<seq<byte>> {
    if lines == [] then []
    else (match LineRule(lines[0]) case None => [] case Some(rule) => [rule]) + RuleTexts(lines[1..])
  }

  // ---------- Lines ----------

  /** Blanks, tabs and line ends only. */
  predicate AllFiller(s: seq<byte>) { forall k :: 0 <= k < |s| ==> s[k] in {9, 10, 13, 32} }

  /** One word: no whitespace and no `#`. */
  predicate Word(s: seq<byte>) { s != [] && forall k :: 0 <= k < |s| ==> !IsSpace(s[k]) && s[k] != 35 }

  /** It begins with "0.0.0.0" or "127.0.0.1". */
  predicate Addressed(s: seq<byte>) {
    || (|s| >= 7 && s[..7] == [48, 46, 48, 46, 48, 46, 48])
    || (|s| >= 9 && s[..9] == [49, 50, 55, 46, 48, 46, 48, 46, 49])
  }

  lemma {:induction false} LeadDropped(lead: seq<byte>, s: seq<byte>)
    requires AllFiller(lead)
    ensures DropFiller(lead + s) == DropFiller(s)
  {
    if lead == [] {
      assert lead + s == s;
    } else {
      assert (lead + s)[1..] == lead[1..] + s;
      LeadDropped(lead[1..], s);
    }
  }

  lemma {:induction false} GapDropped(gap: seq<byte>, s: seq<byte>)
    requires forall k :: 0 <= k < |gap| ==> gap[k] in {9, 32}
    ensures DropBlanks(gap + s) == DropBlanks(s)
  {
    if gap == [] {
      assert gap + s == s;
    } else {
      assert (gap + s)[1..] == gap[1..] + s;
      GapDropped(gap[1..], s);
    }
  }

  lemma NoHash(line: seq<byte>)
    requires HasNo(line, HASH)
    ensures Find(line, HASH) == |line| && line[..Find(line, HASH)] == line
  {
    FindIs(line, HASH, |line|);
  }

  /** A comment says nothing: what follows the first `#` does not matter. */
  lemma CommentIgnored(line: seq<byte>, comment: seq<byte>)
    requires HasNo(line, HASH)
    ensures LineRule(line + [35] + comment) == LineRule(line)
  {
    NoHash(line);
    var all := line + [35] + comment;
    FindIs(all, HASH, |line|);
    assert all[..|line|] == line;
  }

  /** A line has a rule text exactly when something other than blanks stands before any `#`. */
  lemma BlankLineIff(line: seq<byte>)
    ensures LineRule(line) == None <==> AllFiller(line[..Find(line, HASH)])
  {
    NothingLeftIff(line[..Find(line, HASH)]);
  }

  lemma {:induction false} NothingLeftIff(s: seq<byte>)
    ensures DropFiller(s) == [] <==> AllFiller(s)
  {
    if s != [] {
      NothingLeftIff(s[1..]);
      assert s == [s[0]] + s[1..];
    }
  }

  lemma {:induction false} TailLabels(d: seq<byte>, tail: seq<byte>)
    requires AllFiller(tail)
    ensures Labels(d + tail) == Labels(d)
    decreases |tail|
  {
    hide Labels;
    if tail == [] {
      assert d + tail == d;
    } else {
      var n := |tail| - 1;
      assert d + tail == d + tail[..n] + [tail[n]];
      TrailingIgnored(d + tail[..n], tail[n]);
      TailLabels(d, tail[..n]);
    }
  }

  /** A line with one word, blanks around it: the word's labels are the rule. */
  lemma PlainLine(lead: seq<byte>, d: seq<byte>, tail: seq<byte>)
    requires AllFiller(lead) && AllFiller(tail) && Word(d) && !Addressed(d + tail)
    ensures LineRule(lead + d + tail) == Some(d + tail) && Labels(d + tail) == Labels(d)
  {
    var line := lead + d + tail;
    assert HasNo(line, HASH);
    NoHash(line);
    assert line == lead + (d + tail);
    LeadDropped(lead, d + tail);
    assert DropFiller(d + tail) == d + tail;
    NotHosts(d + tail);
    TailLabels(d, tail);
  }

  lemma NotHosts(s: seq<byte>)
    ensures IsHostsEntry(s) <==> Addressed(s)
  {
  }

  /** A hosts entry: an address, blanks, then the word whose labels are the rule. */
  lemma HostsLine(lead: seq<byte>, address: seq<byte>, gap: seq<byte>, d: seq<byte>, tail: seq<byte>)
    requires AllFiller(lead) && AllFiller(tail) && Word(address) && Addressed(address) && Word(d)
    requires gap != [] && forall k :: 0 <= k < |gap| ==> gap[k] in {9, 32}
    ensures LineRule(lead + address + gap + d + tail) == Some(d + tail) && Labels(d + tail) == Labels(d)
  {
    var line, text := lead + address + gap + d + tail, address + gap + d + tail;
    assert HasNo(line, HASH);
    NoHash(line);
    assert line == lead + text;
    LeadDropped(lead, text);
    assert DropFiller(text) == text;
    assert Addressed(text) by {
      assert |address| >= 7 ==> text[..7] == address[..7];
      assert |address| >= 9 ==> text[..9] == address[..9];
    }
    NotHosts(text);
    assert text == address + (gap + (d + tail));
    FromBlankAfter(address, gap + (d + tail));
    GapDropped(gap, d + tail);
    assert DropBlanks(d + tail) == d + tail;
    TailLabels(d, tail);
  }

  // ---------- The file the list compiler writes ----------

  /** A domain as the compiler's list holds it. */
  predicate Plain(d: seq<byte>) {
    d != [] && forall k :: 0 <= k < |d| ==> !IsSpace(d[k]) && d[k] != HASH
  }

  /** A comment line and one hosts entry per domain, each ended by a newline. */
  function Compiled(header: seq<byte>, domains: seq<seq<byte>>): seq<byte> {
    [HASH] + header + [NEWLINE] + Entries(domains)
  }

  function Entries(domains: seq<seq<byte>>): seq<byte> {
    if domains == [] then [] else ANY_ADDRESS + [SPACE] + domains[0] + [NEWLINE] + Entries(domains[1..])
  }

  lemma FromBlankAfter(a: seq<byte>, b: seq<byte>)
    requires (forall k :: 0 <= k < |a| ==> !IsBlank(a[k])) && b != [] && IsBlank(b[0])
    ensures FromBlank(a + b) == b
  {
    if a == [] { assert a + b == b; }
    else {
      assert (a + b)[1..] == a[1..] + b;
      FromBlankAfter(a[1..], b);
    }
  }

  lemma EntryRule(d: seq<byte>)
    requires Plain(d)
    ensures LineRule(ANY_ADDRESS + [SPACE] + d) == Some(d)
  {
    var line := ANY_ADDRESS + [SPACE] + d;
    FindIs(line, HASH, |line|);
    assert line[..|line|] == line;
    assert DropFiller(line) == line;
    assert line == ANY_ADDRESS + ([SPACE] + d);
    FromBlankAfter(ANY_ADDRESS, [SPACE] + d);
    assert ([SPACE] + d)[1..] == d;
    assert DropBlanks(d) == d;
    assert DropBlanks([SPACE] + d) == d;
  }

  /** Without a newline the text is one line. */
  lemma LastLine(line: seq<byte>)
    requires line != [] && HasNo(line, NEWLINE)
    ensures Lines(line) == [line]
  {
    FindIs(line, NEWLINE, |line|);
    assert line[..|line|] == line;
    assert Lines([]) == [] && [line] + [] == [line];
  }

  /** A newline ends a line, and what follows it is the rest. */
  lemma LineAhead(line: seq<byte>, rest: seq<byte>)
    requires forall k :: 0 <= k < |line| ==> line[k] != NEWLINE
    ensures Lines(line + [NEWLINE] + rest) == [line] + Lines(rest)
  {
    var content := line + [NEWLINE] + rest;
    FindIs(content, NEWLINE, |line|);
    assert content[..|line|] == line && content[|line| + 1..] == rest;
  }

  lemma {:induction false} EntriesRules(domains: seq<seq<byte>>)
    requires forall d :: d in domains ==> Plain(d)
    ensures RuleTexts(Lines(Entries(domains))) == domains
  {
    hide Lines, LineRule, RuleTexts, Entries, Plain;
    assert Entries([]) == [] && Lines([]) == [] && RuleTexts([]) == [] by { NoEntries(); }
    if domains != [] {
      EntryFirst(domains);
      RulesFirst(ANY_ADDRESS + [SPACE] + domains[0], domains[0], Lines(Entries(domains[1..])));
      EntriesRules(domains[1..]);
      assert domains == [domains[0]] + domains[1..];
    }
  }

  lemma NoEntries()
    ensures Entries([]) == [] && Lines([]) == [] && RuleTexts([]) == []
  {
  }

  lemma EntryFirst(domains: seq<seq<byte>>)
    requires domains != [] && Plain(domains[0])
    ensures Lines(Entries(domains)) == [ANY_ADDRESS + [SPACE] + domains[0]] + Lines(Entries(domains[1..]))
    ensures LineRule(ANY_ADDRESS + [SPACE] + domains[0]) == Some(domains[0])
  {
    hide Lines, LineRule;
    EntryRule(domains[0]);
    LineAhead(ANY_ADDRESS + [SPACE] + domains[0], Entries(domains[1..]));
  }

  lemma RulesFirst(line: seq<byte>, rule: seq<byte>, rest: seq<seq<byte>>)
    requires LineRule(line) == Some(rule)
    ensures RuleTexts([line] + rest) == [rule] + RuleTexts(rest)
  {
    hide LineRule;
    assert ([line] + rest)[1..] == rest;
  }

  /** Reading back a compiled list yields exactly its domains, in order. */
  lemma CompiledRules(header: seq<byte>, domains: seq<seq<byte>>)
    requires (forall d :: d in domains ==> Plain(d)) && forall k :: 0 <= k < |header| ==> header[k] != NEWLINE
    ensures RuleTexts(Lines(Compiled(header, domains))) == domains
  {
    var line := [HASH] + header;
    LineAhead(line, Entries(domains));
    FindIs(line, HASH, 0);
    assert line[..0] == [];
    assert LineRule(line) == None;
    assert ([line] + Lines(Entries(domains)))[1..] == Lines(Entries(domains));
    EntriesRules(domains);
  }
}
