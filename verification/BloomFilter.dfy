/** `BloomFilter`: a bit array in 64-bit words, probed at positions derived from two hashes. */
module BloomFilter {
  import opened Bytes

  const TWO64: nat := 0x1_0000_0000_0000_0000

  // ---------- Hashes ----------

  function Octet(b: nat): bv8
    requires b < 256
  {
    b as bv8
  }

  // 64-bit arithmetic, which wraps around.
  function Xor(a: bv64, b: bv64): bv64 { a ^ b }
  function Wide(o: bv8): bv64 { o as bv64 }
  function FnvTimes(a: bv64): bv64 { a * 1099511628211 }
  function MurmurTimes(a: bv64): bv64 { a * 0xc6a4a7935bd1e995 }
  function Shifted(a: bv64): bv64 { a >> 47 }
  function Spread(a: bv64): bv64 { Xor(a, Shifted(a)) }

  /** One octet of FNV-1a. */
  function FnvStep(h: bv64, b: byte): bv64 { FnvTimes(Xor(h, Wide(Octet(b)))) }

  function MurmurStep(h: bv64, b: byte): bv64 { Spread(MurmurTimes(Xor(h, Wide(Octet(b))))) }

  /** Both hashes run over the lower-cased key. */
  function Fnv(key: seq<byte>): bv64 {
    if key == [] then 14695981039346656037 else FnvStep(Fnv(key[..|key| - 1]), ToLower(key[|key| - 1]))
  }

  function Murmur(key: seq<byte>): bv64 {
    if key == [] then 0x517cc1b727220a95 else MurmurStep(Murmur(key[..|key| - 1]), ToLower(key[|key| - 1]))
  }

  method HashFnv1a(key: seq<byte>) returns (h: bv64)
    ensures h == Fnv(key)
  {
    hide FnvStep;
    h := 14695981039346656037;
    for i := 0 to |key|
      invariant h == Fnv(key[..i])
    {
      assert key[..i + 1][..i] == key[..i];
      h := FnvStep(h, ToLower(key[i]));
    }
    assert key[..|key|] == key;
  }

  method HashMurmurMix(key: seq<byte>) returns (h: bv64)
    ensures h == Murmur(key)
  {
    hide MurmurStep;
    h := 0x517cc1b727220a95;
    for i := 0 to |key|
      invariant h == Murmur(key[..i])
    {
      assert key[..i + 1][..i] == key[..i];
      h := MurmurStep(h, ToLower(key[i]));
    }
    assert key[..|key|] == key;
  }

  lemma {:induction false} HashesOfLower(key: seq<byte>)
    ensures Fnv(Lower(key)) == Fnv(key) && Murmur(Lower(key)) == Murmur(key)
  {
    hide FnvStep, MurmurStep;
    if key != [] {
      var n := |key| - 1;
      HashesOfLower(key[..n]);
      assert Lower(key)[..n] == Lower(key[..n]);
      assert ToLower(ToLower(key[n])) == ToLower(key[n]);
    }
  }

  lemma HashesIgnoreCase(key: seq<byte>, other: seq<byte>)
    requires SameText(key, other)
    ensures Fnv(other) == Fnv(key) && Murmur(other) == Murmur(key)
  {
    hide Fnv, Murmur, Lower, SameText;
    LowerForgetsCase(key, other);
    HashesOfLower(key);
    HashesOfLower(other);
  }

  // ---------- What the hashes tell apart ----------

  function Value(o: bv8): nat { o as nat }

  lemma CastValue(b: nat)
    requires b < 256
    ensures Value(b as bv8) == b
  {
  }

  lemma OctetValue(b: nat)
    requires b < 256
    ensures Value(Octet(b)) == b
  {
    CastValue(b);
  }

  lemma OctetsDiffer(b: byte, c: byte)
    requires Octet(b) == Octet(c)
    ensures b == c
  {
    hide Octet, Value;
    OctetValue(b);
    OctetValue(c);
  }

  // Both multipliers are odd, so a multiplication can be undone.
  function FnvDivided(a: bv64): bv64 { a * 14886173955864302971 }
  function MurmurDivided(a: bv64): bv64 { a * 6879827495036328381 }

  lemma ProductsDivided(a: bv64)
    ensures FnvDivided(a * 1099511628211) == a && MurmurDivided(a * 0xc6a4a7935bd1e995) == a
  {
  }

  lemma TimesUndone(x: bv64, y: bv64)
    requires FnvTimes(x) == FnvTimes(y) || MurmurTimes(x) == MurmurTimes(y)
    ensures x == y
  {
    hide FnvDivided, MurmurDivided;
    ProductsDivided(x);
    ProductsDivided(y);
  }

  lemma ShiftedXor(a: bv64, b: bv64)
    ensures Shifted(Xor(a, b)) == Xor(Shifted(a), Shifted(b))
  {
  }

  lemma ShiftedTwice(a: bv64)
    ensures Shifted(Shifted(a)) == 0
  {
  }

  lemma XorTwice(a: bv64, b: bv64)
    ensures Xor(Xor(a, b), b) == a && Xor(b, 0) == b
  {
  }

  /** Two shifts by 47 leave nothing, so spreading twice gives the number back. */
  lemma SpreadBack(m: bv64)
    ensures Spread(Spread(m)) == m
  {
    hide Shifted, Xor;
    ShiftedXor(m, Shifted(m));
    ShiftedTwice(m);
    XorTwice(m, Shifted(m));
  }

  lemma SpreadUndone(m: bv64, n: bv64)
    requires Spread(m) == Spread(n)
    ensures m == n
  {
    hide Spread;
    SpreadBack(m);
    SpreadBack(n);
  }

  lemma XorUndone(h: bv64, g: bv64, o: bv8, p: bv8)
    requires Xor(h, Wide(o)) == Xor(g, Wide(p))
    ensures h == g <==> o == p
  {
    XorTwice(h, Wide(o));
    XorTwice(g, Wide(p));
    XorFirst(h, Wide(o));
    XorFirst(g, Wide(p));
    hide Xor;
    if h == g { WideDiffers(o, p); }
  }

  lemma XorFirst(a: bv64, b: bv64)
    ensures Xor(Xor(a, b), a) == b
  {
  }

  lemma WideDiffers(o: bv8, p: bv8)
    requires Wide(o) == Wide(p)
    ensures o == p
  {
  }

  /** One step of either hash keeps apart what differs in the state or, the state being the same,
      in the octet. */
  lemma StepsDiffer(h: bv64, g: bv64, b: byte, c: byte)
    requires FnvStep(h, ToLower(b)) == FnvStep(g, ToLower(c)) || MurmurStep(h, ToLower(b)) == MurmurStep(g, ToLower(c))
    ensures h == g <==> ToLower(b) == ToLower(c)
  {
    hide Octet, Spread, ToLower, Xor, Wide, FnvTimes, MurmurTimes;
    var o, p := Octet(ToLower(b)), Octet(ToLower(c));
    var x, y := Xor(h, Wide(o)), Xor(g, Wide(p));
    if FnvStep(h, ToLower(b)) == FnvStep(g, ToLower(c)) {
      TimesUndone(x, y);
    } else {
      SpreadUndone(MurmurTimes(x), MurmurTimes(y));
      TimesUndone(x, y);
    }
    XorUndone(h, g, o, p);
    if o == p { OctetsDiffer(ToLower(b), ToLower(c)); }
  }

  /** Neither hash ever confuses two keys of which just one octet differs, case aside. */
  lemma {:induction false} HashesTellApart(key: seq<byte>, other: seq<byte>, i: nat)
    requires i < |key| == |other| && !SameLetter(key[i], other[i])
    requires forall k :: 0 <= k < |key| && k != i ==> SameLetter(key[k], other[k])
    ensures Fnv(key) != Fnv(other) && Murmur(key) != Murmur(other)
    decreases |key|
  {
    hide FnvStep, MurmurStep, SameLetter, ToLower;
    var n := |key| - 1;
    LowerLetters(key[n], other[n]);
    if i == n {
      assert SameText(key[..n], other[..n]);
      HashesIgnoreCase(key[..n], other[..n]);
    } else {
      HashesTellApart(key[..n], other[..n], i);
    }
    if Fnv(key) == Fnv(other) { StepsDiffer(Fnv(key[..n]), Fnv(other[..n]), key[n], other[n]); }
    if Murmur(key) == Murmur(other) { StepsDiffer(Murmur(key[..n]), Murmur(other[..n]), key[n], other[n]); }
  }

  lemma LowerLetters(a: byte, b: byte)
    ensures ToLower(a) == ToLower(b) <==> SameLetter(a, b)
  {
  }

  /** The values of FNV-1a that its authors list for the empty string and for "a". */
  lemma FnvVectors()
    ensures Fnv([]) == 0xcbf29ce484222325 && Fnv([97]) == 0xaf63dc4c8601ec8c
  {
    hide Octet, FnvTimes, Xor, Wide;
    assert [97][..0] == [] && Fnv([97]) == FnvStep(Fnv([]), 97);
    OctetValue(97);
    LetterA(Octet(97));
  }

  lemma LetterA(o: bv8)
    requires Value(o) == 97
    ensures FnvTimes(Xor(0xcbf29ce484222325, Wide(o))) == 0xaf63dc4c8601ec8c
  {
    ValueOf97(o);
  }

  lemma ValueOf97(o: bv8)
    requires Value(o) == 97
    ensures o == 97
  {
  }

  /** A counter of the machine's word size. */
  function Wrapped(n: nat): nat { n % TWO64 }

  // ---------- Probes ----------

  /** Double hashing: (h1 + i * h2) modulo 2^64, modulo the number of bits. */
  function Combined(h1: bv64, h2: bv64, i: nat, numBits: nat): nat
    requires numBits > 0
  {
    (h1 as nat + i * (h2 as nat)) % TWO64 % numBits
  }

  lemma CombinedBound(h1: bv64, h2: bv64, i: nat, numBits: nat)
    requires numBits > 0
    ensures Combined(h1, h2, i, numBits) < numBits
  {
  }

  /** The i-th probe position of a key. */
  function Probe(key: seq<byte>, i: nat, numBits: nat): nat
    requires numBits > 0
  {
    Combined(Fnv(key), Murmur(key), i, numBits)
  }

  function Probes(key: seq<byte>, numHashes: nat, numBits: nat): set<nat> {
    if numBits == 0 then {} else set i | 0 <= i < numHashes :: Probe(key, i, numBits)
  }

  /** Case does not matter. */
  lemma ProbesIgnoreCase(key: seq<byte>, other: seq<byte>, numHashes: nat, numBits: nat)
    requires SameText(key, other)
    ensures Probes(other, numHashes, numBits) == Probes(key, numHashes, numBits)
  {
    hide Fnv, Murmur, Combined, SameText;
    HashesIgnoreCase(key, other);
    if numBits > 0 {
      assert forall i: nat :: Probe(other, i, numBits) == Probe(key, i, numBits);
    }
  }

  /** The machine's sum after i steps of the second hash from the first one. */
  function Walk(h1: nat, h2: nat, i: nat): nat { if i == 0 then h1 else (Walk(h1, h2, i - 1) + h2) % TWO64 }

  /** The probes start at the first hash and go on in steps of the second, each sum wrapping around
      at 64 bits before it is reduced to a position. */
  lemma {:induction false} ProbeWalks(key: seq<byte>, i: nat, numBits: nat)
    requires numBits > 0
    ensures Probe(key, i, numBits) == Walk(Fnv(key) as nat, Murmur(key) as nat, i) % numBits < numBits
  {
    hide Fnv, Murmur;
    WalkIs(Fnv(key) as nat, Murmur(key) as nat, i);
  }

  lemma {:induction false} WalkIs(h1: nat, h2: nat, i: nat)
    requires h1 < TWO64
    ensures Walk(h1, h2, i) == (h1 + i * h2) % TWO64
  {
    if i > 0 {
      WalkIs(h1, h2, i - 1);
      assert i * h2 == (i - 1) * h2 + h2;
      WrapStep(h1 + (i - 1) * h2, h2);
    }
  }

  lemma WrapStep(a: nat, b: nat)
    ensures (a % TWO64 + b) % TWO64 == (a + b) % TWO64
  {
    var q := a / TWO64;
    assert a + b == (a % TWO64 + b) + q * TWO64;
    WrapTimes(a % TWO64 + b, q);
  }

  lemma {:induction false} WrapTimes(a: nat, q: nat)
    ensures (a + q * TWO64) % TWO64 == a % TWO64
  {
    if q > 0 { WrapTimes(a, q - 1); }
  }

  // ---------- Bits ----------

  predicate Bit(word: bv64, k: bv6) { word & (1 << k) != 0 }

  function WithBit(word: bv64, k: bv6): bv64 { word | (1 << k) }

  lemma BitOfWithBit(word: bv64, j: bv6, k: bv6)
    ensures Bit(WithBit(word, j), k) <==> Bit(word, k) || j == k
  {
    hide Bit;
    BitOfOr(word, WithBit(word, j), j, k);
  }

  lemma BitOfOr(word: bv64, r: bv64, j: bv6, k: bv6)
    requires r == word | (1 << j)
    ensures Bit(r, k) <==> Bit(word, k) || j == k
  {
    hide Bit;
    BitIs(r, k);
    BitIs(word, k);
    ShiftedOr(word, j, k);
  }

  lemma BitIs(word: bv64, k: bv6)
    ensures Bit(word, k) <==> word & (1 << k) != 0
  {
  }

  lemma ShiftedOr(word: bv64, j: bv6, k: bv6)
    ensures (word | (1 << j)) & (1 << k) != 0 <==> word & (1 << k) != 0 || j == k
  {
  }

  lemma BitOfZero(k: bv6)
    ensures !Bit(0, k)
  {
  }

  function Small(n: nat): bv6
    requires n < 64
  {
    n as bv6
  }

  lemma SmallValue(n: nat)
    requires n < 64
    ensures Small(n) as nat == n
  {
  }

  function Offset(p: nat): bv6 { Small(p % 64) }

  lemma OffsetInjective(p: nat, q: nat)
    requires Offset(p) == Offset(q) && p / 64 == q / 64
    ensures p == q
  {
    hide Small;
    SmallValue(p % 64);
    SmallValue(q % 64);
  }

  predicate BitAt(bits: seq<bv64>, p: nat)
    requires p < 64 * |bits|
  {
    Bit(bits[p / 64], Offset(p))
  }

  function Marked(bits: seq<bv64>, p: nat): seq<bv64>
    requires p < 64 * |bits|
  {
    bits[p / 64 := WithBit(bits[p / 64], Offset(p))]
  }

  lemma BitAtMarked(bits: seq<bv64>, p: nat, q: nat)
    requires p < 64 * |bits| && q < 64 * |bits|
    ensures BitAt(Marked(bits, p), q) <==> BitAt(bits, q) || p == q
  {
    hide Bit, WithBit, Offset;
    if p / 64 == q / 64 {
      BitOfWithBit(bits[q / 64], Offset(p), Offset(q));
      if Offset(p) == Offset(q) { OffsetInjective(p, q); }
    }
  }

  /** The positions of the set bits. */
  ghost function Positions(bits: seq<bv64>): set<nat> {
    set p: nat | p < 64 * |bits| && BitAt(bits, p)
  }

  lemma PositionsMarked(bits: seq<bv64>, p: nat)
    requires p < 64 * |bits|
    ensures Positions(Marked(bits, p)) == Positions(bits) + {p} && |Marked(bits, p)| == |bits|
  {
    hide BitAt;
    forall q | 0 <= q < 64 * |bits| ensures BitAt(Marked(bits, p), q) <==> BitAt(bits, q) || p == q {
      BitAtMarked(bits, p, q);
    }
  }

  lemma PositionsZero(bits: seq<bv64>)
    requires forall k :: 0 <= k < |bits| ==> bits[k] == 0
    ensures Positions(bits) == {}
  {
    hide Bit;
    forall p | 0 <= p < 64 * |bits| ensures !BitAt(bits, p) { BitOfZero(Offset(p)); }
  }

  // ---------- The filter object ----------

  datatype Fields = Fields(numBits: nat, numHashes: nat, elementCount: nat, bits: seq<bv64>)

  class BloomFilter {
    var numBits: nat
    var numHashes: nat
    var elementCount: nat
    var bits: seq<bv64>

    /** Every probe position falls into the word array. */
    predicate Sized()
      reads this
    {
      numBits <= 64 * |bits|
    }

    function State(): Fields
      reads this
    {
      Fields(numBits, numHashes, elementCount, bits)
    }

    /** `m` and `k` are the results of the logarithm formulas, rounded as in the source. */
    constructor (m: nat, k: nat)
      ensures Sized() && numBits == 64 * |bits| && numBits >= 64 && numBits >= m
      ensures numBits - 64 < (if m < 64 then 64 else m)
      ensures numHashes >= 1 && (k >= 1 ==> numHashes == k) && elementCount == 0
      ensures Positions(bits) == {}
    {
      var wanted := if m < 64 then 64 else m;
      numHashes := if k < 1 then 1 else k;
      var words := (wanted + 63) / 64;
      bits := seq(words, _ => 0);
      numBits := words * 64;
      elementCount := 0;
      PositionsZero(seq(words, _ => 0));
    }

    method SetBit(p: nat)
      requires Sized() && p < numBits
      modifies this`bits
      ensures Sized() && |bits| == old(|bits|)
      ensures Positions(bits) == old(Positions(bits)) + {p}
    {
      hide Positions, Offset, WithBit;
      PositionsMarked(bits, p);
      bits := bits[p / 64 := WithBit(bits[p / 64], Offset(p))];
    }

    method Add(key: seq<byte>)
      requires Sized()
      modifies this`bits, this`elementCount
      ensures Sized() && |bits| == old(|bits|)
      ensures Positions(bits) == old(Positions(bits)) + Probes(key, numHashes, numBits)
      ensures elementCount == if numBits == 0 then old(elementCount) else Wrapped(old(elementCount) + 1)
    {
      hide Fnv, Murmur, Positions, Probes, Combined, Wrapped;
      NoProbes(key, numHashes, numBits);
      if numBits == 0 { return; }
      var h1 := HashFnv1a(key);
      var h2 := HashMurmurMix(key);
      for i := 0 to numHashes
        invariant Sized() && |bits| == old(|bits|)
        invariant elementCount == old(elementCount)
        invariant Positions(bits) == old(Positions(bits)) + Probes(key, i, numBits)
      {
        var combined := Combined(h1, h2, i, numBits);
        CombinedBound(h1, h2, i, numBits);
        ProbesSnoc(key, i, numBits);
        SetBit(combined);
      }
      elementCount := Wrapped(elementCount + 1);
    }

    method Contains(key: seq<byte>) returns (found: bool)
      requires Sized()
      ensures found <==> numBits > 0 && Probes(key, numHashes, numBits) <= Positions(bits)
    {
      if numBits == 0 || bits == [] { return false; }
      var h1 := HashFnv1a(key);
      var h2 := HashMurmurMix(key);
      hide Fnv, Murmur, Bit, Offset, Combined;
      for i := 0 to numHashes
        invariant forall j :: 0 <= j < i ==> BitAt(bits, Probe(key, j, numBits))
      {
        var combined := Combined(h1, h2, i, numBits);
        CombinedBound(h1, h2, i, numBits);
        if !Bit(bits[combined / 64], Offset(combined)) {
          assert Probe(key, i, numBits) in Probes(key, numHashes, numBits);
          return false;
        }
      }
      found := true;
    }

    method Clear()
      modifies this`bits, this`elementCount
      ensures Positions(bits) == {} && |bits| == old(|bits|) && elementCount == 0
    {
      bits := seq(|bits|, _ => 0);
      elementCount := 0;
      PositionsZero(bits);
    }

    /** A whole run of additions, on a filter in any state. */
    method AddAll(keys: seq<seq<byte>>)
      requires Sized()
      modifies this`bits, this`elementCount
      ensures Sized() && |bits| == old(|bits|)
      ensures Positions(bits) == old(Positions(bits)) + MarksOf(keys, numHashes, numBits)
    {
      hide Positions, Probes;
      for i := 0 to |keys|
        invariant Sized() && |bits| == old(|bits|)
        invariant Positions(bits) == old(Positions(bits)) + MarksOf(keys[..i], numHashes, numBits)
      {
        assert keys[..i + 1][..i] == keys[..i];
        Add(keys[i]);
      }
      assert keys[..|keys|] == keys;
    }

    /** `save_to_file`: the file may fail to open, and the device takes no more than `room` bytes. */
    method SaveToFile(creatable: bool, room: nat) returns (ok: bool, file: Option<seq<byte>>)
      ensures ok <==> creatable && |Saved(State())| <= room
      ensures file == if creatable then Some(Fitting(Saved(State()), room)) else None
    {
      if !creatable { return false, None; }
      hide LittleEndian, WordBytes, Put;
      ghost var all: seq<byte> := [];
      var out := Sink([], room, true);
      PutNothing(out);
      assert [] + MAGIC == MAGIC;
      out, all := Append(out, all, MAGIC, room);
      out, all := Append(out, all, LittleEndian(VERSION, 4), room);
      out, all := Append(out, all, LittleEndian(numBits, 8), room);
      out, all := Append(out, all, LittleEndian(numHashes, 8), room);
      out, all := Append(out, all, LittleEndian(elementCount, 8), room);
      out, all := Append(out, all, LittleEndian(|bits|, 8), room);
      out, all := Append(out, all, WordBytes(bits), room);
      PutFits(all, room);
      return out.good, Some(out.written);
    }

    /** `load_from_file` over a byte stream.  `garbage` is what the uninitialised magic buffer
        holds before the first read; no file stands for one that cannot be opened. */
    method LoadFromFile(file: Option<seq<byte>>, garbage: seq<byte>) returns (ok: bool)
      requires |garbage| == 4
      modifies this
      ensures ok <==> file.Some? && Loaded(file.value).Some?
      ensures State() == if ok then Loaded(file.value).value else old(State())
    {
      if file.None? { return false; }
      hide LittleEndian, FromLittleEndian, WordsOf, At;
      ghost var c := file.value;
      var input := Stream(file.value, true);
      StartAt(c);
      var magic, version, nBits, nHashes, nElem, nWords;
      input, magic := Read(input, garbage, c, 0);
      input, version := Read(input, Zeros(4), c, 4);
      if magic != MAGIC || FromLittleEndian(version) != VERSION { return false; }
      input, nBits := Read(input, Zeros(8), c, 8);
      input, nHashes := Read(input, Zeros(8), c, 16);
      input, nElem := Read(input, Zeros(8), c, 24);
      input, nWords := Read(input, Zeros(8), c, 32);
      var loaded := Zeros(8 * FromLittleEndian(nWords));
      input, loaded := Read(input, loaded, c, 40);
      GoodAt(input, c, 40 + |loaded|);
      if !input.good { return false; }
      numBits := FromLittleEndian(nBits);
      numHashes := FromLittleEndian(nHashes);
      elementCount := FromLittleEndian(nElem);
      bits := WordsOf(loaded);
      ok := true;
    }
  }

  lemma NoProbes(key: seq<byte>, numHashes: nat, numBits: nat)
    ensures Probes(key, 0, numBits) == {} && Probes(key, numHashes, 0) == {}
  {
  }

  lemma ProbesSnoc(key: seq<byte>, n: nat, numBits: nat)
    requires numBits > 0
    ensures Probes(key, n + 1, numBits) == Probes(key, n, numBits) + {Probe(key, n, numBits)}
  {
    hide Probe;
  }

  // ---------- Exactness ----------

  /** The probe positions of all the keys. */
  function MarksOf(keys: seq<seq<byte>>, numHashes: nat, numBits: nat): set<nat> {
    if keys == [] then {}
    else MarksOf(keys[..|keys| - 1], numHashes, numBits) + Probes(keys[|keys| - 1], numHashes, numBits)
  }

  /** The marks are exactly the union of the keys' probes, so their order and multiplicity
      do not matter. */
  lemma {:induction false} MarksAreUnion(keys: seq<seq<byte>>, numHashes: nat, numBits: nat)
    ensures forall p :: p in MarksOf(keys, numHashes, numBits)
              <==> exists k :: k in keys && p in Probes(k, numHashes, numBits)
  {
    hide Probes;
    if keys != [] {
      MarksAreUnion(keys[..|keys| - 1], numHashes, numBits);
      assert keys == keys[..|keys| - 1] + [keys[|keys| - 1]];
    }
  }

  /** Every added key is found whatever its case, and nothing is found in an empty filter. */
  lemma NoFalseNegatives(keys: seq<seq<byte>>, key: seq<byte>, other: seq<byte>, numHashes: nat, numBits: nat)
    requires numBits > 0 && numHashes > 0
    ensures key in keys && SameText(key, other) ==>
              Probes(other, numHashes, numBits) <= MarksOf(keys, numHashes, numBits)
    ensures !(Probes(key, numHashes, numBits) <= {})
  {
    MarksAreUnion(keys, numHashes, numBits);
    if SameText(key, other) { ProbesIgnoreCase(key, other, numHashes, numBits); }
    assert Probe(key, 0, numBits) in Probes(key, numHashes, numBits);
  }

  // ---------- The file format ----------

  /** "DGBF" */
  const MAGIC: seq<byte> := [68, 71, 66, 70]
  const VERSION: nat := 1

  function Zeros(n: nat): (r: seq<byte>)
    ensures |r| == n
  {
    seq(n, _ => 0)
  }

  function LittleEndian(n: nat, width: nat): (r: seq<byte>)
    ensures |r| == width
  {
    if width == 0 then [] else [n % 256] + LittleEndian(n / 256, width - 1)
  }

  function FromLittleEndian(s: seq<byte>): nat {
    if s == [] then 0 else s[0] + 256 * FromLittleEndian(s[1..])
  }

  function Pow256(width: nat): nat { if width == 0 then 1 else 256 * Pow256(width - 1) }

  lemma {:induction false} LittleEndianRoundTrip(n: nat, width: nat)
    requires n < Pow256(width)
    ensures FromLittleEndian(LittleEndian(n, width)) == n
  {
    if width > 0 {
      LittleEndianRoundTrip(n / 256, width - 1);
      assert LittleEndian(n, width)[1..] == LittleEndian(n / 256, width - 1);
    }
  }

  lemma {:induction false} FromLittleEndianBound(s: seq<byte>)
    ensures FromLittleEndian(s) < Pow256(|s|)
  {
    if s != [] { FromLittleEndianBound(s[1..]); }
  }

  lemma WordWidth()
    ensures Pow256(4) == 0x1_0000_0000 && Pow256(8) == TWO64
  {
    assert Pow256(2) == 65536;
    assert Pow256(4) == 256 * (256 * Pow256(2));
    assert Pow256(6) == 256 * (256 * Pow256(4));
    assert Pow256(8) == 256 * (256 * Pow256(6));
  }

  function WordBytes(bits: seq<bv64>): (r: seq<byte>)
    ensures |r| == 8 * |bits|
  {
    if bits == [] then [] else LittleEndian(bits[0] as nat, 8) + WordBytes(bits[1..])
  }

  function Word(s: seq<byte>): bv64
    requires |s| == 8
  {
    FromLittleEndianBound(s);
    WordWidth();
    FromLittleEndian(s) as bv64
  }

  function WordsOf(s: seq<byte>): (r: seq<bv64>)
    ensures |r| == |s| / 8
  {
    if |s| < 8 then [] else [Word(s[..8])] + WordsOf(s[8..])
  }

  lemma WordRoundTrip(w: bv64)
    ensures Word(LittleEndian(w as nat, 8)) == w
  {
    WordWidth();
    LittleEndianRoundTrip(w as nat, 8);
  }

  lemma {:induction false} WordsRoundTrip(bits: seq<bv64>)
    ensures WordsOf(WordBytes(bits)) == bits
  {
    hide LittleEndian, Word;
    if bits != [] {
      var head := LittleEndian(bits[0] as nat, 8);
      HeadWidth(bits[0]);
      WordRoundTrip(bits[0]);
      WordsRoundTrip(bits[1..]);
      assert WordBytes(bits)[..8] == head && WordBytes(bits)[8..] == WordBytes(bits[1..]);
    }
  }

  lemma HeadWidth(w: bv64)
    ensures |LittleEndian(w as nat, 8)| == 8
  {
  }

  function Saved(f: Fields): seq<byte> {
    MAGIC + LittleEndian(VERSION, 4) + LittleEndian(f.numBits, 8) + LittleEndian(f.numHashes, 8)
    + LittleEndian(f.elementCount, 8) + LittleEndian(|f.bits|, 8) + WordBytes(f.bits)
  }

  /** What loading makes of a file's content: the fields, when header and length are right. */
  function Loaded(c: seq<byte>): Option<Fields> {
    if |c| < 40 || c[..4] != MAGIC || FromLittleEndian(c[4..8]) != VERSION then None
    else
      var words := FromLittleEndian(c[32..40]);
      if |c| < 40 + 8 * words then None
      else Some(Fields(FromLittleEndian(c[8..16]), FromLittleEndian(c[16..24]), FromLittleEndian(c[24..32]),
                       WordsOf(c[40..40 + 8 * words])))
  }

  function Fitting(s: seq<byte>, room: nat): seq<byte> { if |s| <= room then s else s[..room] }

  /** An output stream: what has reached the device, what it still takes, and whether no write
      has failed yet. */
  datatype Sink = Sink(written: seq<byte>, room: nat, good: bool)

  /** A write that does not fit stores what does and fails; later ones do nothing. */
  function Put(out: Sink, s: seq<byte>): Sink {
    if !out.good then out
    else Sink(out.written + Fitting(s, out.room), out.room - |Fitting(s, out.room)|, |s| <= out.room)
  }

  lemma PutNothing(out: Sink)
    ensures Put(out, []) == out
  {
    assert out.written + [] == out.written;
  }

  lemma PutTwice(out: Sink, a: seq<byte>, b: seq<byte>)
    ensures Put(Put(out, a), b) == Put(out, a + b)
  {
    if out.good && |a| <= out.room {
      var left := out.room - |a|;
      if |b| <= left {
        assert out.written + a + b == out.written + (a + b);
      } else {
        assert (a + b)[..out.room] == a + b[..left];
        assert out.written + a + b[..left] == out.written + (a + b[..left]);
      }
    } else if out.good {
      assert (a + b)[..out.room] == a[..out.room];
    }
  }

  lemma PutFits(all: seq<byte>, room: nat)
    ensures var out := Put(Sink([], room, true), all);
            out.written == Fitting(all, room) && (out.good <==> |all| <= room)
  {
    assert [] + Fitting(all, room) == Fitting(all, room);
  }

  method Append(out0: Sink, ghost all0: seq<byte>, s: seq<byte>, ghost room: nat)
    returns (out: Sink, ghost all: seq<byte>)
    requires out0 == Put(Sink([], room, true), all0)
    ensures all == all0 + s && out == Put(Sink([], room, true), all)
  {
    all := all0 + s;
    PutTwice(Sink([], room, true), all0, s);
    out := Put(out0, s);
  }

  /** An input stream: what is left and whether no read has failed yet. */
  datatype Stream = Stream(rest: seq<byte>, good: bool)

  /** The stream over `c` stands at offset k, or has failed because `c` is shorter. */
  ghost predicate At(input: Stream, c: seq<byte>, k: nat) {
    (input.good <==> k <= |c|) && (input.good ==> input.rest == c[k..])
  }

  lemma StartAt(c: seq<byte>)
    ensures At(Stream(c, true), c, 0)
  {
  }

  lemma GoodAt(input: Stream, c: seq<byte>, k: nat)
    requires At(input, c, k)
    ensures input.good <==> k <= |c|
  {
  }

  /** Reading into a buffer; a short read fills what it can and fails, later reads do nothing. */
  method Read(input: Stream, buffer: seq<byte>, ghost c: seq<byte>, ghost k: nat)
    returns (input': Stream, buffer': seq<byte>)
    requires At(input, c, k)
    ensures At(input', c, k + |buffer|) && |buffer'| == |buffer|
    ensures k + |buffer| <= |c| ==> buffer' == c[k..k + |buffer|]
  {
    if !input.good { return input, buffer; }
    if |input.rest| >= |buffer| { return Stream(input.rest[|buffer|..], true), input.rest[..|buffer|]; }
    return Stream([], false), input.rest + buffer[|input.rest|..];
  }

  /** The fields hold machine words. */
  predicate Storable(f: Fields) {
    f.numBits < TWO64 && f.numHashes < TWO64 && f.elementCount < TWO64 && |f.bits| < TWO64
  }

  lemma SavedLayout(f: Fields)
    ensures var c := Saved(f);
            && |c| == 40 + 8 * |f.bits| && c[..4] == MAGIC && c[4..8] == LittleEndian(VERSION, 4)
            && c[8..16] == LittleEndian(f.numBits, 8) && c[16..24] == LittleEndian(f.numHashes, 8)
            && c[24..32] == LittleEndian(f.elementCount, 8) && c[32..40] == LittleEndian(|f.bits|, 8)
            && c[40..] == WordBytes(f.bits)
  {
  }

  lemma HeaderRoundTrip(f: Fields)
    requires Storable(f)
    ensures FromLittleEndian(LittleEndian(VERSION, 4)) == VERSION
    ensures FromLittleEndian(LittleEndian(f.numBits, 8)) == f.numBits
    ensures FromLittleEndian(LittleEndian(f.numHashes, 8)) == f.numHashes
    ensures FromLittleEndian(LittleEndian(f.elementCount, 8)) == f.elementCount
    ensures FromLittleEndian(LittleEndian(|f.bits|, 8)) == |f.bits|
  {
    WordWidth();
    LittleEndianRoundTrip(VERSION, 4);
    LittleEndianRoundTrip(f.numBits, 8);
    LittleEndianRoundTrip(f.numHashes, 8);
    LittleEndianRoundTrip(f.elementCount, 8);
    LittleEndianRoundTrip(|f.bits|, 8);
  }

  /** Loading what was saved, even with more bytes behind it, restores all four fields. */
  lemma SaveLoad(f: Fields, trailing: seq<byte>)
    requires Storable(f)
    ensures Loaded(Saved(f) + trailing) == Some(f)
  {
    hide LittleEndian, FromLittleEndian, WordsOf, WordBytes, Saved;
    SavedLayout(f);
    HeaderRoundTrip(f);
    WordsRoundTrip(f.bits);
    var c := Saved(f) + trailing;
    assert c[..4] == Saved(f)[..4] && c[4..8] == Saved(f)[4..8] && c[8..16] == Saved(f)[8..16];
    assert c[16..24] == Saved(f)[16..24] && c[24..32] == Saved(f)[24..32] && c[32..40] == Saved(f)[32..40];
    assert c[40..40 + 8 * |f.bits|] == Saved(f)[40..];
  }

  /** No strict prefix of a saved filter loads. */
  lemma TruncatedRejected(f: Fields, n: nat)
    requires Storable(f) && n < |Saved(f)|
    ensures Loaded(Saved(f)[..n]) == None
  {
    hide LittleEndian, FromLittleEndian, WordsOf, WordBytes, Saved;
    SavedLayout(f);
    HeaderRoundTrip(f);
    if n >= 40 { assert Saved(f)[..n][32..40] == Saved(f)[32..40]; }
  }

  /** The number that eight octets from an offset on stand for, the first counting least. */
  function Eight(c: seq<byte>, at: nat): nat
    requires at + 8 <= |c|
  {
    var n := (k: nat) requires k < 8 => c[at + k] as nat;
    n(0) + 0x100 * n(1) + 0x1_0000 * n(2) + 0x100_0000 * n(3) + 0x1_0000_0000 * n(4)
    + 0x100_0000_0000 * n(5) + 0x1_0000_0000_0000 * n(6) + 0x100_0000_0000_0000 * n(7)
  }

  lemma EightIs(s: seq<byte>)
    requires |s| == 8
    ensures FromLittleEndian(s) == Eight(s, 0)
  {
    var a, b, c, d := s[1..], s[2..], s[3..], s[4..];
    var e, f, g := s[5..], s[6..], s[7..];
    assert a[1..] == b && b[1..] == c && c[1..] == d && d[1..] == e && e[1..] == f && f[1..] == g && g[1..] == [];
    assert FromLittleEndian(g) == s[7];
    assert FromLittleEndian(f) == s[6] + 256 * FromLittleEndian(g);
    assert FromLittleEndian(e) == s[5] + 256 * FromLittleEndian(f);
    assert FromLittleEndian(d) == s[4] + 256 * FromLittleEndian(e);
    assert FromLittleEndian(c) == s[3] + 256 * FromLittleEndian(d);
    assert FromLittleEndian(b) == s[2] + 256 * FromLittleEndian(c);
    assert FromLittleEndian(a) == s[1] + 256 * FromLittleEndian(b);
  }

  lemma EightAt(c: seq<byte>, at: nat)
    requires at + 8 <= |c|
    ensures FromLittleEndian(c[at..at + 8]) == Eight(c, at)
  {
    hide FromLittleEndian;
    EightIs(c[at..at + 8]);
  }

  /** The layout of a saved filter, octet by octet: "DGBF", version 1, the four numbers with the
      least octet first, and then the words. */
  lemma SavedOctets(f: Fields)
    requires Storable(f)
    ensures var c := Saved(f);
            && |c| == 40 + 8 * |f.bits| && c[..8] == [68, 71, 66, 70, 1, 0, 0, 0]
            && Eight(c, 8) == f.numBits && Eight(c, 16) == f.numHashes && Eight(c, 24) == f.elementCount
            && Eight(c, 32) == |f.bits|
            && forall k :: 0 <= k < |f.bits| ==> Eight(c, 40 + 8 * k) == f.bits[k] as nat
  {
    hide FromLittleEndian, WordBytes, Saved, LittleEndian, Eight;
    var c := Saved(f);
    SavedLayout(f);
    HeaderRoundTrip(f);
    VersionOctets();
    assert c[..8] == c[..4] + c[4..8];
    EightAt(c, 8);
    EightAt(c, 16);
    EightAt(c, 24);
    EightAt(c, 32);
    forall k | 0 <= k < |f.bits| ensures Eight(c, 40 + 8 * k) == f.bits[k] as nat {
      WordAt(f.bits, k);
      assert c[40 + 8 * k..40 + 8 * k + 8] == c[40..][8 * k..8 * k + 8];
      EightAt(c, 40 + 8 * k);
    }
  }

  lemma VersionOctets()
    ensures LittleEndian(VERSION, 4) == [1, 0, 0, 0]
  {
    assert LittleEndian(0, 0) == [] && LittleEndian(0, 1) == [0] && LittleEndian(0, 2) == [0, 0];
    assert LittleEndian(0, 3) == [0, 0, 0];
  }

  lemma {:induction false} WordAt(bits: seq<bv64>, k: nat)
    requires k < |bits|
    ensures 8 * k + 8 <= |WordBytes(bits)| && FromLittleEndian(WordBytes(bits)[8 * k..8 * k + 8]) == bits[k] as nat
  {
    hide FromLittleEndian, LittleEndian, WordBytes;
    WordsUnfold(bits);
    var bytes := WordBytes(bits);
    if k == 0 {
      WordBack(bits[0]);
    } else {
      WordAt(bits[1..], k - 1);
      Behind(bytes, 8 * k);
    }
  }

  lemma Behind(c: seq<byte>, at: nat)
    requires 8 <= at && at + 8 <= |c|
    ensures c[at..at + 8] == c[8..][at - 8..at - 8 + 8]
  {
  }

  lemma WordsUnfold(bits: seq<bv64>)
    requires bits != []
    ensures |WordBytes(bits)| == 8 + |WordBytes(bits[1..])|
    ensures WordBytes(bits)[0..8] == LittleEndian(bits[0] as nat, 8) && WordBytes(bits)[8..] == WordBytes(bits[1..])
  {
    HeadWidth(bits[0]);
    hide LittleEndian;
  }

  lemma WordBack(w: bv64)
    ensures FromLittleEndian(LittleEndian(w as nat, 8)) == w as nat
  {
    WordWidth();
    LittleEndianRoundTrip(w as nat, 8);
  }
}
