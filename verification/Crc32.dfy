/**
 The payload checksum of the descriptor cache: `DescCache::crc32`, the table-driven CRC-32 of
 section 8 of RFC 1952, against the bit-by-bit definition, and which alterations it detects.

 Lemmas about many steps hide the word operations: they need only the laws proved just before.
 */
module Crc32 {

  type Byte = bv8
  type Word = bv32

  const POLY: Word := 0xEDB88320
  const ONES: Word := 0xFFFFFFFF

  function Xor(a: Word, b: Word): Word { a ^ b }

  function Double(a: Word): Word { a << 1 }

  /** The top bit is clear, so doubling loses nothing. */
  predicate Roomy(a: Word) { a & 0x80000000 == 0 }

  // ---------------------------------------------------------------- the bit-serial definition

  /** Shift one bit out of the register; the polynomial comes in when that bit was set. */
  function BitStep(c: Word): Word {
    if c & 1 == 1 then POLY ^ (c >> 1) else c >> 1
  }

  function Bits(c: Word, n: nat): Word
    decreases n
  {
    if n == 0 then c else Bits(BitStep(c), n - 1)
  }

  function Bit(b: bool): Word {
    if b then 1 else 0
  }

  /** The register after a message given bit by bit. */
  function Feed(c: Word, bits: seq<bool>): Word
    decreases |bits|
  {
    if bits == [] then c else Feed(BitStep(Xor(c, Bit(bits[0]))), bits[1..])
  }

  /** The lowest n bits, least significant first. */
  function LowBits(b: Byte, n: nat): (r: seq<bool>)
    ensures |r| == n
  {
    if n == 0 then [] else [b & 1 == 1] + LowBits(b >> 1, n - 1)
  }

  function BitsOf(b: Byte): (r: seq<bool>)
    ensures |r| == 8
  {
    LowBits(b, 8)
  }

  function Message(data: seq<Byte>): (r: seq<bool>)
    ensures |r| == 8 * |data|
  {
    if data == [] then [] else BitsOf(data[0]) + Message(data[1..])
  }

  /** CRC-32: reflected polynomial 0xEDB88320, register preset to ones, result inverted. */
  function Reference(data: seq<Byte>): Word {
    Xor(Feed(ONES, Message(data)), ONES)
  }

  // ---------------------------------------------------------------- algebra of the bit step

  lemma BitStepInjective(x: Word, y: Word)
    requires BitStep(x) == BitStep(y)
    ensures x == y
  {}

  lemma {:induction false} BitsInjective(x: Word, y: Word, n: nat)
    requires Bits(x, n) == Bits(y, n)
    ensures x == y
    decreases n
  {
    hide BitStep;
    if n > 0 {
      BitsInjective(BitStep(x), BitStep(y), n - 1);
      BitStepInjective(x, y);
    }
  }

  lemma LowBit(z: Word, w: Word)
    ensures (z ^ (w << 1)) & 1 == z & 1
  {}

  lemma HighBits(z: Word, w: Word)
    requires w & 0x80000000 == 0
    ensures (z ^ (w << 1)) >> 1 == (z >> 1) ^ w
  {}

  lemma XorAssocRaw(a: Word, b: Word, c: Word)
    ensures a ^ (b ^ c) == (a ^ b) ^ c
  {}

  lemma XorAssoc(a: Word, b: Word, c: Word)
    ensures Xor(a, Xor(b, c)) == Xor(Xor(a, b), c)
  {
    XorAssocRaw(a, b, c);
  }

  lemma XorCancels(a: Word, b: Word, c: Word)
    requires Xor(a, b) == Xor(a, c)
    ensures b == c
  {
    assert a ^ (a ^ b) == b;
    assert a ^ (a ^ c) == c;
  }

  lemma ShiftIn(z: Word, w: Word) returns (x: Word)
    requires w & 0x80000000 == 0
    ensures x == z ^ (w << 1) && x & 1 == z & 1 && x >> 1 == (z >> 1) ^ w
  {
    x := z ^ (w << 1);
    LowBit(z, w);
    HighBits(z, w);
  }

  lemma BitStepLaterRaw(z: Word, w: Word)
    requires w & 0x80000000 == 0
    ensures BitStep(z ^ (w << 1)) == BitStep(z) ^ w
  {
    var x := ShiftIn(z, w);
    assert POLY ^ ((z >> 1) ^ w) == (POLY ^ (z >> 1)) ^ w by { XorAssocRaw(POLY, z >> 1, w); }
    assert BitStep(x) == BitStep(z) ^ w;
  }

  /** The step is linear: bits above the lowest pass through it unchanged. */
  lemma BitStepLater(z: Word, w: Word)
    requires Roomy(w)
    ensures BitStep(Xor(z, Double(w))) == Xor(BitStep(z), w)
  {
    hide BitStep;
    BitStepLaterRaw(z, w);
  }

  /** w doubled n times. */
  function Up(w: Word, n: nat): Word {
    if n == 0 then w else Double(Up(w, n - 1))
  }

  /** w can be doubled n times without losing a bit. */
  predicate Room(w: Word, n: nat) {
    n == 0 || (Room(w, n - 1) && Roomy(Up(w, n - 1)))
  }

  lemma {:induction false} BitsLater(z: Word, w: Word, n: nat)
    requires Room(w, n)
    ensures Bits(Xor(z, Up(w, n)), n) == Xor(Bits(z, n), w)
    decreases n
  {
    hide BitStep, Xor, Double, Roomy;
    if n > 0 {
      BitStepLater(z, Up(w, n - 1));
      BitsLater(BitStep(z), w, n - 1);
    }
  }

  // ---------------------------------------------------------------- the table step

  lemma DoublingFacts(w: Word)
    requires w & 0xFF000000 == 0
    ensures Double(w) == w << 1 && Double(w << 1) == w << 2 && Double(w << 2) == w << 3 && Double(w << 3) == w << 4
    ensures Double(w << 4) == w << 5 && Double(w << 5) == w << 6 && Double(w << 6) == w << 7 && Double(w << 7) == w << 8
  {}

  lemma RoomyFacts(w: Word)
    requires w & 0xFF000000 == 0
    ensures Roomy(w) && Roomy(w << 1) && Roomy(w << 2) && Roomy(w << 3)
    ensures Roomy(w << 4) && Roomy(w << 5) && Roomy(w << 6) && Roomy(w << 7)
  {}

  /** The eight doublings of a word with an empty top byte. */
  lemma Doublings(w: Word) returns (s: seq<Word>)
    requires w & 0xFF000000 == 0
    ensures |s| == 9 && s[0] == w && s[8] == w << 8
    ensures forall k :: 0 <= k < 8 ==> Roomy(s[k]) && Double(s[k]) == s[k + 1]
  {
    hide Double, Roomy;
    DoublingFacts(w);
    RoomyFacts(w);
    s := [w, w << 1, w << 2, w << 3, w << 4, w << 5, w << 6, w << 7, w << 8];
  }

  lemma {:induction false} UpFollows(w: Word, s: seq<Word>, n: nat)
    requires n < |s| && s[0] == w
    requires forall k :: 0 <= k < n ==> Roomy(s[k]) && Double(s[k]) == s[k + 1]
    ensures Up(w, n) == s[n] && Room(w, n)
  {
    hide Double, Roomy;
    if n > 0 {
      UpFollows(w, s, n - 1);
    }
  }

  /** The look-up index and the rest of the register after the shift. */
  function Low(c: Word): Word { c & 0xFF }

  function Rest(c: Word): Word { c >> 8 }

  lemma SplitLowByteRaw(c: Word)
    ensures c == (c & 0xFF) ^ ((c >> 8) << 8) && (c >> 8) & 0xFF000000 == 0
  {}

  lemma XorIs(a: Word, b: Word, r: Word)
    requires r == a ^ b
    ensures Xor(a, b) == r
  {}

  lemma SplitLowByte(c: Word) returns (shifted: Word)
    ensures shifted == Rest(c) << 8 && Rest(c) & 0xFF000000 == 0 && c == Xor(Low(c), shifted)
  {
    hide Xor;
    SplitLowByteRaw(c);
    shifted := Rest(c) << 8;
    XorIs(Low(c), shifted, c);
  }

  lemma Parts(c: Word) returns (up: Word)
    ensures up == Up(Rest(c), 8) && Room(Rest(c), 8) && c == Xor(Low(c), up)
  {
    hide Xor, Low, Rest, Up, Room;
    up := SplitLowByte(c);
    var s := Doublings(Rest(c));
    UpFollows(Rest(c), s, 8);
  }

  /** Eight bit steps are one table look-up and one shift. */
  lemma EightBitsAreOneLookup(c: Word)
    ensures Bits(c, 8) == Xor(Bits(Low(c), 8), Rest(c))
  {
    hide BitStep, Xor, Low, Rest, Bits, Up, Room;
    var up := Parts(c);
    BitsLater(Low(c), Rest(c), 8);
  }

  // ---------------------------------------------------------------- several bits at once

  /** At most 32 bits, packed the way they meet the register. */
  function Pack(bits: seq<bool>): Word {
    if bits == [] then 0 else Xor(Bit(bits[0]), Double(Pack(bits[1..])))
  }

  predicate Within(a: Word, m: Word) { a & !m == 0 }

  function OneMore(m: Word): Word { (m << 1) | 1 }

  /** n ones. */
  function Mask(n: nat): Word {
    if n == 0 then 0 else OneMore(Mask(n - 1))
  }

  lemma PackStepWithin(b: bool, q: Word, m: Word)
    requires Within(q, m)
    ensures Within(Xor(Bit(b), Double(q)), OneMore(m))
  {
    hide Within, Xor, OneMore, Double, Bit;
    BitWithin(b, m);
    DoubleWithin(q, m);
    XorWithin(Bit(b), Double(q), OneMore(m));
  }

  lemma BitWithin(b: bool, m: Word)
    ensures Within(Bit(b), OneMore(m))
  {}

  lemma DoubleWithin(q: Word, m: Word)
    requires Within(q, m)
    ensures Within(Double(q), OneMore(m))
  {}

  lemma XorWithin(a: Word, b: Word, m: Word)
    requires Within(a, m) && Within(b, m)
    ensures Within(Xor(a, b), m)
  {}

  lemma EmptyWithin()
    ensures Within(0, 0)
  {}

  lemma {:induction false} PackWithin(bits: seq<bool>)
    ensures Within(Pack(bits), Mask(|bits|))
  {
    hide Within, OneMore, Double, Xor, Bit;
    if bits == [] {
      EmptyWithin();
    } else {
      PackWithin(bits[1..]);
      PackStepWithin(bits[0], Pack(bits[1..]), Mask(|bits| - 1));
    }
  }

  lemma OneMoreWithin(m: Word, k: Word)
    requires Within(m, k)
    ensures Within(OneMore(m), OneMore(k))
  {}

  lemma WithinTrans(a: Word, m: Word, k: Word)
    requires Within(a, m) && Within(m, k)
    ensures Within(a, k)
  {}

  lemma GrowWithin(m: Word)
    ensures Within(0, m)
  {}

  lemma {:induction false} MaskGrows(n: nat, k: nat)
    requires n <= k
    ensures Within(Mask(n), Mask(k))
  {
    hide Within, OneMore;
    if n == 0 {
      GrowWithin(Mask(k));
    } else {
      MaskGrows(n - 1, k - 1);
      OneMoreWithin(Mask(n - 1), Mask(k - 1));
    }
  }

  lemma FourMore(m: Word)
    ensures OneMore(OneMore(OneMore(OneMore(m)))) == (m << 4) | 0xF
  {}

  lemma MaskByFour(n: nat, m: Word)
    requires Mask(n) == m
    ensures Mask(n + 4) == (m << 4) | 0xF
  {
    hide OneMore;
    FourMore(m);
    assert Mask(n + 1) == OneMore(m);
    assert Mask(n + 2) == OneMore(OneMore(m));
    assert Mask(n + 3) == OneMore(OneMore(OneMore(m)));
  }

  lemma Mask31()
    ensures Mask(31) == 0x7FFFFFFF
  {
    assert Mask(3) == 0x7;
    MaskByFour(3, 0x7);
    MaskByFour(7, 0x7F);
    MaskByFour(11, 0x7FF);
    MaskByFour(15, 0x7FFF);
    MaskByFour(19, 0x7FFFF);
    MaskByFour(23, 0x7FFFFF);
    MaskByFour(27, 0x7FFFFFF);
  }

  lemma WithinMeansRoomy(a: Word)
    requires Within(a, 0x7FFFFFFF)
    ensures Roomy(a)
  {}

  /** A pack of at most 31 bits leaves the top bit clear. */
  lemma PackIsRoomy(bits: seq<bool>)
    requires |bits| <= 31
    ensures Roomy(Pack(bits))
  {
    hide Within, OneMore, Roomy, Mask, Pack;
    PackWithin(bits);
    MaskGrows(|bits|, 31);
    Mask31();
    WithinTrans(Pack(bits), Mask(|bits|), Mask(31));
    WithinMeansRoomy(Pack(bits));
  }

  lemma XorZero(c: Word)
    ensures Xor(c, 0) == c
  {}

  /** Feeding at most 32 bits is xoring them in at once and then stepping. */
  lemma {:induction false} FeedIsPackedSteps(c: Word, bits: seq<bool>)
    requires |bits| <= 32
    ensures Feed(c, bits) == Bits(Xor(c, Pack(bits)), |bits|)
    decreases |bits|
  {
    hide BitStep, Xor, Double, Roomy, Bit;
    if bits == [] {
      XorZero(c);
    } else {
      var rest := Pack(bits[1..]);
      var z := Xor(c, Bit(bits[0]));
      PackIsRoomy(bits[1..]);
      BitStepLater(z, rest);
      XorAssoc(c, Bit(bits[0]), Double(rest));
      FeedIsPackedSteps(BitStep(z), bits[1..]);
    }
  }

  lemma PackedLow(a: bool, p: Word)
    ensures Xor(Bit(a), Double(p)) & 1 == Bit(a)
  {}

  lemma PackedHigh(a: bool, p: Word)
    requires Roomy(p)
    ensures Xor(Bit(a), Double(p)) >> 1 == p
  {}

  lemma PackedBitsDiffer(a: bool, b: bool, p: Word, q: Word)
    requires Roomy(p) && Roomy(q) && Xor(Bit(a), Double(p)) == Xor(Bit(b), Double(q))
    ensures a == b && p == q
  {
    hide Xor, Double, Roomy;
    PackedLow(a, p);
    PackedLow(b, q);
    PackedHigh(a, p);
    PackedHigh(b, q);
  }

  lemma {:induction false} PackInjective(a: seq<bool>, b: seq<bool>)
    requires |a| == |b| <= 32 && Pack(a) == Pack(b)
    ensures a == b
  {
    hide Xor, Double, Roomy, Bit;
    if a != [] {
      PackIsRoomy(a[1..]);
      PackIsRoomy(b[1..]);
      PackedBitsDiffer(a[0], b[0], Pack(a[1..]), Pack(b[1..]));
      PackInjective(a[1..], b[1..]);
      assert a == [a[0]] + a[1..] && b == [b[0]] + b[1..];
    }
  }

  lemma {:induction false} FeedConcat(c: Word, a: seq<bool>, b: seq<bool>)
    ensures Feed(c, a + b) == Feed(Feed(c, a), b)
    decreases |a|
  {
    hide BitStep, Xor, Bit;
    if a == [] {
      assert a + b == b;
    } else {
      assert (a + b)[1..] == a[1..] + b;
      FeedConcat(BitStep(Xor(c, Bit(a[0]))), a[1..], b);
    }
  }

  lemma {:induction false} FeedInjective(c: Word, d: Word, bits: seq<bool>)
    requires Feed(c, bits) == Feed(d, bits)
    ensures c == d
    decreases |bits|
  {
    hide BitStep, Xor, Bit;
    if bits != [] {
      var b := Bit(bits[0]);
      FeedInjective(BitStep(Xor(c, b)), BitStep(Xor(d, b)), bits[1..]);
      BitStepInjective(Xor(c, b), Xor(d, b));
      XorSameRight(c, d, b);
    }
  }

  lemma XorSameRight(a: Word, b: Word, c: Word)
    requires Xor(a, c) == Xor(b, c)
    ensures a == b
  {
    assert (a ^ c) ^ c == a;
    assert (b ^ c) ^ c == b;
  }

  // ---------------------------------------------------------------- detection

  /** Two messages that agree except inside a window of at most 32 bits, where they do not. */
  lemma WindowDetected(c: Word, pre: seq<bool>, a: seq<bool>, b: seq<bool>, post: seq<bool>)
    requires |a| == |b| <= 32 && a != b
    ensures Feed(c, pre + (a + post)) != Feed(c, pre + (b + post))
  {
    hide BitStep, Xor;
    var d := Feed(c, pre);
    FeedConcat(c, pre, a + post);
    FeedConcat(c, pre, b + post);
    FeedConcat(d, a, post);
    FeedConcat(d, b, post);
    if Feed(c, pre + (a + post)) == Feed(c, pre + (b + post)) {
      FeedInjective(Feed(d, a), Feed(d, b), post);
      FeedIsPackedSteps(d, a);
      FeedIsPackedSteps(d, b);
      BitsInjective(Xor(d, Pack(a)), Xor(d, Pack(b)), |a|);
      XorCancels(d, Pack(a), Pack(b));
      PackInjective(a, b);
    }
  }

  // ---------------------------------------------------------------- bytes and the table

  function Half(b: Byte): Byte { b >> 1 }

  /** b has at most n bits. */
  predicate Fits(b: Byte, n: nat) {
    if n == 0 then b == 0 else Fits(Half(b), n - 1)
  }

  lemma EightHalvings(b: Byte)
    ensures Half(Half(Half(Half(Half(Half(Half(Half(b)))))))) == 0
  {}

  lemma FitsEight(b: Byte)
    ensures Fits(b, 8)
  {
    hide Half;
    EightHalvings(b);
    var h2 := Half(Half(b));
    var h4 := Half(Half(h2));
    var h6 := Half(Half(h4));
    assert Fits(Half(Half(h6)), 0);
    assert Fits(h6, 2);
    assert Fits(h4, 4);
    assert Fits(h2, 6);
  }

  lemma PackLowBit(b: Byte)
    ensures Xor(Bit(b & 1 == 1), Double((b >> 1) as Word)) == b as Word
  {}

  lemma {:induction false} ByteIsItsBits(b: Byte, n: nat)
    requires Fits(b, n)
    ensures Pack(LowBits(b, n)) == b as Word
  {
    hide Xor, Double, Bit;
    if n > 0 {
      ByteIsItsBits(b >> 1, n - 1);
      PackLowBit(b);
      assert LowBits(b, n)[1..] == LowBits(b >> 1, n - 1);
    }
  }

  lemma RestIgnoresByte(c: Word, b: Byte)
    ensures Rest(Xor(c, b as Word)) == Rest(c)
  {}

  /** The byte step of the code: one table entry, one shift. */
  function ByteStep(c: Word, b: Byte): Word {
    Xor(Bits(Low(Xor(c, b as Word)), 8), Rest(c))
  }

  lemma ByteStepIsEightBits(c: Word, b: Byte)
    ensures ByteStep(c, b) == Feed(c, BitsOf(b))
  {
    hide BitStep, Xor, Low, Rest, Bits, Feed, Pack, Fits, LowBits;
    FitsEight(b);
    ByteIsItsBits(b, 8);
    FeedIsPackedSteps(c, BitsOf(b));
    EightBitsAreOneLookup(Xor(c, b as Word));
    RestIgnoresByte(c, b);
  }

  lemma IndexRoundTrip(c: Word)
    ensures (Low(c) as int) < 256 && (Low(c) as int) as Word == Low(c)
  {}

  lemma BitStepIs(c: Word)
    ensures BitStep(c) == if c & 1 == 1 then POLY ^ (c >> 1) else c >> 1
  {}

  lemma FeedFirstByte(c: Word, data: seq<Byte>)
    requires data != []
    ensures Feed(c, Message(data)) == Feed(ByteStep(c, data[0]), Message(data[1..]))
  {
    hide BitStep, Xor, Feed, LowBits, ByteStep;
    ByteStepIsEightBits(c, data[0]);
    FeedConcat(c, BitsOf(data[0]), Message(data[1..]));
  }

  /** The 256 entries: entry i is the register i after eight bit steps. */
  method BuildTable() returns (table: array<Word>)
    ensures fresh(table) && table.Length == 256
    ensures forall i :: 0 <= i < 256 ==> table[i] == Bits(i as Word, 8)
  {
    hide BitStep;
    table := new Word[256];
    for i := 0 to 256
      invariant forall k :: 0 <= k < i ==> table[k] == Bits(k as Word, 8)
    {
      var c := i as Word;
      for b := 0 to 8
        invariant Bits(c, 8 - b) == Bits(i as Word, 8)
        invariant forall k :: 0 <= k < i ==> table[k] == Bits(k as Word, 8)
      {
        BitStepIs(c);
        c := if c & 1 == 1 then POLY ^ (c >> 1) else c >> 1;
      }
      table[i] := c;
    }
  }

  /** The table-driven checksum is the bit-serial CRC-32, for every byte string. */
  method Checksum(data: seq<Byte>) returns (r: Word)
    ensures r == Reference(data)
  {
    hide BitStep, Xor, Low, Rest;
    var table := BuildTable();
    assert data[0..] == data;
    var c := ONES;
    for i := 0 to |data|
      invariant table.Length == 256 && forall k :: 0 <= k < 256 ==> table[k] == Bits(k as Word, 8)
      invariant Feed(c, Message(data[i..])) == Feed(ONES, Message(data))
    {
      FeedFirstByte(c, data[i..]);
      IndexRoundTrip(Xor(c, data[i] as Word));
      assert data[i..][1..] == data[i + 1..];
      c := Xor(table[Low(Xor(c, data[i] as Word)) as int], Rest(c));
    }
    assert data[|data|..] == [];
    r := Xor(c, ONES);
  }

  // ---------------------------------------------------------------- the check value

  lemma ByteFed(c: Word, x: Word, d: Word, data: seq<Byte>)
    requires data != [] && x == Xor(c, data[0] as Word) && Bits(x, 8) == d
    ensures Feed(c, Message(data)) == Feed(d, Message(data[1..]))
  {
    hide BitStep, Xor, Bits, Feed, Pack, Fits, LowBits;
    FitsEight(data[0]);
    ByteIsItsBits(data[0], 8);
    FeedIsPackedSteps(c, BitsOf(data[0]));
    FeedConcat(c, BitsOf(data[0]), Message(data[1..]));
  }

  /** The register after each byte of the nine digits, starting from ones. */
  lemma DigitsFed()
    ensures Bits(0xFFFFFFCE, 8) == 0x7C231048
    ensures Bits(0x7C23107A, 8) == 0xB0ACBB32
    ensures Bits(0xB0ACBB01, 8) == 0x77B79C2D
    ensures Bits(0x77B79C19, 8) == 0x641C1F5C
    ensures Bits(0x641C1F69, 8) == 0x340AC5E3
    ensures Bits(0x340AC5D5, 8) == 0xF68D2C9E
    ensures Bits(0xF68D2CA9, 8) == 0xAFFC9660
    ensures Bits(0xAFFC9658, 8) == 0x651F2550
    ensures Bits(0x651F2569, 8) == 0x340BC6D9
  {}

  /** The well-known check value of this CRC, over the nine ASCII digits "123456789": it fixes the
      polynomial, the preset, the inversion and the order of the bits. */
  lemma CheckValue()
    ensures Reference([0x31, 0x32, 0x33, 0x34, 0x35, 0x36, 0x37, 0x38, 0x39]) == 0xCBF43926
  {
    var data: seq<Byte> := [0x31, 0x32, 0x33, 0x34, 0x35, 0x36, 0x37, 0x38, 0x39];
    DigitsFed();
    hide Bits, Feed, Message;
    assert data[0..] == data;
    assert data[0..][1..] == data[1..];
    ByteFed(0xFFFFFFFF, 0xFFFFFFCE, 0x7C231048, data[0..]);
    assert data[1..][1..] == data[2..];
    ByteFed(0x7C231048, 0x7C23107A, 0xB0ACBB32, data[1..]);
    assert data[2..][1..] == data[3..];
    ByteFed(0xB0ACBB32, 0xB0ACBB01, 0x77B79C2D, data[2..]);
    assert data[3..][1..] == data[4..];
    ByteFed(0x77B79C2D, 0x77B79C19, 0x641C1F5C, data[3..]);
    assert data[4..][1..] == data[5..];
    ByteFed(0x641C1F5C, 0x641C1F69, 0x340AC5E3, data[4..]);
    assert data[5..][1..] == data[6..];
    ByteFed(0x340AC5E3, 0x340AC5D5, 0xF68D2C9E, data[5..]);
    assert data[6..][1..] == data[7..];
    ByteFed(0xF68D2C9E, 0xF68D2CA9, 0xAFFC9660, data[6..]);
    assert data[7..][1..] == data[8..];
    ByteFed(0xAFFC9660, 0xAFFC9658, 0x651F2550, data[7..]);
    assert data[8..][1..] == data[9..];
    ByteFed(0x651F2550, 0x651F2569, 0x340BC6D9, data[8..]);
    NothingFed(0x340BC6D9);
  }

  lemma NothingFed(c: Word)
    ensures Feed(c, Message([])) == c
  {}

  // ---------------------------------------------------------------- what the checksum detects

  lemma LowBitsDiffer(a: Byte, b: Byte)
    requires BitsOf(a) == BitsOf(b)
    ensures a == b
  {
    hide Xor, Double, Bit, Fits;
    FitsEight(a);
    FitsEight(b);
    ByteIsItsBits(a, 8);
    ByteIsItsBits(b, 8);
    assert a as Word == b as Word;
  }

  lemma {:induction false} MessageInjective(x: seq<Byte>, y: seq<Byte>)
    requires |x| == |y| && Message(x) == Message(y)
    ensures x == y
  {
    hide LowBits, BitsOf;
    if x != [] {
      assert Message(x)[..8] == BitsOf(x[0]) && Message(y)[..8] == BitsOf(y[0]);
      assert Message(x)[8..] == Message(x[1..]) && Message(y)[8..] == Message(y[1..]);
      LowBitsDiffer(x[0], y[0]);
      MessageInjective(x[1..], y[1..]);
      assert x == [x[0]] + x[1..] && y == [y[0]] + y[1..];
    }
  }

  /** Equally long, and equal outside the n places from lo on. */
  predicate DifferOnlyIn<T(==)>(x: seq<T>, y: seq<T>, lo: nat, n: nat) {
    && |x| == |y| && lo + n <= |x|
    && x[..lo] == y[..lo] && x[lo + n..] == y[lo + n..]
  }

  /** Burst detection: two different payloads of the same length whose bit streams differ only
      inside 32 consecutive bits have different checksums. */
  lemma BurstDetected(x: seq<Byte>, y: seq<Byte>, lo: nat, n: nat)
    requires x != y && n <= 32 && DifferOnlyIn(Message(x), Message(y), lo, n)
    ensures Reference(x) != Reference(y)
  {
    hide BitStep, Xor, Feed, Message, Reference;
    var mx, my := Message(x), Message(y);
    var pre, post := mx[..lo], mx[lo + n..];
    var a, b := mx[lo..lo + n], my[lo..lo + n];
    assert mx == pre + (a + post) && my == pre + (b + post);
    if |x| == |y| && a == b {
      MessageInjective(x, y);
    } else {
      MessageLengths(x, y);
      WindowDetected(ONES, pre, a, b, post);
      SumsDiffer(x, y);
    }
  }

  lemma MessageLengths(x: seq<Byte>, y: seq<Byte>)
    requires |Message(x)| == |Message(y)|
    ensures |x| == |y|
  {}

  lemma SumsDiffer(x: seq<Byte>, y: seq<Byte>)
    requires Feed(ONES, Message(x)) != Feed(ONES, Message(y))
    ensures Reference(x) != Reference(y)
  {
    hide Feed, Message, Xor;
    if Reference(x) == Reference(y) {
      XorSameRight(Feed(ONES, Message(x)), Feed(ONES, Message(y)), ONES);
    }
  }

  lemma {:induction false} MessageConcat(a: seq<Byte>, b: seq<Byte>)
    ensures Message(a + b) == Message(a) + Message(b)
  {
    hide LowBits, BitsOf;
    if a == [] {
      assert a + b == b;
    } else {
      assert (a + b)[1..] == a[1..] + b;
      MessageConcat(a[1..], b);
    }
  }

  /** The same, in bytes: an alteration confined to four consecutive bytes never goes unnoticed. */
  lemma FourByteWindowDetected(x: seq<Byte>, y: seq<Byte>, lo: nat, n: nat)
    requires x != y && n <= 4 && DifferOnlyIn(x, y, lo, n)
    ensures Reference(x) != Reference(y)
  {
    hide Reference;
    var mx, my := Message(x), Message(y);
    assert x == x[..lo] + (x[lo..lo + n] + x[lo + n..]);
    assert y == x[..lo] + (y[lo..lo + n] + x[lo + n..]);
    MessageConcat(x[..lo], x[lo..lo + n] + x[lo + n..]);
    MessageConcat(x[lo..lo + n], x[lo + n..]);
    MessageConcat(x[..lo], y[lo..lo + n] + x[lo + n..]);
    MessageConcat(y[lo..lo + n], x[lo + n..]);
    assert mx[..8 * lo] == my[..8 * lo];
    assert mx[8 * lo + 8 * n..] == my[8 * lo + 8 * n..];
    BurstDetected(x, y, 8 * lo, 8 * n);
  }
}
