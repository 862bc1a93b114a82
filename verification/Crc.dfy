/** The table-driven cyclic redundancy check of MPEG-2 sections, Annex B of ISO 13818-1. */
module Crc {
  type Byte = bv8

  const POLY: bv32 := 0x04C1_1DB7

  // Words of 32 bits. The operations have names so that proofs can treat them as opaque.

  function Xor(a: bv32, b: bv32): bv32 {
    a ^ b
  }

  function Left(c: bv32): bv32 {
    c << 1
  }

  function Left8(c: bv32): bv32 {
    c << 8
  }

  predicate TopBit(c: bv32) {
    c & 0x8000_0000 != 0
  }

  function TopByte(c: bv32): Byte {
    (c >> 24) as Byte
  }

  function Word(d: Byte): bv32 {
    (d as bv32) << 24
  }

  // The reference: a shift register fed with one bit at a time, most significant bit first.

  function FeedBit(c: bv32, bit: bool): bv32 {
    if TopBit(c) != bit then Xor(Left(c), POLY) else Left(c)
  }

  function FeedBits(c: bv32, bits: seq<bool>): bv32
    decreases |bits|
  {
    if bits == [] then c else FeedBits(FeedBit(c, bits[0]), bits[1..])
  }

  predicate Bit(d: Byte, mask: Byte) {
    d & mask != 0
  }

  function Bits(d: Byte): seq<bool> {
    [Bit(d, 128)]
        + ([Bit(d, 64)] + ([Bit(d, 32)] + ([Bit(d, 16)] + ([Bit(d, 8)] + ([Bit(d, 4)] + ([Bit(d, 2)] + [Bit(d, 1)]))))))
  }

  function BitsOf(bytes: seq<Byte>): seq<bool> {
    if bytes == [] then [] else Bits(bytes[0]) + BitsOf(bytes[1..])
  }

  /** The check value of the reference. */
  function SerialCrc(bytes: seq<Byte>): bv32 {
    FeedBits(0xFFFF_FFFF, BitsOf(bytes))
  }

  // The table.

  function Shift(c: bv32): bv32 {
    if TopBit(c) then Xor(Left(c), POLY) else Left(c)
  }

  function Shifts(c: bv32, n: nat): bv32
    decreases n
  {
    if n == 0 then c else Shifts(Shift(c), n - 1)
  }

  /** The table entry of a byte. */
  function Entry(d: Byte): bv32 {
    Shifts(Word(d), 8)
  }

  function FeedByte(c: bv32, d: Byte): bv32 {
    Xor(Entry(d ^ TopByte(c)), Left8(c))
  }

  function FeedBytes(c: bv32, bytes: seq<Byte>): bv32
    decreases |bytes|
  {
    if bytes == [] then c else FeedBytes(FeedByte(c, bytes[0]), bytes[1..])
  }

  // Algebra of words.

  lemma XorWords(a: bv32, b: bv32)
    ensures Xor(a, b) == a ^ b
  {
  }

  lemma AssociateWords(a: bv32, b: bv32, c: bv32)
    ensures Xor(a ^ b, c) == Xor(a, b ^ c)
  {
  }

  lemma XorAssociates(a: bv32, b: bv32, c: bv32)
    ensures Xor(Xor(a, b), c) == Xor(a, Xor(b, c))
  {
    AssociateWords(a, b, c);
    XorWords(a, b);
    XorWords(b, c);
    hide Xor;
  }

  lemma XorCommutes(a: bv32, b: bv32)
    ensures Xor(a, b) == Xor(b, a)
  {
  }

  lemma XorCancels(a: bv32)
    ensures Xor(a, a) == 0 && Xor(a, 0) == a
  {
  }

  lemma ShiftWords(a: bv32, b: bv32)
    ensures Left(a ^ b) == Left(a) ^ Left(b)
  {
  }

  lemma ShiftWords8(a: bv32, b: bv32)
    ensures Left8(a ^ b) == Left8(a) ^ Left8(b)
  {
  }

  lemma LeftXor(a: bv32, b: bv32)
    ensures Left(Xor(a, b)) == Xor(Left(a), Left(b))
  {
    XorWords(a, b);
    XorWords(Left(a), Left(b));
    hide Xor;
    ShiftWords(a, b);
    hide Left;
  }

  lemma Left8Xor(a: bv32, b: bv32)
    ensures Left8(Xor(a, b)) == Xor(Left8(a), Left8(b))
  {
    XorWords(a, b);
    XorWords(Left8(a), Left8(b));
    hide Xor;
    ShiftWords8(a, b);
    hide Left8;
  }

  lemma TopOfWords(a: bv32, b: bv32)
    ensures TopBit(a ^ b) <==> TopBit(a) != TopBit(b)
    ensures TopByte(a ^ b) == TopByte(a) ^ TopByte(b)
  {
  }

  lemma TopOfXor(a: bv32, b: bv32)
    ensures TopBit(Xor(a, b)) <==> TopBit(a) != TopBit(b)
    ensures TopByte(Xor(a, b)) == TopByte(a) ^ TopByte(b)
  {
    XorWords(a, b);
    hide Xor;
    TopOfWords(a, b);
    hide TopBit;
    hide TopByte;
  }

  /** (a ^ p) ^ b == (a ^ b) ^ p, and p cancels if both have it. */
  lemma XorSwaps(a: bv32, b: bv32, p: bv32)
    ensures Xor(Xor(a, p), b) == Xor(Xor(a, b), p)
    ensures Xor(a, Xor(b, p)) == Xor(Xor(a, b), p)
    ensures Xor(Xor(a, p), Xor(b, p)) == Xor(a, b)
  {
    hide Xor;
    XorAssociates(a, p, b);
    XorCommutes(p, b);
    XorAssociates(a, b, p);
    XorAssociates(Xor(a, p), b, p);
    XorAssociates(Xor(a, b), p, p);
    XorCancels(p);
    XorCancels(Xor(a, b));
  }

  lemma XorZero(a: bv32, b: bv32)
    ensures Xor(a, b) == 0 <==> a == b
  {
    hide Xor;
    XorAssociates(a, b, b);
    XorCancels(a);
    XorCancels(b);
    XorCommutes(0, b);
  }

  // The shift register.

  /** Feeding a bit into a register that differs by w from s. */
  lemma ShiftFeeds(s: bv32, w: bv32)
    ensures Shift(Xor(s, w)) == Xor(FeedBit(s, TopBit(w)), Left(w))
  {
    hide Xor;
    hide Left;
    hide TopBit;
    TopOfXor(s, w);
    LeftXor(s, w);
    XorSwaps(Left(s), Left(w), POLY);
  }

  lemma ShiftIsLinear(a: bv32, b: bv32)
    ensures Shift(Xor(a, b)) == Xor(Shift(a), Shift(b))
  {
    hide Xor;
    hide Left;
    hide TopBit;
    TopOfXor(a, b);
    LeftXor(a, b);
    XorSwaps(Left(a), Left(b), POLY);
  }

  lemma ShiftKeepsNonzero(c: bv32)
    ensures Shift(c) == 0 <==> c == 0
  {
  }

  lemma {:induction false} ShiftsAreLinear(a: bv32, b: bv32, n: nat)
    ensures Shifts(Xor(a, b), n) == Xor(Shifts(a, n), Shifts(b, n))
    decreases n
  {
    hide Shift;
    hide Xor;
    if n > 0 {
      ShiftIsLinear(a, b);
      ShiftsAreLinear(Shift(a), Shift(b), n - 1);
    }
  }

  lemma {:induction false} ShiftsKeepNonzero(c: bv32, n: nat)
    ensures Shifts(c, n) == 0 <==> c == 0
    decreases n
  {
    hide Shift;
    if n > 0 {
      ShiftKeepsNonzero(c);
      ShiftsKeepNonzero(Shift(c), n - 1);
    }
  }

  /** Different registers stay different. */
  lemma ShiftsAreInjective(a: bv32, b: bv32, n: nat)
    ensures Shifts(a, n) == Shifts(b, n) <==> a == b
  {
    ShiftsAreLinear(a, b, n);
    ShiftsKeepNonzero(Xor(a, b), n);
    XorZero(a, b);
    XorZero(Shifts(a, n), Shifts(b, n));
    hide Xor;
    hide Shifts;
  }

  function Lefts(w: bv32, n: nat): bv32
    decreases n
  {
    if n == 0 then w else Lefts(Left(w), n - 1)
  }

  function TopBits(w: bv32, n: nat): seq<bool>
    decreases n
  {
    if n == 0 then [] else [TopBit(w)] + TopBits(Left(w), n - 1)
  }

  lemma {:induction false} ShiftsFeed(s: bv32, w: bv32, n: nat)
    ensures Shifts(Xor(s, w), n) == Xor(FeedBits(s, TopBits(w, n)), Lefts(w, n))
    decreases n
  {
    hide Xor;
    hide Shift;
    hide FeedBit;
    hide TopBit;
    hide Left;
    if n > 0 {
      ShiftFeeds(s, w);
      ShiftsFeed(FeedBit(s, TopBit(w)), Left(w), n - 1);
      assert TopBits(w, n)[1..] == TopBits(Left(w), n - 1);
    }
  }

  lemma TopsOfWord(d: Byte)
    ensures TopBit((d as bv32) << 24) <==> Bit(d, 128)
    ensures TopBit((d as bv32) << 25) <==> Bit(d, 64)
    ensures TopBit((d as bv32) << 26) <==> Bit(d, 32)
    ensures TopBit((d as bv32) << 27) <==> Bit(d, 16)
    ensures TopBit((d as bv32) << 28) <==> Bit(d, 8)
    ensures TopBit((d as bv32) << 29) <==> Bit(d, 4)
    ensures TopBit((d as bv32) << 30) <==> Bit(d, 2)
    ensures TopBit((d as bv32) << 31) <==> Bit(d, 1)
  {
  }

  lemma LeftsOfWord(d: Byte)
    ensures Left((d as bv32) << 24) == (d as bv32) << 25
    ensures Left((d as bv32) << 25) == (d as bv32) << 26
    ensures Left((d as bv32) << 26) == (d as bv32) << 27
    ensures Left((d as bv32) << 27) == (d as bv32) << 28
    ensures Left((d as bv32) << 28) == (d as bv32) << 29
    ensures Left((d as bv32) << 29) == (d as bv32) << 30
    ensures Left((d as bv32) << 30) == (d as bv32) << 31
    ensures Left((d as bv32) << 31) == 0
  {
  }

  lemma LastTopBit(w: bv32, b: bool)
    requires TopBit(w) == b && Left(w) == 0
    ensures TopBits(w, 1) == [b] && Lefts(w, 1) == 0
  {
  }

  lemma NextTopBit(w: bv32, n: nat, b: bool, v: bv32, rest: seq<bool>)
    requires TopBit(w) == b && Left(w) == v && TopBits(v, n) == rest && Lefts(v, n) == 0
    ensures TopBits(w, n + 1) == [b] + rest && Lefts(w, n + 1) == 0
  {
  }

  lemma EightTopBits(
    w0: bv32, w1: bv32, w2: bv32, w3: bv32, w4: bv32, w5: bv32, w6: bv32, w7: bv32,
    b0: bool, b1: bool, b2: bool, b3: bool, b4: bool, b5: bool, b6: bool, b7: bool)
    requires TopBit(w0) == b0 && TopBit(w1) == b1 && TopBit(w2) == b2 && TopBit(w3) == b3
             && TopBit(w4) == b4 && TopBit(w5) == b5 && TopBit(w6) == b6 && TopBit(w7) == b7
    requires Left(w0) == w1 && Left(w1) == w2 && Left(w2) == w3 && Left(w3) == w4
             && Left(w4) == w5 && Left(w5) == w6 && Left(w6) == w7 && Left(w7) == 0
    ensures TopBits(w0, 8) == [b0] + ([b1] + ([b2] + ([b3] + ([b4] + ([b5] + ([b6] + [b7]))))))
    ensures Lefts(w0, 8) == 0
  {
    hide TopBit;
    hide Left;
    hide TopBits;
    hide Lefts;
    LastTopBit(w7, b7);
    NextTopBit(w6, 1, b6, w7, [b7]);
    NextTopBit(w5, 2, b5, w6, [b6] + [b7]);
    NextTopBit(w4, 3, b4, w5, [b5] + ([b6] + [b7]));
    NextTopBit(w3, 4, b3, w4, [b4] + ([b5] + ([b6] + [b7])));
    NextTopBit(w2, 5, b2, w3, [b3] + ([b4] + ([b5] + ([b6] + [b7]))));
    NextTopBit(w1, 6, b1, w2, [b2] + ([b3] + ([b4] + ([b5] + ([b6] + [b7])))));
    NextTopBit(w0, 7, b0, w1, [b1] + ([b2] + ([b3] + ([b4] + ([b5] + ([b6] + [b7]))))));
  }

  lemma BitsOfWord(d: Byte)
    ensures TopBits(Word(d), 8) == Bits(d) && Lefts(Word(d), 8) == 0
  {
    TopsOfWord(d);
    LeftsOfWord(d);
    hide TopBit;
    hide Left;
    hide Bit;
    hide TopBits;
    hide Lefts;
    EightTopBits((d as bv32) << 24, (d as bv32) << 25, (d as bv32) << 26, (d as bv32) << 27,
      (d as bv32) << 28, (d as bv32) << 29, (d as bv32) << 30, (d as bv32) << 31,
      Bit(d, 128), Bit(d, 64), Bit(d, 32), Bit(d, 16), Bit(d, 8), Bit(d, 4), Bit(d, 2), Bit(d, 1));
  }

  // A byte at a time.

  lemma {:induction false} FeedBitsConcat(c: bv32, a: seq<bool>, b: seq<bool>)
    ensures FeedBits(c, a + b) == FeedBits(FeedBits(c, a), b)
    decreases |a|
  {
    hide FeedBit;
    if a == [] {
      assert a + b == b;
    } else {
      assert (a + b)[0] == a[0] && (a + b)[1..] == a[1..] + b;
      FeedBitsConcat(FeedBit(c, a[0]), a[1..], b);
    }
  }

  function LowBytes(c: bv32): bv32 {
    c & 0x00FF_FFFF
  }

  lemma SplitWord(c: bv32)
    ensures c == Xor(Word(TopByte(c)), LowBytes(c))
  {
  }

  lemma LeftOfLow(c: bv32)
    ensures Left8(LowBytes(c)) == Left8(c)
  {
  }

  lemma LeftsOfLow(c: bv32)
    ensures Left(LowBytes(c)) == LowBytes(c) << 1 && Left(LowBytes(c) << 1) == LowBytes(c) << 2
    ensures Left(LowBytes(c) << 2) == LowBytes(c) << 3 && Left(LowBytes(c) << 3) == LowBytes(c) << 4
    ensures Left(LowBytes(c) << 4) == LowBytes(c) << 5 && Left(LowBytes(c) << 5) == LowBytes(c) << 6
    ensures Left(LowBytes(c) << 6) == LowBytes(c) << 7 && Left(LowBytes(c) << 7) == Left8(LowBytes(c))
  {
  }

  lemma TopsOfLow(c: bv32)
    ensures !TopBit(LowBytes(c)) && !TopBit(LowBytes(c) << 1) && !TopBit(LowBytes(c) << 2) && !TopBit(LowBytes(c) << 3)
    ensures !TopBit(LowBytes(c) << 4) && !TopBit(LowBytes(c) << 5) && !TopBit(LowBytes(c) << 6)
        && !TopBit(LowBytes(c) << 7)
  {
  }

  lemma EightLows(w0: bv32, w1: bv32, w2: bv32, w3: bv32, w4: bv32, w5: bv32, w6: bv32, w7: bv32, w8: bv32)
    requires !TopBit(w0) && !TopBit(w1) && !TopBit(w2) && !TopBit(w3)
    requires !TopBit(w4) && !TopBit(w5) && !TopBit(w6) && !TopBit(w7)
    requires Left(w0) == w1 && Left(w1) == w2 && Left(w2) == w3 && Left(w3) == w4
    requires Left(w4) == w5 && Left(w5) == w6 && Left(w6) == w7 && Left(w7) == w8
    ensures Shifts(w0, 8) == w8
  {
    hide TopBit;
    hide Left;
    assert Shifts(w6, 2) == w8;
    assert Shifts(w3, 5) == w8;
  }

  /** Without a bit at the top the register only shifts. */
  lemma ShiftsOfLow(c: bv32)
    ensures Shifts(LowBytes(c), 8) == Left8(c)
  {
    LeftOfLow(c);
    LeftsOfLow(c);
    TopsOfLow(c);
    hide TopBit;
    hide Left;
    hide Left8;
    hide LowBytes;
    hide Shifts;
    EightLows(LowBytes(c), LowBytes(c) << 1, LowBytes(c) << 2, LowBytes(c) << 3, LowBytes(c) << 4,
      LowBytes(c) << 5, LowBytes(c) << 6, LowBytes(c) << 7, Left8(LowBytes(c)));
  }

  /** The table entry of the top byte replaces eight shifts. */
  lemma EightShifts(c: bv32)
    ensures Shifts(c, 8) == Xor(Entry(TopByte(c)), Left8(c))
  {
    hide Xor;
    hide Shifts;
    hide Word;
    hide TopByte;
    hide LowBytes;
    hide Left8;
    SplitWord(c);
    ShiftsAreLinear(Word(TopByte(c)), LowBytes(c), 8);
    ShiftsOfLow(c);
  }

  /** Feeding a byte into a register that differs by w from s. */
  lemma EightShiftsFeed(s: bv32, w: bv32)
    ensures Shifts(Xor(s, w), 8) == Xor(FeedByte(s, TopByte(w)), Left8(w))
  {
    EightShifts(Xor(s, w));
    TopOfXor(s, w);
    Left8Xor(s, w);
    CommuteBytes(TopByte(s), TopByte(w));
    hide Xor;
    hide Shifts;
    hide Entry;
    hide TopByte;
    hide Left8;
    XorAssociates(Entry(TopByte(w) ^ TopByte(s)), Left8(s), Left8(w));
  }

  lemma CommuteBytes(a: Byte, b: Byte)
    ensures a ^ b == b ^ a
  {
  }

  lemma WordOfByte(d: Byte)
    ensures TopByte(Word(d)) == d && Left8(Word(d)) == 0
  {
  }

  lemma FeedByteIsSerial(s: bv32, d: Byte)
    ensures FeedByte(s, d) == FeedBits(s, Bits(d))
  {
    EightShiftsFeed(s, Word(d));
    ShiftsFeed(s, Word(d), 8);
    BitsOfWord(d);
    WordOfByte(d);
    XorCancels(FeedByte(s, d));
    XorCancels(FeedBits(s, Bits(d)));
    hide Xor;
    hide Shifts;
    hide FeedByte;
    hide FeedBits;
    hide Bits;
    hide TopByte;
    hide Word;
    hide TopBits;
    hide Lefts;
  }

  /** The table-driven check value is that of the shift register, for all byte strings. */
  lemma {:induction false} FeedBytesIsSerial(c: bv32, bytes: seq<Byte>)
    ensures FeedBytes(c, bytes) == FeedBits(c, BitsOf(bytes))
    decreases |bytes|
  {
    hide FeedByte;
    hide Bits;
    if bytes != [] {
      FeedByteIsSerial(c, bytes[0]);
      FeedBitsConcat(c, Bits(bytes[0]), BitsOf(bytes[1..]));
      FeedBytesIsSerial(FeedByte(c, bytes[0]), bytes[1..]);
    }
  }

  // What the check value is good for.

  lemma {:induction false} FeedBytesConcat(c: bv32, a: seq<Byte>, b: seq<Byte>)
    ensures FeedBytes(c, a + b) == FeedBytes(FeedBytes(c, a), b)
    decreases |a|
  {
    hide FeedByte;
    if a == [] {
      assert a + b == b;
    } else {
      assert (a + b)[0] == a[0] && (a + b)[1..] == a[1..] + b;
      FeedBytesConcat(FeedByte(c, a[0]), a[1..], b);
    }
  }

  /** The bytes of a word, high byte first. */
  function BytesOf(w: bv32): seq<Byte> {
    [TopByte(w), TopByte(w << 8), TopByte(w << 16), TopByte(w << 24)]
  }

  lemma BytesOfLeft(w: bv32)
    ensures TopByte(w << 8) == TopByte(Left8(w)) && TopByte(w << 16) == TopByte(Left8(Left8(w)))
    ensures TopByte(w << 24) == TopByte(Left8(Left8(Left8(w))))
    ensures Left8(Left8(Left8(Left8(w)))) == 0
  {
  }

  function Join(a: Byte, b: Byte, c: Byte, d: Byte): bv32 {
    ((a as bv32) << 24) | ((b as bv32) << 16) | ((c as bv32) << 8) | (d as bv32)
  }

  lemma JoinBytes(a: Byte, b: Byte, c: Byte, d: Byte)
    ensures TopByte(Join(a, b, c, d)) == a && TopByte(Join(a, b, c, d) << 8) == b
    ensures TopByte(Join(a, b, c, d) << 16) == c && TopByte(Join(a, b, c, d) << 24) == d
  {
  }

  /** Every four bytes are those of a word. */
  lemma FourBytesAreAWord(u: seq<Byte>) returns (w: bv32)
    requires |u| == 4
    ensures BytesOf(w) == u
  {
    w := Join(u[0], u[1], u[2], u[3]);
    JoinBytes(u[0], u[1], u[2], u[3]);
    hide TopByte;
    hide Join;
  }

  lemma {:induction false} ShiftsAdd(c: bv32, m: nat, n: nat)
    ensures Shifts(c, m + n) == Shifts(Shifts(c, m), n)
    decreases m
  {
    hide Shift;
    if m > 0 {
      ShiftsAdd(Shift(c), m - 1, n);
    }
  }

  lemma FeedFour(c: bv32, u: seq<Byte>)
    requires |u| == 4
    ensures FeedBytes(c, u) == FeedByte(FeedByte(FeedByte(FeedByte(c, u[0]), u[1]), u[2]), u[3])
  {
    hide FeedByte;
    FeedBytesConcat(c, u[..2], u[2..]);
    assert u[..2] + u[2..] == u;
    FeedTwo(c, u[..2]);
    FeedTwo(FeedBytes(c, u[..2]), u[2..]);
  }

  lemma FeedTwo(c: bv32, u: seq<Byte>)
    requires |u| == 2
    ensures FeedBytes(c, u) == FeedByte(FeedByte(c, u[0]), u[1])
  {
    hide FeedByte;
    assert u[1..][1..] == [];
    assert FeedBytes(FeedByte(c, u[0]), u[1..]) == FeedByte(FeedByte(c, u[0]), u[1]);
  }

  /** Feeding the four bytes of a word. */
  lemma FeedWord(s: bv32, w: bv32)
    ensures FeedBytes(s, BytesOf(w)) == Shifts(Xor(s, w), 32)
  {
    BytesOfLeft(w);
    hide FeedByte;
    hide Shifts;
    hide Xor;
    hide TopByte;
    hide Left8;
    FeedFour(s, BytesOf(w));
    var w1, w2, w3 := Left8(w), Left8(Left8(w)), Left8(Left8(Left8(w)));
    var s1 := FeedByte(s, TopByte(w));
    var s2 := FeedByte(s1, TopByte(w1));
    var s3 := FeedByte(s2, TopByte(w2));
    EightShiftsFeed(s, w);
    EightShiftsFeed(s1, w1);
    EightShiftsFeed(s2, w2);
    EightShiftsFeed(s3, w3);
    ShiftsAdd(Xor(s, w), 8, 24);
    ShiftsAdd(Xor(s1, w1), 8, 16);
    ShiftsAdd(Xor(s2, w2), 8, 8);
    XorCancels(FeedByte(s3, TopByte(w3)));
  }

  /** A section ends in its check value exactly if the check value of the whole is zero. */
  lemma AppendedCrcGivesZero(c: bv32, u: seq<Byte>)
    requires |u| == 4
    ensures FeedBytes(c, u) == 0 <==> u == BytesOf(c)
  {
    hide Shifts;
    hide Xor;
    hide BytesOf;
    hide FeedBytes;
    var w := FourBytesAreAWord(u);
    FeedWord(c, w);
    ShiftsKeepNonzero(Xor(c, w), 32);
    XorZero(c, w);
    FeedWord(c, c);
    XorZero(c, c);
    ShiftsKeepNonzero(Xor(c, c), 32);
  }

  lemma FeedByteIsInjective(a: bv32, b: bv32, d: Byte)
    requires FeedByte(a, d) == FeedByte(b, d)
    ensures a == b
  {
    hide FeedByte;
    hide Shifts;
    hide Xor;
    hide Word;
    hide TopByte;
    hide Left8;
    EightShiftsFeed(a, Word(d));
    EightShiftsFeed(b, Word(d));
    WordOfByte(d);
    ShiftsAreInjective(Xor(a, Word(d)), Xor(b, Word(d)), 8);
    XorRight(a, b, Word(d));
  }

  lemma XorRight(a: bv32, b: bv32, w: bv32)
    requires Xor(a, w) == Xor(b, w)
    ensures a == b
  {
    XorSwaps(a, b, w);
    XorZero(Xor(a, w), Xor(b, w));
    XorZero(a, b);
    hide Xor;
  }

  lemma XorLeft(a: bv32, b: bv32, w: bv32)
    requires Xor(w, a) == Xor(w, b)
    ensures a == b
  {
    XorCommutes(w, a);
    XorCommutes(w, b);
    hide Xor;
    XorRight(a, b, w);
  }

  lemma {:induction false} FeedBytesIsInjective(a: bv32, b: bv32, bytes: seq<Byte>)
    requires FeedBytes(a, bytes) == FeedBytes(b, bytes)
    ensures a == b
    decreases |bytes|
  {
    hide FeedByte;
    if bytes != [] {
      FeedBytesIsInjective(FeedByte(a, bytes[0]), FeedByte(b, bytes[0]), bytes[1..]);
      FeedByteIsInjective(a, b, bytes[0]);
    }
  }

  /** Messages that differ only within four consecutive bytes have different check values. */
  lemma BurstIsDetected(c: bv32, before: seq<Byte>, u: seq<Byte>, v: seq<Byte>, after: seq<Byte>)
    requires |u| == |v| == 4 && u != v
    ensures FeedBytes(c, before + u + after) != FeedBytes(c, before + v + after)
  {
    hide FeedBytes;
    hide Shifts;
    hide Xor;
    hide BytesOf;
    FeedBytesConcat(c, before + u, after);
    FeedBytesConcat(c, before + v, after);
    FeedBytesConcat(c, before, u);
    FeedBytesConcat(c, before, v);
    var s := FeedBytes(c, before);
    var wu := FourBytesAreAWord(u);
    var wv := FourBytesAreAWord(v);
    FeedWord(s, wu);
    FeedWord(s, wv);
    if FeedBytes(c, before + u + after) == FeedBytes(c, before + v + after) {
      FeedBytesIsInjective(FeedBytes(s, u), FeedBytes(s, v), after);
      ShiftsAreInjective(Xor(s, wu), Xor(s, wv), 32);
      XorLeft(wu, wv, s);
    }
  }

  lemma EntryIsShifts(d: Byte)
    ensures Entry(d) == Shifts(Word(d), 8)
  {
  }

  // The check value as computed with a table that is filled when first needed.

  class Table {
    const entries: array<bv32>

    ghost predicate Filled()
      reads entries
    {
      entries.Length == 256 && forall i: int :: 0 <= i < 256 ==> entries[i] == Entry(i as Byte)
    }

    ghost predicate Valid()
      reads entries
    {
      entries.Length == 256 && (entries[255] != 0 ==> Filled())
    }

    constructor ()
      ensures Valid() && fresh(entries)
    {
      entries := new bv32[256](_ => 0);
    }

    method Fill()
      requires Valid()
      modifies entries
      ensures Filled()
    {
      hide Shift;
      hide Word;
      hide Entry;
      for i := 0 to 256
        invariant forall k: int :: 0 <= k < i ==> entries[k] == Entry(k as Byte)
      {
        var c := Word(i as Byte);
        EntryIsShifts(i as Byte);
        for j := 0 to 8
          invariant Shifts(c, 8 - j) == Entry(i as Byte)
          invariant forall k: int :: 0 <= k < i ==> entries[k] == Entry(k as Byte)
        {
          c := Shift(c);
        }
        assert c == Entry(i as Byte);
        entries[i] := c;
      }
    }

    /** The check value of the bytes, the same as that of the shift register. */
    method Mpeg2Crc(buf: seq<Byte>) returns (crc: bv32)
      requires Valid()
      modifies entries
      ensures Valid() && crc == SerialCrc(buf)
    {
      if entries[255] == 0 {
        Fill();
        LastEntryIsNonzero();
        assert entries[255] != 0;
      }
      crc := 0xFFFF_FFFF;
      for i := 0 to |buf|
        invariant FeedBytes(crc, buf[i..]) == FeedBytes(0xFFFF_FFFF, buf)
      {
        crc := Xor(entries[(buf[i] ^ TopByte(crc)) as int], Left8(crc));
        assert buf[i..][1..] == buf[i + 1..];
      }
      FeedBytesIsSerial(0xFFFF_FFFF, buf);
    }

    method PutWord(buf: array<Byte>, at: nat, w: bv32)
      requires at + 4 <= buf.Length
      modifies buf
      ensures buf[at..at + 4] == BytesOf(w)
      ensures forall k :: 0 <= k < buf.Length && !(at <= k < at + 4) ==> buf[k] == old(buf[k])
    {
      hide TopByte;
      buf[at] := TopByte(w);
      buf[at + 1] := TopByte(w << 8);
      buf[at + 2] := TopByte(w << 16);
      buf[at + 3] := TopByte(w << 24);
    }

    method Pad(buf: array<Byte>, from: nat)
      requires from <= buf.Length
      modifies buf
      ensures buf[..from] == old(buf[..from])
      ensures forall k :: from <= k < buf.Length ==> buf[k] == 0xFF
    {
      for k := from to buf.Length
        invariant buf[..from] == old(buf[..from])
        invariant forall j :: from <= j < k ==> buf[j] == 0xFF
      {
        buf[k] := 0xFF;
      }
    }

    /** Appends the check value to the section from 5 up to `end`, and padding. */
    method Seal(buf: array<Byte>, end: nat)
      requires Valid() && buf.Length == 188 && 5 <= end <= 184
      modifies buf, entries
      ensures Valid() && buf[..end] == old(buf[..end])
      ensures SerialCrc(buf[5..end + 4]) == 0
      ensures forall k :: end + 4 <= k < 188 ==> buf[k] == 0xFF
    {
      ghost var was := buf[..end];
      var crc := Mpeg2Crc(buf[5..end]);
      hide SerialCrc;
      hide BytesOf;
      PutWord(buf, end, crc);
      assert buf[..end] == was;
      assert buf[5..end] == was[5..];
      assert buf[5..end + 4] == buf[5..end] + buf[end..end + 4];
      SealedSection(buf[5..end], buf[end..end + 4]);
      ghost var sealed := buf[..end + 4];
      assert buf[5..end + 4] == sealed[5..];
      Pad(buf, end + 4);
      assert buf[5..end + 4] == sealed[5..];
      assert buf[..end] == sealed[..end];
    }

    /** The program association section; returns the next continuity counter. */
    method InitPat(buf: array<Byte>, patCc: Byte) returns (cc: Byte)
      requires Valid() && buf.Length == 188
      modifies buf, entries
      ensures Valid() && cc == patCc + 1
      ensures SerialCrc(buf[5..21]) == 0
      ensures buf[0] == 0x47 && buf[1] == 0x40 && buf[2] == 0 && buf[3] == 0x10 | (patCc & 15) && buf[4] == 0
      ensures buf[5] == 0 && buf[6] == 0xB0 && buf[7] == 13 && buf[8] == 0 && buf[9] == 1 && buf[10] == 0xC1
      ensures buf[11] == 0 && buf[12] == 0 && buf[13] == 0 && buf[14] == 1 && buf[15] == 0xE5 && buf[16] == 0xA5
      ensures forall k :: 21 <= k < 188 ==> buf[k] == 0xFF
    {
      hide SerialCrc;
      hide Entry;
      buf[0], buf[1], buf[2] := 0x47, 0x40, 0x00;
      buf[3] := 0x10 | (patCc & 0x0F);
      cc := patCc + 1;
      buf[4] := 0x00;
      buf[5] := 0x00;
      buf[6], buf[7] := 0xB0, 21 - 8;
      buf[8], buf[9] := 0x00, 0x01;
      buf[10] := 0xC1;
      buf[11], buf[12] := 0x00, 0x00;
      buf[13], buf[14] := 0x00, 0x01;
      buf[15], buf[16] := 0xE5, 0xA5;
      Seal(buf, 17);
      assert forall k :: 0 <= k < 17 ==> buf[..17][k] == buf[k];
    }
  }

  lemma SealedSection(section: seq<Byte>, crc: seq<Byte>)
    requires crc == BytesOf(SerialCrc(section))
    ensures SerialCrc(section + crc) == 0
  {
    FeedBytesIsSerial(0xFFFF_FFFF, section);
    FeedBytesIsSerial(0xFFFF_FFFF, section + crc);
    FeedBytesConcat(0xFFFF_FFFF, section, crc);
    hide FeedBytes;
    hide FeedBits;
    AppendedCrcGivesZero(FeedBytes(0xFFFF_FFFF, section), crc);
    hide BytesOf;
  }

  lemma LastEntryIsNonzero()
    ensures Entry(255 as Byte) != 0
  {
    ShiftsKeepNonzero(Word(255 as Byte), 8);
    hide Shifts;
  }
}
