/**
 The checksum of dev/dm9000.c, computed a nibble at a time from a table, against the polynomial division that
 defines the CRC-32 of section 3.2.9 of IEEE 802.3.
 */
module NicCrc {
  type Word = bv32
  type Octet = bv8

  function Xor(v: Word, w: Word): Word { v ^ w }
  function Half(w: Word): Word { w >> 1 }
  function By4(w: Word): Word { w >> 4 }
  function Low(w: Word): Word { w & 0xf }
  predicate LowSet(w: Word) { w & 1 != 0 }

  /** crctab */
  function Table(n: Word): Word {
    if n == 0 then 0x00000000
    else if n == 1 then 0x1db71064
    else if n == 2 then 0x3b6e20c8
    else if n == 3 then 0x26d930ac
    else if n == 4 then 0x76dc4190
    else if n == 5 then 0x6b6b51f4
    else if n == 6 then 0x4db26158
    else if n == 7 then 0x5005713c
    else if n == 8 then 0xedb88320
    else if n == 9 then 0xf00f9344
    else if n == 10 then 0xd6d6a3e8
    else if n == 11 then 0xcb61b38c
    else if n == 12 then 0x9b64c2b0
    else if n == 13 then 0x86d3d2d4
    else if n == 14 then 0xa00ae278
    else 0xbdbdf21c
  }

  function Nibble(crc: Word): Word {
    Xor(By4(crc), Table(Low(crc)))
  }

  lemma NibbleIs(crc: Word)
    ensures (crc >> 4) ^ Table(crc & 0xf) == Nibble(crc)
  {
    hide Table;
  }

  /** The checksum of a buffer: both nibbles of each octet go through the table. */
  function Checksum(buf: seq<Octet>): Word {
    if buf == [] then 0xffffffff
    else Nibble(Nibble(Xor(Checksum(buf[..|buf| - 1]), buf[|buf| - 1] as Word)))
  }

  method EtherCrc32Le(buf: seq<Octet>, len: nat) returns (crc: Word)
    requires len <= |buf| && len < 256
    ensures crc == Checksum(buf[..len])
  {
    hide Nibble, Table, Xor, By4, Low;
    crc := 0xffffffff;
    var i := 0;
    while i < len
      invariant i <= len && crc == Checksum(buf[..i])
    {
      assert buf[..i + 1][..i] == buf[..i];
      crc := Xor(crc, buf[i] as Word);
      NibbleIs(crc);
      crc := (crc >> 4) ^ Table(crc & 0xf);
      NibbleIs(crc);
      crc := (crc >> 4) ^ Table(crc & 0xf);
      i := i + 1;
    }
  }

  // --- The definition ---

  /** A polynomial of degree below 32: the coefficient of x^31 first. */
  type Poly = r: seq<bool> | |r| == 32 witness Flat(false, 32)

  function Flat(bit: bool, n: nat): (r: seq<bool>)
    ensures |r| == n && forall i :: 0 <= i < n ==> r[i] == bit
  {
    if n == 0 then [] else [bit] + Flat(bit, n - 1)
  }

  /** The terms of the generator below x^32. */
  predicate Term(e: int) {
    e in {26, 23, 22, 16, 12, 11, 10, 8, 7, 5, 4, 2, 1, 0}
  }

  function Generator(): Poly {
    seq(32, i requires 0 <= i < 32 => Term(31 - i))
  }

  function Sum(p: seq<bool>, q: seq<bool>): seq<bool>
    requires |p| == |q|
  {
    seq(|p|, i requires 0 <= i < |p| => p[i] != q[i])
  }

  /** The next message bit enters the division. */
  function Divide(rem: Poly, bit: bool): Poly {
    if rem[0] != bit then Sum(rem[1..] + [false], Generator()) else rem[1..] + [false]
  }

  function Remainder(rem: Poly, bits: seq<bool>): Poly {
    if bits == [] then rem else Divide(Remainder(rem, bits[..|bits| - 1]), bits[|bits| - 1])
  }

  predicate BitSet(b: Octet, mask: Octet) { b & mask != 0 }

  /** The bits of an octet in the order they are sent, bit 0 first. */
  function Sent(b: Octet): seq<bool> {
    SentFirst(b) + SentSecond(b)
  }

  function SentFirst(b: Octet): seq<bool> {
    [BitSet(b, 0x01), BitSet(b, 0x02), BitSet(b, 0x04), BitSet(b, 0x08)]
  }

  function SentSecond(b: Octet): seq<bool> {
    [BitSet(b, 0x10), BitSet(b, 0x20), BitSet(b, 0x40), BitSet(b, 0x80)]
  }

  function SentAll(buf: seq<Octet>): seq<bool> {
    if buf == [] then [] else SentAll(buf[..|buf| - 1]) + Sent(buf[|buf| - 1])
  }

  // --- The division on words, with the coefficient of x^31 in bit 0 ---

  const MIRRORED: Word := 0xEDB88320

  /** One step of the division where the next bit meets bit 0. */
  function Shift(crc: Word, bit: bool): Word {
    if LowSet(crc) != bit then Xor(Half(crc), MIRRORED) else Half(crc)
  }

  function ShiftAll(crc: Word, bits: seq<bool>): Word {
    if bits == [] then crc else Shift(ShiftAll(crc, bits[..|bits| - 1]), bits[|bits| - 1])
  }

  /** The lowest n bits of m, bit 0 first, and what is above them. */
  function LowBits(m: Word, n: nat): (r: seq<bool>)
    ensures |r| == n
    decreases n
  {
    if n == 0 then [] else [LowSet(m)] + LowBits(Half(m), n - 1)
  }

  function Above(m: Word, n: nat): Word
    decreases n
  {
    if n == 0 then m else Above(Half(m), n - 1)
  }

  /** The polynomial in a word. */
  function PolyOf(w: Word): Poly {
    LowBits(w, 32)
  }

  lemma LowFour(m: Word)
    ensures LowBits(m, 4) == [LowSet(m), LowSet(Half(m)), LowSet(Half(Half(m))), LowSet(Half(Half(Half(m))))]
    ensures Above(m, 4) == Half(Half(Half(Half(m))))
  {
    hide Half, LowSet;
    var m2 := Half(Half(m));
    assert LowBits(m2, 2) == [LowSet(m2), LowSet(Half(m2))];
    assert Above(m2, 2) == Half(Half(m2));
  }

  lemma {:induction false} LowBitsSplit(m: Word, k: nat, n: nat)
    ensures LowBits(m, k + n) == LowBits(m, k) + LowBits(Above(m, k), n)
    ensures Above(m, k + n) == Above(Above(m, k), n)
    decreases k
  {
    hide Half, LowSet;
    if k > 0 {
      LowBitsSplit(Half(m), k - 1, n);
      FirstBit(m, k);
      FirstBit(m, k + n);
    }
  }

  lemma FirstBit(m: Word, n: nat)
    requires n > 0
    ensures LowBits(m, n) == [LowSet(m)] + LowBits(Half(m), n - 1) && Above(m, n) == Above(Half(m), n - 1)
  {
    hide Half, LowSet;
  }

  lemma FourHalves(m: Word)
    ensures Half(Half(Half(Half(m)))) == By4(m)
  {
  }

  lemma AboveFour(m: Word, k: nat)
    ensures Above(m, k + 4) == By4(Above(m, k))
  {
    hide Half, LowSet, By4;
    LowBitsSplit(m, k, 4);
    LowFour(Above(m, k));
    FourHalves(Above(m, k));
  }

  lemma EightNibbles(m: Word)
    ensures By4(By4(By4(By4(By4(By4(By4(By4(m)))))))) == 0
  {
  }

  lemma AboveNone(m: Word)
    ensures Above(m, 0) == m
  {
  }

  /** Nothing is left above 32 bits. */
  lemma NothingAbove(m: Word)
    ensures Above(m, 32) == 0
  {
    hide Half, LowSet, LowBits, Above, By4;
    AboveNone(m);
    AboveFour(m, 0);
    AboveFour(m, 4);
    AboveFour(m, 8);
    AboveFour(m, 12);
    AboveFour(m, 16);
    AboveFour(m, 20);
    AboveFour(m, 24);
    AboveFour(m, 28);
    EightNibbles(m);
  }

  /** Halving drops the first coefficient and appends a zero. */
  lemma HalfShifts(w: Word)
    ensures PolyOf(Half(w)) == PolyOf(w)[1..] + [false]
  {
    hide Half, LowSet, LowBits, Above;
    FirstBit(w, 32);
    LowBitsSplit(Half(w), 31, 1);
    FirstBit(Above(Half(w), 31), 1);
    NoBits(Half(Above(Half(w), 31)));
    FirstBit(w, 32);
    NothingAbove(w);
    ZeroIsLow();
  }

  lemma NoBits(w: Word)
    ensures LowBits(w, 0) == []
  {
  }

  lemma ZeroIsLow()
    ensures !LowSet(0)
  {
  }

  lemma XorParts(v: Word, w: Word)
    ensures Half(Xor(v, w)) == Xor(Half(v), Half(w))
    ensures LowSet(Xor(v, w)) <==> LowSet(v) != LowSet(w)
    ensures Xor(v, 0) == v
  {
  }

  lemma {:induction false} XorSums(v: Word, w: Word, n: nat)
    ensures LowBits(Xor(v, w), n) == Sum(LowBits(v, n), LowBits(w, n))
    decreases n
  {
    hide Half, LowSet, LowBits, Above, Xor;
    if n == 0 {
      NoBits(v);
      NoBits(w);
      NoBits(Xor(v, w));
    } else {
      XorParts(v, w);
      XorSums(Half(v), Half(w), n - 1);
      FirstBit(v, n);
      FirstBit(w, n);
      FirstBit(Xor(v, w), n);
    }
  }

  /** The first nibble of a word, and the rest. */
  lemma NibbleFirst(w: Word, n: nat)
    ensures LowBits(w, n + 4) == LowBits(w, 4) + LowBits(By4(w), n)
  {
    hide Half, LowSet, LowBits, Above, By4;
    LowBitsSplit(w, 4, n);
    LowFour(w);
    FourHalves(w);
  }

  // --- One step ---

  /** The constants of the two lemmas below, shifted by nibbles. */
  lemma Shifted()
    ensures By4(0xEDB88320) == 0xEDB8832 && By4(0xEDB8832) == 0xEDB883 && By4(0xEDB883) == 0xEDB88
    ensures By4(0xEDB88) == 0xEDB8 && By4(0xEDB8) == 0xEDB && By4(0xEDB) == 0xED && By4(0xED) == 0xE
    ensures By4(0xffffffff) == 0xfffffff && By4(0xfffffff) == 0xffffff && By4(0xffffff) == 0xfffff
    ensures By4(0xfffff) == 0xffff && By4(0xffff) == 0xfff && By4(0xfff) == 0xff && By4(0xff) == 0xf
  {
  }

  lemma MirroredBits()
    ensures LowBits(0xEDB88320, 4) == [false, false, false, false]
    ensures LowBits(0xEDB8832, 4) == [false, true, false, false]
    ensures LowBits(0xEDB883, 4) == [true, true, false, false]
    ensures LowBits(0xEDB88, 4) == [false, false, false, true]
    ensures LowBits(0xEDB8, 4) == [false, false, false, true]
    ensures LowBits(0xEDB, 4) == [true, true, false, true]
    ensures LowBits(0xED, 4) == [true, false, true, true]
    ensures LowBits(0xE, 4) == [false, true, true, true]
  {
    LowFour(0xEDB88320);
    LowFour(0xEDB8832);
    LowFour(0xEDB883);
    LowFour(0xEDB88);
    LowFour(0xEDB8);
    LowFour(0xEDB);
    LowFour(0xED);
    LowFour(0xE);
  }

  lemma MirroredIsGenerator()
    ensures PolyOf(MIRRORED) == Generator()
  {
    hide LowBits, By4, Generator;
    Shifted();
    MirroredBits();
    NibbleFirst(0xEDB88320, 28);
    NibbleFirst(0xEDB8832, 24);
    NibbleFirst(0xEDB883, 20);
    NibbleFirst(0xEDB88, 16);
    NibbleFirst(0xEDB8, 12);
    NibbleFirst(0xEDB, 8);
    NibbleFirst(0xED, 4);
    GeneratorBits();
  }

  lemma GeneratorBits()
    ensures Generator() == [false, false, false, false] + ([false, true, false, false] + ([true, true, false, false] +
      ([false, false, false, true] + ([false, false, false, true] + ([true, true, false, true] +
      ([true, false, true, true] + [false, true, true, true]))))))
  {
  }

  lemma OnesBits()
    ensures LowBits(0xffffffff, 4) == Flat(true, 4) && LowBits(0xfffffff, 4) == Flat(true, 4)
    ensures LowBits(0xffffff, 4) == Flat(true, 4) && LowBits(0xfffff, 4) == Flat(true, 4)
    ensures LowBits(0xffff, 4) == Flat(true, 4) && LowBits(0xfff, 4) == Flat(true, 4)
    ensures LowBits(0xff, 4) == Flat(true, 4) && LowBits(0xf, 4) == Flat(true, 4)
  {
    LowFour(0xffffffff);
    LowFour(0xfffffff);
    LowFour(0xffffff);
    LowFour(0xfffff);
    LowFour(0xffff);
    LowFour(0xfff);
    LowFour(0xff);
    LowFour(0xf);
  }

  lemma FlatGrows(n: nat)
    ensures Flat(true, 4) + Flat(true, n) == Flat(true, n + 4)
  {
  }

  lemma OnesAreSet()
    ensures PolyOf(0xffffffff) == Flat(true, 32)
  {
    hide LowBits, By4, Flat;
    Shifted();
    OnesBits();
    NibbleFirst(0xffffffff, 28);
    NibbleFirst(0xfffffff, 24);
    NibbleFirst(0xffffff, 20);
    NibbleFirst(0xfffff, 16);
    NibbleFirst(0xffff, 12);
    NibbleFirst(0xfff, 8);
    NibbleFirst(0xff, 4);
    FlatGrows(28);
    FlatGrows(24);
    FlatGrows(20);
    FlatGrows(16);
    FlatGrows(12);
    FlatGrows(8);
    FlatGrows(4);
  }

  lemma LowIsFirst(w: Word)
    ensures PolyOf(w)[0] == LowSet(w)
  {
    hide LowSet, Half;
  }

  /** A step on the word is a step of the division on its polynomial. */
  lemma ShiftDivides(crc: Word, bit: bool)
    ensures PolyOf(Shift(crc, bit)) == Divide(PolyOf(crc), bit)
  {
    hide PolyOf, LowBits, Half, LowSet, Xor, Sum;
    LowIsFirst(crc);
    HalfShifts(crc);
    if LowSet(crc) != bit {
      PolyOfXor(Half(crc), MIRRORED);
      MirroredIsGenerator();
    }
  }

  lemma PolyOfXor(v: Word, w: Word)
    ensures PolyOf(Xor(v, w)) == Sum(PolyOf(v), PolyOf(w))
  {
    hide LowBits, Sum, Xor;
    XorSums(v, w, 32);
  }

  lemma {:induction false} ShiftAllDivides(crc: Word, bits: seq<bool>)
    ensures PolyOf(ShiftAll(crc, bits)) == Remainder(PolyOf(crc), bits)
    decreases |bits|
  {
    hide PolyOf, Shift, Divide;
    if bits != [] {
      ShiftAllDivides(crc, bits[..|bits| - 1]);
      ShiftDivides(ShiftAll(crc, bits[..|bits| - 1]), bits[|bits| - 1]);
    }
  }

  // --- Four and eight bits at a time ---

  lemma {:induction false} ShiftAllConcat(crc: Word, bits: seq<bool>, more: seq<bool>)
    ensures ShiftAll(crc, bits + more) == ShiftAll(ShiftAll(crc, bits), more)
    decreases |more|
  {
    hide Shift;
    if more == [] {
      assert bits + more == bits;
    } else {
      ShiftAllConcat(crc, bits, more[..|more| - 1]);
      assert (bits + more)[..|bits + more| - 1] == bits + more[..|more| - 1];
    }
  }

  /** n zero bits enter the division. */
  function Idle(crc: Word, n: nat): Word
    decreases n
  {
    if n == 0 then crc else Idle(Shift(crc, false), n - 1)
  }

  lemma XorSwaps(u: Word, v: Word)
    ensures Xor(Xor(u, v), MIRRORED) == Xor(Xor(u, MIRRORED), v)
  {
  }

  lemma XorJoins(u: Word, v: Word)
    ensures Xor(u, Xor(v, MIRRORED)) == Xor(Xor(u, v), MIRRORED)
  {
  }

  lemma XorCancels(u: Word, v: Word)
    ensures Xor(Xor(u, MIRRORED), Xor(v, MIRRORED)) == Xor(u, v)
  {
  }

  /** Bits added in advance enter the division when they reach bit 0. */
  lemma ShiftEarly(crc: Word, m: Word)
    ensures Shift(Xor(crc, m), false) == Xor(Shift(crc, LowSet(m)), Half(m))
  {
    hide Xor, Half, LowSet;
    XorParts(crc, m);
    XorSwaps(Half(crc), Half(m));
  }

  lemma {:induction false} IdleTakesBits(crc: Word, m: Word, n: nat)
    ensures Idle(Xor(crc, m), n) == Xor(ShiftAll(crc, LowBits(m, n)), Above(m, n))
    decreases n
  {
    hide Shift, Xor, Half, LowSet;
    if n > 0 {
      var bit := LowSet(m);
      ShiftEarly(crc, m);
      IdleTakesBits(Shift(crc, bit), Half(m), n - 1);
      ShiftAllConcat(crc, [bit], LowBits(Half(m), n - 1));
      assert [bit][..0] == [];
      assert ShiftAll(crc, [bit]) == Shift(crc, bit);
    }
  }

  lemma ShiftXor(u: Word, v: Word)
    ensures Shift(Xor(u, v), false) == Xor(Shift(u, false), Shift(v, false))
  {
    hide Xor, Half, LowSet;
    XorParts(u, v);
    XorSwaps(Half(u), Half(v));
    XorJoins(Half(u), Half(v));
    XorCancels(Half(u), Half(v));
  }

  lemma {:induction false} IdleXor(u: Word, v: Word, n: nat)
    ensures Idle(Xor(u, v), n) == Xor(Idle(u, n), Idle(v, n))
    decreases n
  {
    hide Shift, Xor;
    if n > 0 {
      ShiftXor(u, v);
      IdleXor(Shift(u, false), Shift(v, false), n - 1);
    }
  }

  lemma IdleFour(w: Word)
    ensures Idle(w, 4) == Shift(Shift(Shift(Shift(w, false), false), false), false)
  {
    hide Shift;
    assert Idle(Shift(Shift(w, false), false), 2) == Shift(Shift(Shift(Shift(w, false), false), false), false);
  }

  /** Without low bits four steps only shift. */
  lemma HighPart(hi: Word)
    requires Low(hi) == 0
    ensures Idle(hi, 4) == By4(hi)
  {
    hide Half, By4, Low, LowSet, Idle, Xor;
    IdleFour(hi);
    LowZeros(hi);
    FourHalves(hi);
  }

  lemma LowZeros(hi: Word)
    requires Low(hi) == 0
    ensures !LowSet(hi) && !LowSet(Half(hi)) && !LowSet(Half(Half(hi))) && !LowSet(Half(Half(Half(hi))))
  {
  }

  /** A table entry is what its index leaves when it is shifted out. */
  lemma TableShiftsOut(n: Word)
    requires n <= 15
    ensures Idle(n, 4) == Table(n)
  {
    IdleFour(n);
    hide Idle;
    if n == 0 {} else if n == 1 {} else if n == 2 {} else if n == 3 {} else if n == 4 {} else if n == 5 {}
    else if n == 6 {} else if n == 7 {} else if n == 8 {} else if n == 9 {} else if n == 10 {} else if n == 11 {}
    else if n == 12 {} else if n == 13 {} else if n == 14 {} else if n == 15 {}
  }

  function High(w: Word): Word { w & 0xfffffff0 }

  lemma NibbleParts(crc: Word)
    ensures Xor(High(crc), Low(crc)) == crc
    ensures Low(High(crc)) == 0 && By4(High(crc)) == By4(crc)
    ensures Low(crc) <= 15
  {
  }

  lemma NibbleIsFourShifts(crc: Word)
    ensures Nibble(crc) == Idle(crc, 4)
  {
    hide Idle, Table, High, Low, By4, Xor;
    NibbleParts(crc);
    IdleXor(High(crc), Low(crc), 4);
    HighPart(High(crc));
    TableShiftsOut(Low(crc));
  }

  lemma {:induction false} IdleTwice(crc: Word, m: nat, n: nat)
    ensures Idle(Idle(crc, m), n) == Idle(crc, m + n)
    decreases m
  {
    hide Shift;
    if m > 0 { IdleTwice(Shift(crc, false), m - 1, n); }
  }

  lemma OctetLow(b: Octet)
    ensures LowBits(b as Word, 4) == SentFirst(b)
  {
    hide Half, LowSet, LowBits, BitSet;
    LowFour(b as Word);
    OctetLowSets(b);
  }

  lemma OctetLowSets(b: Octet)
    ensures var m := b as Word;
            (LowSet(m) <==> BitSet(b, 0x01)) && (LowSet(Half(m)) <==> BitSet(b, 0x02)) &&
            (LowSet(Half(Half(m))) <==> BitSet(b, 0x04)) && (LowSet(Half(Half(Half(m)))) <==> BitSet(b, 0x08))
  {
  }

  lemma OctetHigh(b: Octet)
    ensures LowBits(Above(b as Word, 4), 4) == SentSecond(b) && Above(Above(b as Word, 4), 4) == 0
  {
    hide Half, LowSet, LowBits, BitSet, Above;
    LowFour(b as Word);
    LowFour(Above(b as Word, 4));
    OctetHighSets(b);
  }

  lemma OctetHighSets(b: Octet)
    ensures var m := Half(Half(Half(Half(b as Word))));
            (LowSet(m) <==> BitSet(b, 0x10)) && (LowSet(Half(m)) <==> BitSet(b, 0x20)) &&
            (LowSet(Half(Half(m))) <==> BitSet(b, 0x40)) && (LowSet(Half(Half(Half(m)))) <==> BitSet(b, 0x80)) &&
            Half(Half(Half(Half(m)))) == 0
  {
  }

  lemma OctetBits(b: Octet)
    ensures LowBits(b as Word, 8) == Sent(b)
    ensures Above(b as Word, 8) == 0
  {
    hide Half, LowSet, LowBits, Above, SentFirst, SentSecond;
    LowBitsSplit(b as Word, 4, 4);
    OctetLow(b);
    OctetHigh(b);
  }

  /** For every buffer the checksum is the remainder of its bits in the order they are sent. */
  lemma {:induction false} ChecksumIsRemainder(buf: seq<Octet>)
    ensures PolyOf(Checksum(buf)) == Remainder(Flat(true, 32), SentAll(buf))
  {
    hide PolyOf, Checksum, ShiftAll, Remainder;
    ChecksumShifts(buf);
    ShiftAllDivides(0xffffffff, SentAll(buf));
    OnesAreSet();
  }

  lemma {:induction false} ChecksumShifts(buf: seq<Octet>)
    ensures Checksum(buf) == ShiftAll(0xffffffff, SentAll(buf))
    decreases |buf|
  {
    hide Nibble, Shift, Xor, Sent, LowBits, Above, Idle;
    if buf != [] {
      var b, rest := buf[|buf| - 1], buf[..|buf| - 1];
      var crc := Checksum(rest);
      ChecksumShifts(rest);
      NibbleIsFourShifts(Xor(crc, b as Word));
      NibbleIsFourShifts(Nibble(Xor(crc, b as Word)));
      IdleTwice(Xor(crc, b as Word), 4, 4);
      IdleTakesBits(crc, b as Word, 8);
      OctetBits(b);
      XorParts(ShiftAll(crc, Sent(b)), 0);
      ShiftAllConcat(0xffffffff, SentAll(rest), Sent(b));
    }
  }
}
