/**
 What the target sees of TMS through the cable of dev/jtag_gpio0.c: TMS bits are packed into a buffer of 256 bytes
 and clocked out later.
 */
module JtagChannel {

  /** A byte as its eight bits, bit 0 first. */
  type Bits8 = b: seq<bool> | |b| == 8 witness [false, false, false, false, false, false, false, false]

  const ZERO: Bits8 := [false, false, false, false, false, false, false, false]
  const SIZE := 256

  function Packed(s: seq<Bits8>): (r: seq<bool>)
    ensures |r| == 8 * |s|
  {
    if s == [] then [] else Packed(s[..|s| - 1]) + s[|s| - 1]
  }

  predicate ClearFrom(b: Bits8, n: nat) {
    forall i :: n <= i < 8 ==> !b[i]
  }

  /**
   The buffer and the byte that follows it in memory, the two indices into it, and the TMS bits at the rising
   edges of TCK so far.
   */
  datatype Lines = Lines(buf: seq<Bits8>, behind: Bits8, bidx: nat, bbit: nat, tms: seq<bool>)

  function Closed(behind: Bits8): Lines {
    Lines(seq(SIZE, _ => ZERO), behind, 0, 0, [])
  }

  predicate Placed(c: Lines, bbit: nat) {
    |c.buf| == SIZE && c.bidx < SIZE && c.bbit < 8 && bbit < 8
  }

  predicate Sound(c: Lines) {
    Placed(c, c.bbit) && (c.bbit > 0 ==> ClearFrom(c.buf[c.bidx], c.bbit))
  }

  function ByteAt(c: Lines, i: nat): Bits8 {
    if i < |c.buf| then c.buf[i] else c.behind
  }

  // --- JtagCable0TmsFlush and JtagCable0TmsPut ---

  /** Sends the whole bytes, and then as much of the next one as cib_bbit says: all of it if that is zero. */
  function Flush(c: Lines): Lines
    requires |c.buf| == SIZE && c.bidx <= SIZE && c.bbit < 8
  {
    var more := if c.bbit == 0 then ByteAt(c, c.bidx) else ByteAt(c, c.bidx)[..c.bbit];
    c.(bidx := 0, bbit := 0, tms := c.tms + Packed(c.buf[..c.bidx]) + more)
  }

  /** Bit number bbit of the current byte; a new byte starts with zeros. */
  function SetBit(c: Lines, bbit: nat, bit: bool): Lines
    requires Placed(c, bbit)
  {
    var byte: Bits8 := if bbit > 0 then c.buf[c.bidx] else ZERO;
    c.(buf := c.buf[c.bidx := byte[bbit := bit]])
  }

  /** The buffer is flushed when its last byte is full; cib_bbit is still what it was before the call. */
  function NextByte(c: Lines): Lines
    requires |c.buf| == SIZE && c.bidx < SIZE && c.bbit < 8
  {
    var c := c.(bidx := c.bidx + 1);
    if c.bidx >= SIZE then Flush(c) else c
  }

  function PutFrom(c: Lines, bbit: nat, bits: seq<bool>): Lines
    requires Placed(c, bbit)
    decreases |bits|, 0
  {
    if bits == [] then c.(bbit := bbit) else Advance(SetBit(c, bbit, bits[0]), bbit + 1, bits[1..])
  }

  function Advance(c: Lines, bbit: nat, bits: seq<bool>): Lines
    requires |c.buf| == SIZE && c.bidx < SIZE && c.bbit < 8 && bbit <= 8
    decreases |bits|, 1
  {
    if bbit < 8 then PutFrom(c, bbit, bits) else PutFrom(NextByte(c), 0, bits)
  }

  function Put(c: Lines, bits: seq<bool>): Lines
    requires Sound(c)
  {
    PutFrom(c, c.bbit, bits)
  }

  // --- JtagCable0TransferData ---

  /** TMS during a data transfer: low, and high on the last bit of the last transfer. */
  function TransferTms(len: nat, last: bool): (r: seq<bool>)
    ensures |r| == len
  {
    if len == 0 then [] else if len == 1 then [last] else [false] + TransferTms(len - 1, last)
  }

  /** Flushing, and then the bits of a data transfer. */
  function TransferTo(c: Lines, len: nat, last: bool): Lines
    requires Sound(c)
  {
    var c := Flush(c);
    c.(tms := c.tms + TransferTms(len, last))
  }

  // --- What that does to the stream of bits ---

  /** The bits in the buffer when its current byte holds bbit of them. */
  function PendingAt(c: Lines, bbit: nat): seq<bool>
    requires Placed(c, bbit)
  {
    Packed(c.buf[..c.bidx]) + c.buf[c.bidx][..bbit]
  }

  /** The bits accepted but not yet clocked out. */
  function Pending(c: Lines): (r: seq<bool>)
    requires Sound(c)
    ensures |r| == 8 * c.bidx + c.bbit
  {
    PendingAt(c, c.bbit)
  }

  /** Everything accepted, and whatever has been clocked out besides. */
  function Stream(c: Lines): seq<bool>
    requires Sound(c)
  {
    c.tms + Pending(c)
  }

  /** What flushing adds to the pending bits: a stale byte if they fill whole bytes. */
  function Stale(c: Lines): (r: seq<bool>)
    requires Sound(c)
    ensures r == [] <==> |Pending(c)| % 8 != 0
  {
    if c.bbit == 0 then c.buf[c.bidx] else []
  }

  /** What the flush of a full buffer adds: bits from behind the buffer. */
  function Junk(c: Lines): (r: seq<bool>)
    requires c.bbit < 8
    ensures r != []
  {
    if c.bbit == 0 then c.behind else c.behind[..c.bbit]
  }

  lemma FlushSends(c: Lines)
    requires Sound(c)
    ensures Sound(Flush(c)) && Pending(Flush(c)) == [] && Flush(c).buf == c.buf
    ensures Flush(c).tms == Stream(c) + Stale(c)
    ensures Flush(c).tms == Stream(c) <==> |Pending(c)| % 8 != 0
  {
    assert c.tms + Packed(c.buf[..c.bidx]) + c.buf[c.bidx][..c.bbit] == c.tms + Pending(c);
    if c.bbit == 0 { assert c.tms + Packed(c.buf[..c.bidx]) == c.tms + Pending(c); }
    assert Packed(c.buf[..0]) + c.buf[0][..0] == [];
  }

  /** The first byte of the buffer, once it is full. */
  lemma FirstByte(c: Lines)
    requires Sound(c) && |Pending(c)| >= 8
    ensures c.buf[0] == Pending(c)[..8]
  {
    PackedStarts(c.buf[..c.bidx]);
  }

  lemma {:induction false} PackedStarts(s: seq<Bits8>)
    requires s != []
    ensures Packed(s)[..8] == s[0]
    decreases |s|
  {
    if |s| > 1 { PackedStarts(s[..|s| - 1]); }
  }

  /** One more bit in a byte that does not become full. */
  lemma BitPends(c: Lines, bbit: nat, bit: bool)
    requires Placed(c, bbit) && (bbit > 0 ==> ClearFrom(c.buf[c.bidx], bbit))
    ensures var c1 := SetBit(c, bbit, bit);
            c1.buf[c.bidx][..bbit + 1] == c.buf[c.bidx][..bbit] + [bit] && c1.buf[..c.bidx] == c.buf[..c.bidx] &&
            ClearFrom(c1.buf[c.bidx], bbit + 1)
  {
  }

  /** A byte that becomes full. */
  lemma ByteFills(c: Lines)
    requires |c.buf| == SIZE && c.bidx < SIZE
    ensures Packed(c.buf[..c.bidx + 1]) == Packed(c.buf[..c.bidx]) + c.buf[c.bidx][..8]
  {
    assert c.buf[..c.bidx + 1][..c.bidx] == c.buf[..c.bidx];
    assert c.buf[c.bidx][..8] == c.buf[c.bidx];
  }

  /** One bit, as long as the buffer does not fill up. */
  lemma OneBit(c: Lines, bbit: nat, bit: bool)
    requires Placed(c, bbit) && (bbit > 0 ==> ClearFrom(c.buf[c.bidx], bbit)) && 8 * c.bidx + bbit + 1 < 8 * SIZE
    ensures var c1 := SetBit(c, bbit, bit);
            var (c2, b) := if bbit + 1 < 8 then (c1, bbit + 1) else (NextByte(c1), 0);
            Placed(c2, b) && (b > 0 ==> ClearFrom(c2.buf[c2.bidx], b)) && 8 * c2.bidx + b == 8 * c.bidx + bbit + 1 &&
            c2.bbit == c.bbit && c2.behind == c.behind && c2.tms == c.tms &&
            PendingAt(c2, b) == PendingAt(c, bbit) + [bit]
  {
    hide Packed, ClearFrom;
    var c1 := SetBit(c, bbit, bit);
    BitPends(c, bbit, bit);
    assert Packed(c.buf[..c.bidx]) + (c.buf[c.bidx][..bbit] + [bit]) == PendingAt(c, bbit) + [bit];
    if bbit + 1 == 8 {
      ByteFills(c1);
      assert Packed(c1.buf[..c.bidx + 1]) + c1.buf[c.bidx + 1][..0] == Packed(c1.buf[..c.bidx + 1]);
    }
  }

  /** The bit that fills the buffer up. */
  lemma LastBit(c: Lines, bbit: nat, bit: bool)
    requires Placed(c, bbit) && (bbit > 0 ==> ClearFrom(c.buf[c.bidx], bbit)) && 8 * c.bidx + bbit + 1 == 8 * SIZE
    ensures var c2 := NextByte(SetBit(c, bbit, bit));
            |c2.buf| == SIZE && c2.bidx == 0 && c2.bbit == 0 && PendingAt(c2, 0) == [] && c2.behind == c.behind &&
            c2.tms == c.tms + (PendingAt(c, bbit) + [bit]) + Junk(c)
  {
    hide Packed, ClearFrom;
    var c1 := SetBit(c, bbit, bit);
    BitPends(c, bbit, bit);
    ByteFills(c1);
    assert Packed(c.buf[..c.bidx]) + (c.buf[c.bidx][..bbit] + [bit]) == PendingAt(c, bbit) + [bit];
    NothingPacked(c1.buf);
  }

  lemma NothingPacked(buf: seq<Bits8>)
    requires |buf| == SIZE
    ensures Packed(buf[..0]) + buf[0][..0] == []
  {
  }

  /** Bits that do not fill the buffer up wait behind those that were there. */
  lemma {:induction false} PutPends(c: Lines, bbit: nat, bits: seq<bool>)
    requires Placed(c, bbit) && (bbit > 0 ==> ClearFrom(c.buf[c.bidx], bbit))
    requires 8 * c.bidx + bbit + |bits| < 8 * SIZE
    ensures var r := PutFrom(c, bbit, bits);
            Sound(r) && r.tms == c.tms && r.behind == c.behind && Pending(r) == PendingAt(c, bbit) + bits
    decreases |bits|
  {
    hide Packed, ClearFrom, SetBit, NextByte, PendingAt;
    if bits == [] {
      assert PendingAt(c, bbit) + bits == PendingAt(c, bbit);
      PendingSame(c, bbit);
    } else {
      OneBit(c, bbit, bits[0]);
      SetBitKeeps(c, bbit, bits[0]);
      var c1 := SetBit(c, bbit, bits[0]);
      if bbit + 1 < 8 { PutPends(c1, bbit + 1, bits[1..]); } else { PutPends(NextByte(c1), 0, bits[1..]); }
      assert PendingAt(c, bbit) + [bits[0]] + bits[1..] == PendingAt(c, bbit) + bits;
    }
  }

  /** Bytes that no bit has reached are left alone. */
  lemma {:induction false} PutLeaves(c: Lines, bbit: nat, bits: seq<bool>, i: nat)
    requires Placed(c, bbit) && 8 * c.bidx + bbit + |bits| <= 8 * i < 8 * SIZE
    ensures |PutFrom(c, bbit, bits).buf| == SIZE && PutFrom(c, bbit, bits).buf[i] == c.buf[i]
    decreases |bits|
  {
    if bits != [] {
      var c1 := SetBit(c, bbit, bits[0]);
      if bbit + 1 < 8 { PutLeaves(c1, bbit + 1, bits[1..], i); } else { PutLeaves(NextByte(c1), 0, bits[1..], i); }
    }
  }

  lemma PendingSame(c: Lines, bbit: nat)
    requires Placed(c, bbit)
    ensures PendingAt(c.(bbit := bbit), bbit) == PendingAt(c, bbit)
  {
  }

  /** Bits that fill the buffer up: the full buffer and the junk are sent, and the other bits wait. */
  lemma {:induction false} PutOverflows(c: Lines, bbit: nat, bits: seq<bool>)
    requires Placed(c, bbit) && (bbit > 0 ==> ClearFrom(c.buf[c.bidx], bbit))
    requires |bits| <= 8 && 8 * c.bidx + bbit + |bits| >= 8 * SIZE
    ensures var k, r := 8 * SIZE - 8 * c.bidx - bbit, PutFrom(c, bbit, bits);
            Sound(r) && r.behind == c.behind && Pending(r) == bits[k..] &&
            r.tms == c.tms + (PendingAt(c, bbit) + bits[..k]) + Junk(c)
    decreases |bits|
  {
    hide Packed, ClearFrom, SetBit, NextByte, PendingAt;
    var k := 8 * SIZE - 8 * c.bidx - bbit;
    var c1 := SetBit(c, bbit, bits[0]);
    SetBitKeeps(c, bbit, bits[0]);
    FirstThenRest(PendingAt(c, bbit), bits, k);
    if k == 1 {
      LastBit(c, bbit, bits[0]);
      PutPends(NextByte(c1), 0, bits[1..]);
      assert [] + bits[1..] == bits[1..];
    } else {
      OneBit(c, bbit, bits[0]);
      PutOverflows(c1, bbit + 1, bits[1..]);
    }
  }

  lemma FirstThenRest(p: seq<bool>, bits: seq<bool>, k: nat)
    requires 0 < k <= |bits|
    ensures p + [bits[0]] + bits[1..][..k - 1] == p + bits[..k] && bits[1..][k - 1..] == bits[k..]
    ensures k == 1 ==> bits[..k] == [bits[0]]
  {
  }

  lemma SetBitKeeps(c: Lines, bbit: nat, bit: bool)
    requires Placed(c, bbit)
    ensures var c1 := SetBit(c, bbit, bit);
            |c1.buf| == SIZE && c1.bidx == c.bidx && c1.bbit == c.bbit && c1.behind == c.behind && c1.tms == c.tms
  {
  }

  /** The bits put extend the stream; if they fill the buffer up, the junk comes in between. */
  lemma PutExtends(c: Lines, bits: seq<bool>)
    requires Sound(c) && |bits| <= 8
    ensures var k := 8 * SIZE - |Pending(c)|;
            Sound(Put(c, bits)) && Put(c, bits).behind == c.behind &&
            if |bits| < k then
              Put(c, bits).tms == c.tms && Pending(Put(c, bits)) == Pending(c) + bits &&
              Stream(Put(c, bits)) == Stream(c) + bits
            else
              Pending(Put(c, bits)) == bits[k..] && Stream(Put(c, bits)) == Stream(c) + bits[..k] + Junk(c) + bits[k..]
  {
    hide Packed, ClearFrom, PutFrom, PendingAt, Junk;
    var k := 8 * SIZE - |Pending(c)|;
    if |bits| < k {
      PutPends(c, c.bbit, bits);
      assert c.tms + (Pending(c) + bits) == Stream(c) + bits;
    } else {
      PutOverflows(c, c.bbit, bits);
      assert c.tms + (Pending(c) + bits[..k]) == Stream(c) + bits[..k];
    }
  }
}
