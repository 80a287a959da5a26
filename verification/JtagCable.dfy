/**
 The GPIO cable of dev/jtag_gpio0.c: its code, against the channel it is for TMS, and the data on TDI and TDO.
 */
module JtagCable {
  import opened JtagChannel
  import opened JtagPaths

  /** Data bits for TDI: byte after byte, bit 0 first; all zero without a buffer. */
  datatype Source = Null | Bytes(bytes: seq<Bits8>)

  function SourceByte(w: Source, i: nat): Bits8
    requires w.Bytes? ==> i < |w.bytes|
  {
    if w.Null? then ZERO else w.bytes[i]
  }

  function WholeBytes(w: Source, i: nat): seq<bool>
    requires w.Bytes? ==> i <= |w.bytes|
  {
    if i == 0 then [] else WholeBytes(w, i - 1) + SourceByte(w, i - 1)
  }

  /** The first n bits of the source, as TDI shows them. */
  function Sent(w: Source, n: nat): seq<bool>
    requires w.Bytes? ==> n <= 8 * |w.bytes|
  {
    if n % 8 == 0 then WholeBytes(w, n / 8) else WholeBytes(w, n / 8) + SourceByte(w, n / 8)[..n % 8]
  }

  lemma SentSplit(w: Source, i: nat, n: nat)
    requires 0 < n <= 8 && (w.Bytes? ==> 8 * i + n <= 8 * |w.bytes|)
    ensures Sent(w, 8 * i + n) == Sent(w, 8 * i) + SourceByte(w, i)[..n]
  {
    assert 8 * i / 8 == i && 8 * i % 8 == 0;
    if n < 8 {
      assert (8 * i + n) / 8 == i && (8 * i + n) % 8 == n;
    } else {
      assert (8 * i + n) / 8 == i + 1 && (8 * i + n) % 8 == 0;
      assert SourceByte(w, i)[..8] == SourceByte(w, i);
    }
  }

  /** Byte i of what comes back: the bits read from TDO, and above them what was there before. */
  function ReadByte(w: Source, tdo: seq<bool>, i: nat): Bits8
    requires 8 * i < |tdo| && (w.Bytes? ==> i < |w.bytes|)
  {
    var n := if |tdo| - 8 * i < 8 then |tdo| - 8 * i else 8;
    tdo[8 * i..8 * i + n] + SourceByte(w, i)[n..]
  }

  lemma TransferStarts(w: Source, len: nat, last: bool)
    ensures TransferTms(len, last)[..0] == [] && Sent(w, 0) == []
    ensures TransferTms(len, last)[..len] == TransferTms(len, last)
  {
  }

  lemma Associate(a: seq<bool>, b: seq<bool>, c: seq<bool>)
    ensures a + b + c == a + (b + c)
  {
  }

  lemma ReadBack(w: Source, tdo: seq<bool>, i: nat, n: nat, back: Bits8)
    requires 0 < n <= 8 && 8 * i + n <= |tdo| && (n < 8 ==> 8 * i + n == |tdo|) && (w.Bytes? ==> i < |w.bytes|)
    requires back[..n] == tdo[8 * i..8 * i + n] && back[n..] == SourceByte(w, i)[n..]
    ensures back == ReadByte(w, tdo, i)
  {
    hide SourceByte;
    assert back == back[..n] + back[n..];
  }

  class GpioCable {
    const cib_buf: array<Bits8>
    var cib_bidx: nat
    var cib_bbit: nat

    /** The byte that follows cib_buf in memory. */
    const behind: Bits8

    /** What the target sees at each rising edge of TCK. */
    var tms: seq<bool>
    var tdi: seq<bool>

    ghost function State(): Lines
      reads this, cib_buf
    {
      Lines(cib_buf[..], behind, cib_bidx, cib_bbit, tms)
    }

    ghost predicate Valid()
      reads this, cib_buf
    {
      Sound(State())
    }

    constructor (behind: Bits8)
      ensures Valid() && State() == Closed(behind) && tdi == [] && fresh(cib_buf)
    {
      cib_buf := new Bits8[SIZE](_ => ZERO);
      this.behind := behind;
      cib_bidx, cib_bbit := 0, 0;
      tms, tdi := [], [];
      new;
      assert cib_buf[..] == Closed(behind).buf;
    }

    /** The target has been reset: what it has seen before tells nothing any more. */
    method ForgetTarget()
      modifies this`tms
      ensures State() == old(State()).(tms := [])
    {
      tms := [];
    }

    /** One rising edge of TCK. */
    method Clock(m: bool, d: bool)
      modifies this`tms, this`tdi
      ensures tms == old(tms) + [m] && tdi == old(tdi) + [d]
    {
      tms, tdi := tms + [m], tdi + [d];
    }

    /** Clocks out the first n bits of b; TDI stays as it is. */
    method ClockBits(b: Bits8, n: nat)
      requires n <= 8
      modifies this`tms
      ensures tms == old(tms) + b[..n]
    {
      var j := 0;
      while j < n
        invariant j <= n && tms == old(tms) + b[..j]
      {
        tms := tms + [b[j]];
        j := j + 1;
        assert b[..j] == b[..j - 1] + [b[j - 1]];
      }
    }

    /** cib_buf[i]; the flush of a full buffer looks at the byte behind it. */
    method ReadBuf(i: nat) returns (b: Bits8)
      requires i <= cib_buf.Length
      ensures b == ByteAt(State(), i)
    {
      b := if i < cib_buf.Length then cib_buf[i] else behind;
    }

    /** JtagCable0TmsFlush */
    method TmsFlush()
      requires cib_buf.Length == SIZE && cib_bidx <= SIZE && cib_bbit < 8
      modifies this`tms, this`cib_bidx, this`cib_bbit
      ensures State() == Flush(old(State()))
    {
      hide Packed, ByteAt;
      ghost var c := State();
      var n := cib_bidx + if cib_bbit == 0 then 1 else 0;
      var i := 0;
      NoneSent(c);
      while i < n
        invariant i <= n && tms == c.tms + FirstBytes(c, i)
        modifies this`tms
      {
        var byte := ReadBuf(i);
        SameByte(c, State(), i);
        ByteSent(c, i);
        ClockBits(byte, 8);
        Associate(c.tms, FirstBytes(c, i), byte[..8]);
        i := i + 1;
      }
      AllSent(c);
      if cib_bbit != 0 {
        var byte := ReadBuf(cib_bidx);
        SameByte(c, State(), cib_bidx);
        ClockBits(byte, cib_bbit);
        cib_bbit := 0;
      }
      cib_bidx := 0;
    }

    /** One byte of a transfer: n bits out of val to TDI, and as many from TDO into it. */
    method TransferByte(byte: Bits8, n: nat, high: bool, tdo: seq<bool>) returns (val: Bits8)
      requires n <= 8 && |tdo| == n
      modifies this`tms, this`tdi
      ensures tms == old(tms) + TransferTms(n, high) && tdi == old(tdi) + byte[..n]
      ensures val[..n] == tdo && val[n..] == byte[n..]
    {
      hide TransferTms;
      val := byte;
      var k := 0;
      while k < n
        invariant k <= n && val[..k] == tdo[..k] && val[k..] == byte[k..]
        invariant tms == old(tms) + TransferTms(n, high)[..k] && tdi == old(tdi) + byte[..k]
      {
        NextTms(n, high, k);
        NextDataBit(byte, val, tdo, n, k);
        Associate(old(tms), TransferTms(n, high)[..k], [k == n - 1 && high]);
        Associate(old(tdi), byte[..k], [byte[k]]);
        Clock(k == n - 1 && high, val[k]);
        val := val[k := tdo[k]];
        k := k + 1;
      }
    }

    /** The loop of JtagCable0TransferData; tdo is what the target answers. */
    method TransferBits(wbuf: Source, len: nat, last: bool, tdo: seq<bool>) returns (rbuf: seq<Bits8>)
      requires |tdo| == len && (wbuf.Bytes? ==> len <= 8 * |wbuf.bytes|)
      modifies this`tms, this`tdi
      ensures tms == old(tms) + TransferTms(len, last) && tdi == old(tdi) + Sent(wbuf, len)
      ensures |rbuf| == (len + 7) / 8 && forall i :: 0 <= i < |rbuf| ==> rbuf[i] == ReadByte(wbuf, tdo, i)
    {
      hide TransferTms, Sent, ReadByte;
      ghost var tms0, tdi0 := tms, tdi;
      rbuf := [];
      var done := 0;
      TransferStarts(wbuf, len, last);
      while done < len
        invariant done <= len && (done < len ==> done == 8 * |rbuf|) && |rbuf| == (done + 7) / 8
        invariant tms == tms0 + TransferTms(len, last)[..done] && tdi == tdi0 + Sent(wbuf, done)
        invariant forall i :: 0 <= i < |rbuf| ==> rbuf[i] == ReadByte(wbuf, tdo, i)
      {
        var n := if len - done < 8 then len - done else 8;
        var high := last && done + n == len;
        TransferSplit(len, last, done, n);
        SentSplit(wbuf, |rbuf|, n);
        var back := TransferByte(SourceByte(wbuf, |rbuf|), n, high, tdo[done..done + n]);
        Associate(tms0, TransferTms(len, last)[..done], TransferTms(n, high));
        Associate(tdi0, Sent(wbuf, done), SourceByte(wbuf, |rbuf|)[..n]);
        ReadBack(wbuf, tdo, |rbuf|, n, back);
        rbuf := rbuf + [back];
        done := done + n;
      }
    }

    /** The pending TMS bits are flushed first; then the target is sent the bits, and what it answers is read back. */
    method TransferData(wbuf: Source, len: nat, last: bool, tdo: seq<bool>) returns (rbuf: seq<Bits8>)
      requires Valid() && |tdo| == len && (wbuf.Bytes? ==> len <= 8 * |wbuf.bytes|)
      modifies this`tms, this`tdi, this`cib_bidx, this`cib_bbit
      ensures State() == TransferTo(old(State()), len, last)
      ensures tdi == old(tdi) + Sent(wbuf, len)
      ensures |rbuf| == (len + 7) / 8 && forall i :: 0 <= i < |rbuf| ==> rbuf[i] == ReadByte(wbuf, tdo, i)
    {
      TmsFlush();
      rbuf := TransferBits(wbuf, len, last, tdo);
    }

    /** JtagCable0TmsPut */
    method TmsPut(v: nat, len: nat)
      requires Valid()
      modifies this`tms, this`cib_bidx, this`cib_bbit, cib_buf
      ensures State() == Put(old(State()), Bits(v, len))
    {
      hide Bits, PutFrom, Advance, ClearFrom, Packed, ByteAt;
      var bbit: nat := cib_bbit;
      var rest: nat, left: nat := v, len;
      ghost var goal := Put(State(), Bits(v, len));
      while left > 0
        invariant Placed(State(), bbit) && (bbit > 0 ==> ClearFrom(cib_buf[cib_bidx], bbit))
        invariant PutFrom(State(), bbit, Bits(rest, left)) == goal
        decreases left
      {
        var byte: Bits8 := if bbit > 0 then cib_buf[cib_bidx] else ZERO;
        ghost var was := left;
        ghost var c := State();
        FillStarts(c, bbit, byte, rest, left);
        while left > 0 && bbit < 8
          invariant left <= was && bbit <= 8 && (left == was ==> bbit < 8) && ClearFrom(byte, bbit)
          invariant bbit == 0 ==> byte == ZERO
          invariant Filled(c, byte, bbit, rest, left) == goal
          modifies {}
          decreases left
        {
          FillStep(c, byte, bbit, rest, left);
          if rest % 2 == 1 {
            byte := byte[bbit := true];
          }
          rest := rest / 2;
          bbit := bbit + 1;
          left := left - 1;
        }
        FillEnds(c, byte, bbit, rest, left);
        cib_buf[cib_bidx] := byte;
        assert State() == Stored(c, byte);
        if bbit >= 8 {
          cib_bidx := cib_bidx + 1;
          if cib_bidx >= SIZE {
            TmsFlush();
          }
          bbit := 0;
        }
      }
      NoBits(rest);
      PutNothing(State(), bbit);
      cib_bbit := bbit;
    }
  }

  // --- Flushing ---

  function FirstBytes(c: Lines, i: nat): seq<bool>
    requires |c.buf| == SIZE && i <= SIZE + 1
  {
    Packed((c.buf + [c.behind])[..i])
  }

  lemma NoneSent(c: Lines)
    requires |c.buf| == SIZE
    ensures c.tms + FirstBytes(c, 0) == c.tms
  {
  }

  lemma SameByte(c: Lines, d: Lines, i: nat)
    requires c.buf == d.buf && c.behind == d.behind
    ensures ByteAt(c, i) == ByteAt(d, i)
  {
  }

  lemma ByteSent(c: Lines, i: nat)
    requires |c.buf| == SIZE && i <= SIZE
    ensures FirstBytes(c, i + 1) == FirstBytes(c, i) + ByteAt(c, i)[..8]
  {
    var s := (c.buf + [c.behind])[..i + 1];
    assert s[..i] == (c.buf + [c.behind])[..i] && s[i] == ByteAt(c, i);
    assert ByteAt(c, i)[..8] == ByteAt(c, i);
  }

  /** What the loop over the bytes has sent, in the words of the channel. */
  lemma AllSent(c: Lines)
    requires |c.buf| == SIZE && c.bidx <= SIZE
    ensures c.tms + FirstBytes(c, c.bidx) == c.tms + Packed(c.buf[..c.bidx])
    ensures c.tms + FirstBytes(c, c.bidx + 1) == c.tms + Packed(c.buf[..c.bidx]) + ByteAt(c, c.bidx)
  {
    hide Packed;
    assert (c.buf + [c.behind])[..c.bidx] == c.buf[..c.bidx];
    ByteSent(c, c.bidx);
    assert ByteAt(c, c.bidx)[..8] == ByteAt(c, c.bidx);
    Associate(c.tms, Packed(c.buf[..c.bidx]), ByteAt(c, c.bidx));
  }

  // --- Packing ---

  function Stored(c: Lines, byte: Bits8): Lines
    requires |c.buf| == SIZE && c.bidx < SIZE
  {
    c.(buf := c.buf[c.bidx := byte])
  }

  /** What becomes of the rest once the byte that holds bbit bits is stored. */
  function Filled(c: Lines, byte: Bits8, bbit: nat, rest: nat, left: nat): Lines
    requires |c.buf| == SIZE && c.bidx < SIZE && c.bbit < 8 && bbit <= 8
  {
    Advance(Stored(c, byte), bbit, Bits(rest, left))
  }

  lemma FillStarts(c: Lines, bbit: nat, byte: Bits8, rest: nat, left: nat)
    requires Placed(c, bbit) && left > 0 && byte == if bbit > 0 then c.buf[c.bidx] else ZERO
    requires bbit > 0 ==> ClearFrom(c.buf[c.bidx], bbit)
    ensures Filled(c, byte, bbit, rest, left) == PutFrom(c, bbit, Bits(rest, left)) && ClearFrom(byte, bbit)
  {
    var bits := Bits(rest, left);
    if bbit > 0 {
      assert Stored(c, byte) == c;
    } else {
      assert SetBit(Stored(c, byte), bbit, bits[0]) == SetBit(c, bbit, bits[0]);
      AdvanceStep(Stored(c, byte), bbit, bits);
      AdvanceStep(c, bbit, bits);
    }
  }

  /** One bit of the fill: bit 0 of the rest lands in the byte at bbit. */
  lemma FillStep(c: Lines, byte: Bits8, bbit: nat, rest: nat, left: nat)
    requires Placed(c, bbit) && left > 0 && ClearFrom(byte, bbit) && (bbit == 0 ==> byte == ZERO)
    ensures var next: Bits8 := if rest % 2 == 1 then byte[bbit := true] else byte;
            Filled(c, next, bbit + 1, rest / 2, left - 1) == Filled(c, byte, bbit, rest, left) &&
            ClearFrom(next, bbit + 1)
  {
    hide Advance;
    var next: Bits8 := if rest % 2 == 1 then byte[bbit := true] else byte;
    var bits := Bits(rest, left);
    assert bits[0] == (rest % 2 == 1) && bits[1..] == Bits(rest / 2, left - 1);
    assert next == byte[bbit := bits[0]];
    assert SetBit(Stored(c, byte), bbit, bits[0]) == Stored(c, next);
    AdvanceStep(Stored(c, byte), bbit, bits);
  }

  lemma AdvanceStep(c: Lines, bbit: nat, bits: seq<bool>)
    requires Placed(c, bbit) && bits != []
    ensures Advance(c, bbit, bits) == Advance(SetBit(c, bbit, bits[0]), bbit + 1, bits[1..])
  {
    hide SetBit;
    assert Advance(c, bbit, bits) == PutFrom(c, bbit, bits);
  }

  /** The byte is stored; if it is full, the next one follows. */
  lemma FillEnds(c: Lines, byte: Bits8, bbit: nat, rest: nat, left: nat)
    requires |c.buf| == SIZE && c.bidx < SIZE && c.bbit < 8 && bbit <= 8 && ClearFrom(byte, bbit)
    ensures Filled(c, byte, bbit, rest, left) ==
            if bbit < 8 then PutFrom(Stored(c, byte), bbit, Bits(rest, left))
            else PutFrom(NextByte(Stored(c, byte)), 0, Bits(rest, left))
  {
    hide PutFrom, NextByte, Bits;
  }

  lemma NoBits(v: nat)
    ensures Bits(v, 0) == []
  {
  }

  lemma PutNothing(c: Lines, bbit: nat)
    requires Placed(c, bbit)
    ensures PutFrom(c, bbit, []) == c.(bbit := bbit)
  {
  }

  // --- Data transfers ---

  lemma {:induction false} TransferTmsAt(len: nat, last: bool, k: nat)
    requires k < len
    ensures TransferTms(len, last)[k] == (last && k == len - 1)
  {
    if k > 0 { TransferTmsAt(len - 1, last, k - 1); }
  }

  lemma NextTms(len: nat, last: bool, k: nat)
    requires k < len
    ensures TransferTms(len, last)[..k + 1] == TransferTms(len, last)[..k] + [k == len - 1 && last]
  {
    TransferTmsAt(len, last, k);
  }

  /** A bit of val goes out, and the one that comes in takes its place. */
  lemma NextDataBit(byte: Bits8, val: Bits8, tdo: seq<bool>, n: nat, k: nat)
    requires k < n <= 8 && |tdo| == n && val[..k] == tdo[..k] && val[k..] == byte[k..]
    ensures val[k] == byte[k] && byte[..k + 1] == byte[..k] + [byte[k]]
    ensures var next := val[k := tdo[k]]; next[..k + 1] == tdo[..k + 1] && next[k + 1..] == byte[k + 1..]
  {
    assert val[k] == val[k..][0];
    assert val[k..][1..] == byte[k..][1..];
  }

  lemma TransferSplit(len: nat, last: bool, done: nat, n: nat)
    requires done + n <= len && 0 < n
    ensures TransferTms(len, last)[..done] + TransferTms(n, last && done + n == len) ==
            TransferTms(len, last)[..done + n]
  {
    forall k | 0 <= k < done + n
      ensures (TransferTms(len, last)[..done] + TransferTms(n, last && done + n == len))[k] == TransferTms(len, last)[k]
    {
      TransferTmsAt(len, last, k);
      if k >= done { TransferTmsAt(n, last && done + n == len, k - done); }
    }
  }
}
