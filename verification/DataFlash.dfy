/**
 The configuration area of dev/nvmem_at45d.c on the DataFlash driver dev/spi_at45d.c.
 */
module DataFlash {
  import opened Machine

  /** AT45D_INFO: page numbers are shifted by pshft to make addresses. */
  datatype Info = Info(pshft: nat, pages: nat, psize: nat)

  function Pow2(n: nat): (r: nat)
    ensures r > 0
  {
    if n == 0 then 1 else 2 * Pow2(n - 1)
  }

  /** Every page has an address of 24 bits. */
  predicate Sound(info: Info) {
    0 < info.psize <= Pow2(info.pshft) && 0 < info.pages && info.pages * Pow2(info.pshft) <= 0x100_0000
  }

  /** The types of chips the driver knows, AT45DB011B to AT45DB0642D. */
  const KNOWN: seq<Info> := [
    Info(8, 512, 256), Info(9, 512, 264),
    Info(8, 1025, 256), Info(9, 1025, 264),
    Info(8, 2048, 256), Info(9, 2048, 264),
    Info(8, 4096, 256), Info(9, 4096, 264),
    Info(9, 4096, 512), Info(10, 4096, 528),
    Info(9, 8192, 512), Info(10, 8192, 528),
    Info(10, 8192, 1024), Info(11, 8192, 1056),
    Info(10, 8192, 1024), Info(11, 8192, 1056)
  ]

  lemma Powers()
    ensures Pow2(8) == 0x100 && Pow2(9) == 0x200 && Pow2(10) == 0x400 && Pow2(11) == 0x800
  {
    assert Pow2(4) == 16;
    assert Pow2(8) == 2 * (2 * (2 * (2 * Pow2(4))));
  }

  /** All of them are sound, so that what is proved below holds of every chip the driver finds. */
  lemma KnownAreSound(i: nat)
    requires i < |KNOWN|
    ensures Sound(KNOWN[i])
  {
    hide Pow2;
    Powers();
  }

  // --- Addresses ---

  /** The three address bytes of a command, high byte first. */
  function Packed(parm: nat): (Byte, Byte, Byte) {
    (parm / 0x10000 % 256, parm / 0x100 % 256, parm % 256)
  }

  /** The page the chip finds in them: the address without its lowest bits. */
  function Unpacked(a: (Byte, Byte, Byte), pshft: nat): nat {
    ShiftedRight(a.0 * 0x10000 + a.1 * 0x100 + a.2, pshft)
  }

  function ShiftedRight(x: nat, n: nat): nat {
    if n == 0 then x else ShiftedRight(x / 2, n - 1)
  }

  lemma PackedBytes(parm: nat)
    requires parm < 0x100_0000
    ensures var a := Packed(parm); a.0 * 0x10000 + a.1 * 0x100 + a.2 == parm
  {
  }

  lemma {:induction false} ShiftsBack(x: nat, n: nat)
    ensures x * Pow2(n) >= 0 && ShiftedRight(x * Pow2(n), n) == x
    decreases n
  {
    if n > 0 {
      assert x * Pow2(n) == x * Pow2(n - 1) * 2;
      ShiftsBack(x, n - 1);
    }
  }

  lemma Below(x: nat, y: nat, z: nat)
    requires x < y && z > 0
    ensures x * z + z <= y * z
  {
    assert (x + 1) * z <= y * z;
  }

  /** The address of an existing page reaches the chip. */
  lemma PageArrives(info: Info, page: nat)
    requires Sound(info) && page < info.pages
    ensures Unpacked(Packed(page * Pow2(info.pshft)), info.pshft) == page
  {
    Below(page, info.pages, Pow2(info.pshft));
    PackedBytes(page * Pow2(info.pshft));
    ShiftsBack(page, info.pshft);
  }

  // --- Contents ---

  function Replaced(f: seq<Byte>, at: nat, d: seq<Byte>): (r: seq<Byte>)
    requires at + |d| <= |f|
    ensures |r| == |f|
  {
    f[..at] + d + f[at + |d|..]
  }

  /** Bytes from an address on, wrapping to the first page after the last. */
  function Stream(f: seq<Byte>, at: nat, n: nat): (r: seq<Byte>)
    requires |f| > 0
    ensures |r| == n
  {
    seq(n, i requires 0 <= i < n => f[(at + i) % |f|])
  }

  lemma StreamWithin(f: seq<Byte>, at: nat, n: nat)
    requires |f| > 0 && at + n <= |f|
    ensures Stream(f, at, n) == f[at..at + n]
  {
    forall i | 0 <= i < n ensures Stream(f, at, n)[i] == f[at..at + n][i] { SmallMod(at + i, |f|); }
  }

  lemma SmallMod(x: nat, n: nat)
    requires x < n
    ensures x % n == x
  {
  }

  lemma StreamParts(f: seq<Byte>, at: nat, n: nat, pos: nat, len: nat)
    requires |f| > 0 && pos + len <= n
    ensures Stream(f, at, n)[pos..pos + len] == Stream(f, at + pos, len)
  {
  }

  /** Replacing a first part and then a part right behind it. */
  lemma ReplacedTwice(f: seq<Byte>, at: nat, d: seq<Byte>, m: nat, n: nat)
    requires at + |d| <= |f| && m <= n <= |d|
    ensures Replaced(Replaced(f, at, d[..m]), at + m, d[m..n]) == Replaced(f, at, d[..n])
  {
    var x, y := Replaced(Replaced(f, at, d[..m]), at + m, d[m..n]), Replaced(f, at, d[..n]);
    assert |x| == |y|;
    forall i | 0 <= i < |f| ensures x[i] == y[i] {}
  }

  /** Replacing part of a page is replacing the page by its changed copy. */
  lemma ReplacedThroughPage(f: seq<Byte>, at: nat, psize: nat, offset: nat, d: seq<Byte>)
    requires at + psize <= |f| && offset + |d| <= psize
    ensures Replaced(f, at, Replaced(f[at..at + psize], offset, d)) == Replaced(f, at + offset, d)
  {
    var x, y := Replaced(f, at, Replaced(f[at..at + psize], offset, d)), Replaced(f, at + offset, d);
    assert |x| == |y|;
    forall i | 0 <= i < |f| ensures x[i] == y[i] {}
  }

  lemma ReplacedSame(f: seq<Byte>, at: nat, d: seq<Byte>)
    requires at + |d| <= |f| && f[at..at + |d|] == d
    ensures Replaced(f, at, d) == f
  {
  }

  lemma ReplacedReads(f: seq<Byte>, at: nat, d: seq<Byte>)
    requires at + |d| <= |f|
    ensures Replaced(f, at, d)[at..at + |d|] == d
  {
  }

  /** The first n bytes of the RAM buffer overwritten. */
  function Filled(ram: seq<Byte>, d: seq<Byte>): (r: seq<Byte>)
    requires |d| <= |ram|
    ensures |r| == |ram|
  {
    d + ram[|d|..]
  }

  /** Where round k of the loop in SpiAt45dPageWrite starts in n bytes of data. */
  function Mark(k: nat, psize: nat, n: nat): (r: nat)
    ensures r <= n && (k == 0 ==> r == 0)
    decreases k
  {
    if k == 0 then 0 else
      var m := Mark(k - 1, psize, n);
      if m + psize < n then m + psize else n
  }

  /** The flash and the RAM buffer. */
  datatype Cells = Cells(flash: seq<Byte>, ram: seq<Byte>)

  predicate Fits(info: Info, c: Cells) {
    Sound(info) && |c.flash| == info.pages * info.psize && |c.flash| > 0 && |c.ram| == info.psize
  }

  lemma PageInside(info: Info, c: Cells, page: nat)
    requires Fits(info, c) && page < info.pages
    ensures page * info.psize >= 0 && page * info.psize + info.psize <= |c.flash|
  {
    Below(page, info.pages, info.psize);
  }

  /** One page programmed through the buffer: what the data does not fill keeps the buffer's contents. */
  function Programmed(info: Info, c: Cells, page: nat, d: seq<Byte>): (r: Cells)
    requires Fits(info, c) && page < info.pages && |d| <= info.psize
    ensures Fits(info, r)
  {
    PageInside(info, c, page);
    var ram := Filled(c.ram, d);
    Cells(Replaced(c.flash, page * info.psize, ram), ram)
  }

  function Round(data: seq<Byte>, psize: nat, k: nat): (d: seq<Byte>)
    ensures |d| <= psize
  {
    MarkStep(k, psize, |data|);
    data[Mark(k, psize, |data|)..Mark(k + 1, psize, |data|)]
  }

  /** Flash and RAM buffer after k rounds. */
  function Flashed(info: Info, c: Cells, pgn: nat, data: seq<Byte>, k: nat): (r: Cells)
    requires Fits(info, c) && pgn + k <= info.pages
    ensures Fits(info, r)
    decreases k
  {
    if k == 0 then c
    else Programmed(info, Flashed(info, c, pgn, data, k - 1), pgn + k - 1, Round(data, info.psize, k - 1))
  }

  lemma FlashedStep(info: Info, c: Cells, pgn: nat, data: seq<Byte>, k: nat)
    requires Fits(info, c) && pgn + k < info.pages
    ensures Flashed(info, c, pgn, data, k + 1) ==
            Programmed(info, Flashed(info, c, pgn, data, k), pgn + k, Round(data, info.psize, k))
  {
    hide Programmed, Round, Fits;
  }

  lemma RoundSize(data: seq<Byte>, psize: nat, k: nat)
    ensures Mark(k, psize, |data|) + psize <= |data| ==> |Round(data, psize, k)| == psize
  {
    MarkStep(k, psize, |data|);
  }

  lemma BufferAfter(info: Info, c: Cells, page: nat, d: seq<Byte>)
    requires Fits(info, c) && page < info.pages && |d| <= info.psize
    ensures Programmed(info, c, page, d).ram == Filled(c.ram, d) && (|d| == info.psize ==> Filled(c.ram, d) == d)
  {
  }

  lemma PageAfter(info: Info, c: Cells, page: nat, d: seq<Byte>)
    requires Fits(info, c) && page < info.pages && |d| <= info.psize
    ensures page * info.psize >= 0 && page * info.psize + info.psize <= |c.flash|
    ensures var r := Programmed(info, c, page, d).flash;
            page * info.psize + info.psize <= |r| &&
            r[page * info.psize..page * info.psize + info.psize] == Filled(c.ram, d)
  {
    PageInside(info, c, page);
    ReplacedReads(c.flash, page * info.psize, Filled(c.ram, d));
  }

  /**
   The page written last. If the data does not fill it, it does not end with 0xFF, but with the data of the page
   before, at the same offsets; if it is the only page, with what the RAM buffer held before.
   */
  lemma ShortPageTail(info: Info, c: Cells, pgn: nat, data: seq<Byte>, k: nat)
    requires Fits(info, c) && k > 0 && pgn + k <= info.pages && Mark(k - 1, info.psize, |data|) < |data|
    ensures var at := (pgn + k - 1) * info.psize;
            var d := Round(data, info.psize, k - 1);
            var before := if k == 1 then c.ram else Round(data, info.psize, k - 2);
            var r := Flashed(info, c, pgn, data, k).flash;
            0 <= at && at + info.psize <= |r| && |before| == info.psize &&
            r[at..at + info.psize] == d + before[|d|..]
  {
    hide Programmed, Flashed, Round, Mark, Fits, Filled;
    var c1 := Flashed(info, c, pgn, data, k - 1);
    var d := Round(data, info.psize, k - 1);
    FlashedStep(info, c, pgn, data, k - 1);
    PageAfter(info, c1, pgn + k - 1, d);
    FilledIs(c1.ram, d);
    if k == 1 { FlashedNone(info, c, pgn, data); } else { BufferHolds(info, c, pgn, data, k - 1); }
    RamSize(info, c1);
  }

  /** After a full round the RAM buffer holds its data. */
  lemma BufferHolds(info: Info, c: Cells, pgn: nat, data: seq<Byte>, k: nat)
    requires Fits(info, c) && k > 0 && pgn + k <= info.pages && Mark(k, info.psize, |data|) < |data|
    ensures Flashed(info, c, pgn, data, k).ram == Round(data, info.psize, k - 1)
  {
    hide Programmed, Flashed, Round, Mark, Fits;
    FlashedStep(info, c, pgn, data, k - 1);
    MarkStep(k - 1, info.psize, |data|);
    RoundSize(data, info.psize, k - 1);
    BufferAfter(info, Flashed(info, c, pgn, data, k - 1), pgn + k - 1, Round(data, info.psize, k - 1));
  }

  lemma RamSize(info: Info, c: Cells)
    requires Fits(info, c)
    ensures |c.ram| == info.psize
  {
  }

  lemma FilledIs(ram: seq<Byte>, d: seq<Byte>)
    requires |d| <= |ram|
    ensures Filled(ram, d) == d + ram[|d|..]
  {
  }

  lemma FlashedNone(info: Info, c: Cells, pgn: nat, data: seq<Byte>)
    requires Fits(info, c) && pgn <= info.pages
    ensures Flashed(info, c, pgn, data, 0) == c
  {
  }

  /** What SpiAt45dPageWrite did: done rounds are confirmed, and one more may have reached the flash. */
  ghost predicate Outcome(info: Info, c: Cells, c': Cells, pgn: nat, data: seq<Byte>, rc: int, done: nat, flashed: nat)
    requires Fits(info, c)
  {
    done <= flashed <= done + 1 && pgn + flashed <= info.pages &&
    (flashed > 0 ==> Mark(flashed - 1, info.psize, |data|) < |data|) && (data == [] ==> flashed == 0) &&
    c'.flash == Flashed(info, c, pgn, data, flashed).flash &&
    rc == if data != [] && done == 0 then -1 else Mark(done, info.psize, |data|)
  }

  /** Between two rounds. */
  ghost predicate Between(info: Info, c: Cells, c': Cells, pgn: nat, data: seq<Byte>, rc: int, done: nat, start: nat)
    requires Fits(info, c)
  {
    pgn + done <= info.pages && start == Mark(done, info.psize, |data|) && start <= |data| &&
    (done > 0 ==> Mark(done - 1, info.psize, |data|) < |data|) &&
    c' == Flashed(info, c, pgn, data, done) && rc == if done == 0 then -1 else start
  }

  /** One round, which may have failed before or after it reached the flash. */
  lemma RoundCounts(info: Info, c: Cells, c1: Cells, c2: Cells, pgn: nat, data: seq<Byte>, rc: int, done: nat,
                    start: nat, step: nat)
    requires Fits(info, c) && Between(info, c, c1, pgn, data, rc, done, start) && start < |data| &&
             pgn + done < info.pages
    requires step == if |data| - start < info.psize then |data| - start else info.psize
    ensures data[start..start + step] == Round(data, info.psize, done) && start == if rc < 0 then 0 else rc
    ensures c2.flash == c1.flash ==> Outcome(info, c, c2, pgn, data, rc, done, done)
    ensures c2 == Programmed(info, c1, pgn + done, data[start..start + step]) ==>
            Outcome(info, c, c2, pgn, data, rc, done, done + 1) &&
            Between(info, c, c2, pgn, data, start + step, done + 1, start + step) &&
            Outcome(info, c, c2, pgn, data, start + step, done + 1, done + 1)
  {
    hide Programmed, Flashed, Mark, Fits;
    MarkStep(done, info.psize, |data|);
    FlashedStep(info, c, pgn, data, done);
  }

  /** A page that does not exist: the round may have changed any page, or none. */
  ghost predicate Astray(info: Info, c: Cells, c': Cells, d: seq<Byte>)
    requires Fits(info, c) && |d| <= info.psize
  {
    c'.flash == c.flash || exists page: nat :: page < info.pages && c' == Programmed(info, c, page, d)
  }

  lemma MarkStep(k: nat, psize: nat, n: nat)
    ensures Mark(k + 1, psize, n) == if Mark(k, psize, n) + psize < n then Mark(k, psize, n) + psize else n
  {
  }

  class Chip {
    const info: Info
    var flash: seq<Byte>
    var ram: seq<Byte>

    ghost predicate Valid()
      reads this
    {
      Fits(info, Contents())
    }

    ghost function Contents(): Cells
      reads this
    {
      Cells(flash, ram)
    }

    constructor (info: Info, flash: seq<Byte>, ram: seq<Byte>)
      requires Fits(info, Cells(flash, ram))
      ensures Valid() && this.info == info && this.flash == flash && this.ram == ram
    {
      this.info, this.flash, this.ram := info, flash, ram;
    }

    /** Continuous array read; a command or a transfer may fail. */
    method ContRead(parm: nat, n: nat) returns (rc: int, data: seq<Byte>)
      requires Valid() && Unpacked(Packed(parm), info.pshft) < info.pages
      ensures rc == 0 ==> data == Stream(flash, Unpacked(Packed(parm), info.pshft) * info.psize, n)
    {
      var ok: bool := *;
      if !ok { return -1, []; }
      return 0, Stream(flash, Unpacked(Packed(parm), info.pshft) * info.psize, n);
    }

    /** Buffer write from offset 0; a failure may leave anything in the buffer. */
    method Buf1Write(d: seq<Byte>) returns (rc: int)
      requires Valid() && |d| <= info.psize
      modifies this`ram
      ensures Valid() && (rc == 0 ==> ram == Filled(old(ram), d))
    {
      var ok: bool := *;
      if ok {
        ram := Filled(ram, d);
        return 0;
      }
      var n: int := *;
      if 0 <= n <= |d| { ram := Filled(ram, d[..n]); }
      return -1;
    }

    /**
     Buffer to flash with built-in erase; a command that fails is not carried out. The chip does not check the page:
     for one that does not exist it may take any other one, or none.
     */
    method Buf1Flash(parm: nat) returns (rc: int, ghost hit: nat, ghost written: bool)
      requires Valid()
      modifies this`flash
      ensures Valid() && hit < info.pages && (rc != 0 ==> !written)
      ensures Unpacked(Packed(parm), info.pshft) < info.pages ==>
              hit == Unpacked(Packed(parm), info.pshft) && (rc == 0 ==> written)
      ensures hit * info.psize >= 0 && hit * info.psize + info.psize <= |flash|
      ensures flash == if written then Replaced(old(flash), hit * info.psize, ram) else old(flash)
    {
      var page: nat := Unpacked(Packed(parm), info.pshft);
      rc, written, hit := -1, false, 0;
      if page < info.pages {
        hit := page;
      } else {
        page := *;
        if page < info.pages { hit := page; }
      }
      PageInside(info, Contents(), hit);
      var ok: bool := *;
      if !ok { return; }
      if page < info.pages {
        flash := Replaced(flash, page * info.psize, ram);
        written := true;
      }
      rc := 0;
    }

    /** At45dWaitReady: gives up after a number of polls. */
    method WaitReady() returns (rc: int)
    {
      var ok: bool := *;
      rc := if ok then 0 else -1;
    }

    /** SpiAt45dPageRead */
    method PageRead(pgn: nat, len: nat) returns (rc: int, data: seq<Byte>)
      requires Valid()
      ensures rc == -1 || rc == len
      ensures rc >= 0 ==> pgn < info.pages && data == Stream(flash, pgn * info.psize, len)
    {
      if pgn >= info.pages { return -1, []; }
      PageArrives(info, pgn);
      rc, data := ContRead(pgn * Pow2(info.pshft), len);
      rc := if rc != 0 then -1 else len;
    }

    /** SpiAt45dPageWrite; a first page that does not exist is not refused, but nothing follows it. */
    method PageWrite(pgn: nat, data: seq<Byte>) returns (rc: int, ghost done: nat, ghost flashed: nat)
      requires Valid()
      modifies this`flash, this`ram
      ensures Valid()
      ensures pgn < info.pages ==> Outcome(info, old(Contents()), Contents(), pgn, data, rc, done, flashed)
      ensures pgn >= info.pages ==> Astray(info, old(Contents()), Contents(), Round(data, info.psize, 0))
      ensures pgn >= info.pages ==> rc == -1 || rc == |Round(data, info.psize, 0)|
    {
      hide Mark, Programmed, Fits, Flashed, Round, Outcome, Between, Astray;
      rc, done, flashed := -1, 0, 0;
      ghost var c := Contents();
      NothingYet(info, c, pgn, data);
      PageSizePositive(info, c);
      if data == [] {
        rc := 0;
        return;
      }
      var page, start: nat := pgn, 0;
      var step: nat := info.psize;
      while start < |data|
        invariant Valid() && page == pgn + done && flashed == done && 0 < step
        invariant start <= |data| && (start < |data| ==> step == info.psize)
        invariant pgn < info.pages && start < |data| ==> page < info.pages
        invariant pgn < info.pages ==> Between(info, c, Contents(), pgn, data, rc, done, start)
        invariant pgn < info.pages && start == |data| ==> Outcome(info, c, Contents(), pgn, data, rc, done, flashed)
        invariant pgn >= info.pages ==> done == 0 && start == 0 && Contents() == c && rc == -1
        decreases |data| - start
      {
        if step > |data| - start { step := |data| - start; }
        ghost var c1 := Contents();
        var r, written, hit := WriteRound(page, data[start..start + step]);
        if pgn < info.pages {
          RoundCounts(info, c, c1, Contents(), pgn, data, rc, done, start, step);
        } else {
          FirstAstray(info, c, Contents(), data, step, hit, written);
        }
        if written { flashed := done + 1; }
        if r != 0 { return; }
        if rc < 0 { rc := 0; }
        rc := rc + step;
        start := start + step;
        done := done + 1;
        page := page + 1;
        if page >= info.pages { return; }
      }
    }

    lemma NothingYet(info: Info, c: Cells, pgn: nat, data: seq<Byte>)
      requires Fits(info, c)
      ensures pgn < info.pages ==> Between(info, c, c, pgn, data, -1, 0, 0)
      ensures data == [] ==> Round(data, info.psize, 0) == [] && Astray(info, c, c, Round(data, info.psize, 0))
      ensures data == [] && pgn < info.pages ==> Outcome(info, c, c, pgn, data, 0, 0, 0)
    {
      FlashedSame(info, c, pgn, data);
    }

    lemma FlashedSame(info: Info, c: Cells, pgn: nat, data: seq<Byte>)
      requires Fits(info, c)
      ensures pgn <= info.pages ==> Flashed(info, c, pgn, data, 0) == c
    {
    }

    lemma FirstAstray(info: Info, c: Cells, c': Cells, data: seq<Byte>, step: nat, hit: nat, written: bool)
      requires Fits(info, c) && hit < info.pages && data != []
      requires step == if |data| < info.psize then |data| else info.psize
      requires if written then c' == Programmed(info, c, hit, data[0..step]) else c'.flash == c.flash
      ensures Round(data, info.psize, 0) == data[0..step] && Astray(info, c, c', Round(data, info.psize, 0))
    {
      MarkStep(0, info.psize, |data|);
      hide Programmed;
    }

    lemma PageSizePositive(info: Info, c: Cells)
      requires Fits(info, c)
      ensures info.psize > 0
    {
    }

    /** One round: into the RAM buffer, from there into the flash, and wait. */
    method WriteRound(page: nat, d: seq<Byte>) returns (rc: int, ghost written: bool, ghost hit: nat)
      requires Valid() && |d| <= info.psize
      modifies this`flash, this`ram
      ensures Valid() && hit < info.pages
      ensures page < info.pages ==> hit == page && (rc == 0 ==> written)
      ensures if written then Contents() == Programmed(info, old(Contents()), hit, d) else flash == old(flash)
    {
      hide Sound, Packed, Unpacked;
      written, hit := false, if page < info.pages then page else 0;
      PageInside(info, Contents(), hit);
      rc := Buf1Write(d);
      if rc != 0 { return; }
      if page < info.pages { PageArrives(info, page); }
      rc, hit, written := Buf1Flash(page * Pow2(info.pshft));
      if rc != 0 { return; }
      rc := WaitReady();
    }
  }

  // --- The configuration area ---

  function PageAt(page: nat, psize: nat): (r: nat) {
    NonNegative(page, psize);
    page * psize
  }

  lemma NonNegative(x: nat, y: nat)
    ensures x * y >= 0
  {
  }

  /** The page of a position, and the position in flash it stands for. */
  lemma PagePosition(cpage: nat, pos: nat, psize: nat)
    requires psize > 0
    ensures 0 <= pos / psize && pos % psize < psize
    ensures PageAt(cpage + pos / psize, psize) + pos % psize == PageAt(cpage, psize) + pos
  {
    assert pos / psize * psize + pos % psize == pos;
  }

  lemma NextPage(page: nat, psize: nat)
    ensures PageAt(page + 1, psize) == PageAt(page, psize) + psize
  {
  }

  lemma NoBytes(f: seq<Byte>, at: nat)
    requires at <= |f|
    ensures Replaced(f, at, []) == f
  {
  }

  /** Replacing no bytes leaves the flash alone, wherever that would be. */
  function Stored(f: seq<Byte>, at: nat, d: seq<Byte>): (r: seq<Byte>)
    ensures |r| == |f|
  {
    if at + |d| <= |f| then Replaced(f, at, d) else f
  }

  class Config {
    const chip: Chip
    /** SpiAt45dConfigSize and SpiAt45dConfigPage */
    const csize: nat
    const cpage: nat

    constructor (chip: Chip, csize: nat, cpage: nat)
      ensures this.chip == chip && this.csize == csize && this.cpage == cpage
    {
      this.chip, this.csize, this.cpage := chip, csize, cpage;
    }

    /** Where a position of the area lies in flash. */
    function Address(pos: nat): (r: nat) {
      PageAt(cpage, chip.info.psize) + pos
    }

    /** SpiAt45dConfigRead */
    method Read(pos: nat, len: nat) returns (rc: int, data: seq<Byte>)
      requires chip.Valid()
      ensures rc == 0 || rc == -1
      ensures rc == 0 ==> pos + len <= csize && cpage < chip.info.pages && data == Stream(chip.flash, Address(pos), len)
    {
      data := [];
      var memory: bool := *;
      if csize < pos + len || !memory { return -1, []; }
      var n, buff := chip.PageRead(cpage, csize);
      if n != csize { return -1, []; }
      StreamParts(chip.flash, Address(0), csize, pos, len);
      return 0, buff[pos..pos + len];
    }

    /** One pass of the loop in SpiAt45dConfigWrite: changes part of a page, unless it already holds the bytes. */
    method WritePart(page: nat, offset: nat, d: seq<Byte>) returns (rc: int, ghost written: bool)
      requires chip.Valid() && offset + |d| <= chip.info.psize
      modifies chip`flash, chip`ram
      ensures chip.Valid() && (rc == 0 || rc == -1) && (rc == 0 ==> written)
      ensures written ==> PageAt(page, chip.info.psize) + offset + |d| <= |chip.flash|
      ensures chip.flash == if written then Replaced(old(chip.flash), PageAt(page, chip.info.psize) + offset, d)
                            else old(chip.flash)
    {
      hide Replaced, Filled, Stream, Programmed, Flashed, Mark;
      written := false;
      var psize := chip.info.psize;
      var n, pbuff := chip.PageRead(page, psize);
      if n != psize { return -1, false; }
      PageInside(chip.info, chip.Contents(), page);
      ghost var f, at := chip.flash, page * psize;
      StreamWithin(f, at, psize);
      if pbuff[offset..offset + |d|] != d {
        pbuff := pbuff[..offset] + d + pbuff[offset + |d|..];
        BufferIs(f[at..at + psize], offset, d);
        ReplacedThroughPage(f, at, psize, offset, d);
        FullPage(chip.info, chip.Contents(), page, pbuff);
        ghost var done, flashed;
        n, done, flashed := chip.PageWrite(page, pbuff);
        written := flashed > 0;
        rc := if n == psize then 0 else -1;
      } else {
        SliceOfSlice(f, at, psize, offset, |d|);
        ReplacedSame(f, at + offset, d);
        return 0, true;
      }
    }

    lemma BufferIs(page: seq<Byte>, offset: nat, d: seq<Byte>)
      requires offset + |d| <= |page|
      ensures page[..offset] + d + page[offset + |d|..] == Replaced(page, offset, d)
    {
    }

    lemma SliceOfSlice(f: seq<Byte>, at: nat, n: nat, offset: nat, m: nat)
      requires at + n <= |f| && offset + m <= n
      ensures f[at..at + n][offset..offset + m] == f[at + offset..at + offset + m]
    {
      var x, y := f[at..at + n][offset..offset + m], f[at + offset..at + offset + m];
      forall i | 0 <= i < m ensures x[i] == y[i] {}
    }

    /** Writing a whole page takes one round, and the buffer's old contents do not matter. */
    lemma FullPage(info: Info, c: Cells, page: nat, d: seq<Byte>)
      requires Fits(info, c) && page < info.pages && |d| == info.psize
      ensures Mark(1, info.psize, |d|) == |d| && Mark(0, info.psize, |d|) == 0
      ensures forall k :: k >= 1 ==> Mark(k, info.psize, |d|) == |d|
      ensures Flashed(info, c, page, d, 0) == c
      ensures page * info.psize >= 0 && page * info.psize + |d| <= |c.flash|
      ensures Flashed(info, c, page, d, 1).flash == Replaced(c.flash, page * info.psize, d)
    {
      MarkStep(0, info.psize, |d|);
      PageInside(info, c, page);
      assert Round(d, info.psize, 0) == d;
      assert Filled(c.ram, d) == d;
      assert Flashed(info, c, page, d, 0) == c;
      forall k | k >= 1 ensures Mark(k, info.psize, |d|) == |d| { MarkStays(k, info.psize); }
    }

    lemma {:induction false} MarkStays(k: nat, psize: nat)
      requires k >= 1
      ensures Mark(k, psize, psize) == psize
      decreases k
    {
      MarkStep(k - 1, psize, psize);
      if k > 1 { MarkStays(k - 1, psize); }
    }

    /** SpiAt45dConfigWrite: on failure only a first part of the bytes, up to the end of a page, may be stored. */
    method Write(pos: nat, data: seq<Byte>) returns (rc: int, ghost stored: nat, ghost next: nat)
      requires chip.Valid()
      modifies chip`flash, chip`ram
      ensures chip.Valid() && (rc == 0 || rc == -1) && stored <= |data|
      ensures chip.flash == Stored(old(chip.flash), Address(pos), data[..stored])
      ensures stored == 0 || stored == |data| || Address(pos) + stored == PageAt(next, chip.info.psize)
      ensures stored > 0 ==> pos + |data| <= csize && Address(pos) + stored <= |chip.flash|
      ensures rc == 0 ==> stored == |data| > 0
    {
      hide Stored, Address, PageAt, Replaced, Fits;
      rc, stored, next := -1, 0, 0;
      NothingStored(chip.flash, Address(pos), data);
      var memory: bool := *;
      if |data| == 0 || csize < pos + |data| || !memory { return; }
      var psize: nat := chip.info.psize;
      AddressIs(pos);
      FitsPage();
      PagePosition(cpage, pos, psize);
      var page: nat := cpage + pos / psize;
      var offset: nat := pos % psize;
      var done: nat := 0;
      var wsize: nat := if offset + |data| > psize then psize - offset else psize;
      if |data| < wsize { wsize := |data|; }
      while done < |data|
        invariant chip.Valid() && stored == done <= |data| &&
                  (done < |data| ==> PageAt(page, psize) + offset == Address(pos) + done)
        invariant done < |data| ==> 0 < wsize && offset + wsize <= psize && done + wsize <= |data|
        invariant done < |data| ==> done + wsize == |data| || offset + wsize == psize
        invariant done == 0 || done == |data| || Address(pos) + done == PageAt(next, psize)
        invariant chip.flash == Stored(old(chip.flash), Address(pos), data[..done])
        invariant done > 0 ==> Address(pos) + done <= |chip.flash|
        invariant rc == if done > 0 then 0 else -1
        decreases |data| - done
      {
        var part := data[done..done + wsize];
        var r, written := WritePart(page, offset, part);
        if written {
          StoredGrows(old(chip.flash), Address(pos), data, done, done + wsize);
          stored := done + wsize;
          next := page + 1;
          NextPage(page, psize);
        }
        if r != 0 { return -1, stored, next; }
        done := done + wsize;
        rc := 0;
        offset := 0;
        page := page + 1;
        wsize := if |data| - done > psize then psize else |data| - done;
      }
    }

    lemma AddressIs(pos: nat)
      ensures Address(pos) == PageAt(cpage, chip.info.psize) + pos
    {
    }

    lemma FitsPage()
      requires chip.Valid()
      ensures chip.info.psize > 0
    {
    }

    lemma NothingStored(f: seq<Byte>, at: nat, data: seq<Byte>)
      ensures Stored(f, at, data[..0]) == f
    {
      if at <= |f| { NoBytes(f, at); }
    }

    lemma StoredGrows(f: seq<Byte>, at: nat, data: seq<Byte>, m: nat, n: nat)
      requires m <= n <= |data| && at + n <= |f|
      ensures at + m <= |Stored(f, at, data[..m])| == |f|
      ensures Replaced(Stored(f, at, data[..m]), at + m, data[m..n]) == Stored(f, at, data[..n])
    {
      var d := data[..n];
      assert d[..m] == data[..m] && d[m..n] == data[m..n] && d[..n] == d;
      ReplacedTwice(f, at, d, m, n);
    }

    /** A write that returns 0 replaces exactly its bytes, and whatever else happens a later read returns them. */
    method WriteThenRead(pos: nat, data: seq<Byte>) returns (rc: int, back: seq<Byte>)
      requires chip.Valid()
      modifies chip`flash, chip`ram
      ensures chip.Valid()
      ensures rc == 0 ==> back == data && Address(pos) + |data| <= |old(chip.flash)|
      ensures rc == 0 ==> chip.flash == Replaced(old(chip.flash), Address(pos), data)
    {
      ghost var stored, next;
      ghost var f := chip.flash;
      rc, stored, next := Write(pos, data);
      back := [];
      if rc == 0 {
        assert data[..|data|] == data;
        rc, back := Read(pos, |data|);
        if rc == 0 {
          StreamWithin(chip.flash, Address(pos), |data|);
          ReplacedReads(f, Address(pos), data);
        }
      }
    }
  }
}
