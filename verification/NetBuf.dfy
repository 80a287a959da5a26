/**
 Reference-counted network buffers (dev/netbuf.c, include/dev/netbuf.h): the operations.

 The C heap is modelled as two maps from addresses, one for NETBUF structures and one for
 payload blocks, so that freeing, dangling pointers and address reuse are all visible.  An
 operation that touches memory which is not allocated yields Fault.
 */
module NetBuf {
  import opened Machine

  type Ptr = nat

  const NULL: Ptr := 0
  const MAX_REFS := 7  // NBAF_REFCNT

  /** DATALINK, NETWORK, TRANSPORT, APPLICATION, in the order the code visits them. */
  type Part = p: nat | p < 4
  const APPLICATION: Part := 3
  const ALL_PARTS: set<Part> := {0, 1, 2, 3}

  datatype NbData = NbData(vp: Ptr, sz: nat)

  /** nb_flags: reference count in bits 0-2, unicast mark in bit 3, ownership in bits 4-7. */
  datatype Flags = Flags(refcnt: nat, unicast: bool, own: set<Part>)

  /** depth is auxiliary: how many clone steps separate the buffer from an original. */
  datatype Buf = Buf(next: Ptr, flags: Flags, parts: seq<NbData>, ref: Ptr, depth: nat)

  datatype Heap = Heap(bufs: map<Ptr, Buf>, blocks: map<Ptr, seq<Byte>>)

  datatype Outcome<+T> = Fault | Ok(value: T) {
    predicate IsFailure() { Fault? }
    function PropagateFailure<U>(): Outcome<U> requires Fault? { Fault }
    function Extract(): T requires Ok? { value }
    function GetOr(default: T): T { if Ok? then value else default }
  }

  // ---------------------------------------------------------------- the flags byte

  function Unpack(b: Byte): Flags {
    Flags(b % 8, b / 8 % 2 == 1, set p: Part | p in ALL_PARTS && OwnBit(b / 8, p))
  }

  /** high holds bits 3-7 of the flags byte. */
  predicate OwnBit(high: nat, p: Part) {
    match p
    case 0 => high / 2 % 2 == 1
    case 1 => high / 4 % 2 == 1
    case 2 => high / 8 % 2 == 1
    case _ => high / 16 % 2 == 1
  }

  /** nb_flags++ is "one more reference" exactly when the count is not full; otherwise it carries. */
  lemma IncrementCarriesOnlyWhenFull(b: Byte)
    ensures Unpack((b + 1) % 256) == Unpack(b).(refcnt := Unpack(b).refcnt + 1)
            <==> Unpack(b).refcnt < MAX_REFS
  {
    if b % 8 < 7 {
      assert (b + 1) % 256 == b + 1 && (b + 1) % 8 == b % 8 + 1 && (b + 1) / 8 == b / 8;
    }
  }

  /** nb_flags-- is "one reference less" exactly when the count is not zero. */
  lemma DecrementBorrowsOnlyWhenEmpty(b: Byte)
    ensures Unpack((b + 255) % 256) == Unpack(b).(refcnt := (Unpack(b).refcnt + 7) % 8)
            <==> Unpack(b).refcnt > 0
  {
    if b % 8 > 0 {
      assert (b + 255) % 256 == b - 1 && (b - 1) % 8 == b % 8 - 1 && (b - 1) / 8 == b / 8;
    } else {
      hide OwnBit;
      assert b == 8 * (b / 8);
      assert (b + 255) % 256 / 8 == (b / 8 + 31) % 32;
    }
  }

  // ---------------------------------------------------------------- release

  /** NutHeapFree: a null pointer is ignored, anything not allocated is a fault. */
  function FreeBlock(h: Heap, v: Ptr): Outcome<Heap> {
    if v == NULL then Ok(h)
    else if v in h.blocks then Ok(h.(blocks := h.blocks - {v}))
    else Fault
  }

  function FreeParts(h: Heap, buf: Buf, p: nat): Outcome<Heap>
    requires p <= 4 && |buf.parts| == 4
    decreases 4 - p
  {
    if p == 4 then Ok(h)
    else if p in buf.flags.own then
      var h1 :- FreeBlock(h, buf.parts[p].vp);
      FreeParts(h1, buf, p + 1)
    else FreeParts(h, buf, p + 1)
  }

  lemma FreePartsKeepsBufs(h: Heap, buf: Buf, p: nat)
    requires p <= 4 && |buf.parts| == 4
    ensures FreeParts(h, buf, p).Ok? ==> FreeParts(h, buf, p).value.bufs == h.bufs
    decreases 4 - p
  {
  }

  lemma RemovalShrinks<V>(m: map<Ptr, V>, b: Ptr)
    requires b in m
    ensures |m - {b}| < |m|
  {
    assert (m - {b}).Keys == m.Keys - {b};
    assert |m.Keys - {b}| < |m.Keys|;
  }

  /** NutNetBufFree. */
  function FreeBuf(h: Heap, b: Ptr): Outcome<Heap>
    decreases |h.bufs|
  {
    if b !in h.bufs || |h.bufs[b].parts| != 4 then Fault
    else
      var buf := h.bufs[b];
      if buf.flags.refcnt > 0 then
        Ok(h.(bufs := h.bufs[b := buf.(flags := buf.flags.(refcnt := buf.flags.refcnt - 1))]))
      else
        var h1 :- FreeParts(h, buf, 0);
        FreePartsKeepsBufs(h, buf, 0);
        RemovalShrinks(h.bufs, b);
        var h2 := h1.(bufs := h1.bufs - {b});
        if buf.ref == NULL then Ok(h2) else FreeBuf(h2, buf.ref)
  }

  // ---------------------------------------------------------------- allocation

  function EmptyBuf(): Buf {
    Buf(NULL, Flags(0, false, {}), [NbData(NULL, 0), NbData(NULL, 0), NbData(NULL, 0), NbData(NULL, 0)], NULL, 0)
  }

  /** A block just handed out by NutHeapAlloc; its contents mean nothing. */
  function FreshBlock(size: nat, fill: Byte): seq<Byte> {
    seq(size, _ => fill)
  }

  function WithPart(buf: Buf, p: Part, d: NbData, own: set<Part>): Buf
    requires |buf.parts| == 4
  {
    buf.(parts := buf.parts[p := d], flags := buf.flags.(own := own))
  }

  /**
   NutNetBufAlloc(nb, type, size).  a1 and a2 are the answers of the allocator, for a new structure
   (asked only if nb is null) and for the payload; null means that memory is exhausted.
   */
  function Alloc(h: Heap, nb: Ptr, p: Part, size: nat, a1: Ptr, a2: Ptr, fill: Byte): Outcome<(Heap, Ptr)> {
    if nb == NULL && a1 == NULL then Ok((h, NULL))
    else if nb == NULL then AllocPart(h.(bufs := h.bufs[a1 := EmptyBuf()]), a1, p, size, a2, fill)
    else AllocPart(h, nb, p, size, a2, fill)
  }

  function AllocPart(h: Heap, n: Ptr, p: Part, size: nat, a: Ptr, fill: Byte): Outcome<(Heap, Ptr)> {
    if n !in h.bufs || |h.bufs[n].parts| != 4 then Fault
    else
      var buf := h.bufs[n];
      var d := buf.parts[p];
      var own := buf.flags.own;
      if p in own && size <= d.sz && size > 0 then
        Ok((h.(bufs := h.bufs[n := WithPart(buf, p, d.(sz := size), own)]), n))
      else
        var h1 :- if p in own then FreeBlock(h, d.vp) else Ok(h);
        if a == NULL then
          var h2 :- FreeBuf(h1.(bufs := h1.bufs[n := WithPart(buf, p, NbData(NULL, 0), own)]), n);
          Ok((h2, NULL))
        else
          Ok((Heap(h1.bufs[n := WithPart(buf, p, NbData(a, size), own + {p})],
                   h1.blocks[a := FreshBlock(size, fill)]), n))
  }

  // ---------------------------------------------------------------- cloning

  /** Progress of NutNetBufClonePart: heap, new structure, out of memory, something borrowed. */
  datatype Cloning = Cloning(h: Heap, cb: Buf, failed: bool, referenced: bool)

  /** One of the four paragraphs of NutNetBufClonePart; a is the allocator's answer. */
  function CopyPart(acc: Cloning, src: Buf, p: Part, inserts: set<Part>, a: Ptr): Outcome<Cloning>
    requires |acc.cb.parts| == 4 && |src.parts| == 4
    ensures CopyPart(acc, src, p, inserts, a).Ok? ==> |CopyPart(acc, src, p, inserts, a).value.cb.parts| == 4
  {
    var d := src.parts[p];
    var own := acc.cb.flags.own;
    if d.sz == 0 || acc.failed then Ok(acc)
    else if p !in inserts then
      Ok(acc.(cb := WithPart(acc.cb, p, d, own), referenced := true))
    else if a == NULL then Ok(acc.(failed := true))
    else if d.vp !in acc.h.blocks || |acc.h.blocks[d.vp]| < d.sz then Fault
    else
      Ok(acc.(h := acc.h.(blocks := acc.h.blocks[a := acc.h.blocks[d.vp][..d.sz]]),
              cb := WithPart(acc.cb, p, NbData(a, d.sz), own + {p})))
  }

  function CopyParts(acc: Cloning, src: Buf, p: nat, inserts: set<Part>, answers: seq<Ptr>): Outcome<Cloning>
    requires |acc.cb.parts| == 4 && |src.parts| == 4 && p <= 4 && |answers| == 4
    decreases 4 - p
  {
    if p == 4 then Ok(acc)
    else
      var acc1 :- CopyPart(acc, src, p, inserts, answers[p]);
      CopyParts(acc1, src, p + 1, inserts, answers)
  }

  function Inserts(buf: Buf, inserts: set<Part>): set<Part> {
    if buf.flags.refcnt == MAX_REFS then ALL_PARTS else inserts
  }

  /** NutNetBufClonePart(nb, inserts): a for the structure, answers[p] for the copy of part p. */
  function ClonePart(h: Heap, nb: Ptr, inserts: set<Part>, a: Ptr, answers: seq<Ptr>): Outcome<(Heap, Ptr)>
    requires |answers| == 4
  {
    if nb !in h.bufs || |h.bufs[nb].parts| != 4 then Fault
    else if a == NULL then Ok((h, NULL))
    else
      var src := h.bufs[nb];
      var acc :- CopyParts(Cloning(h, EmptyBuf(), false, false), src, 0, Inserts(src, inserts), answers);
      if acc.failed then
        var h1 :- FreeBuf(acc.h.(bufs := acc.h.bufs[a := acc.cb]), a);
        Ok((h1, NULL))
      else if acc.referenced then
        var origin := src.(flags := src.flags.(refcnt := src.flags.refcnt + 1));
        Ok((acc.h.(bufs := acc.h.bufs[nb := origin][a := acc.cb.(ref := nb, depth := src.depth + 1)]), a))
      else
        Ok((acc.h.(bufs := acc.h.bufs[a := acc.cb]), a))
  }
}
