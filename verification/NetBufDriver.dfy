/**
 The routines of dev/netbuf.c as they work, step by step, on a heap that is updated in place.
 Each is proved to bring about exactly the heap that the functions of NetBuf and NetBufQueue describe.
 */
module NetBufDriver {
  import opened Machine
  import opened NetBuf
  import opened NetBufBirth
  import opened NetBufHeap
  import opened NetBufQueue
  import opened NetBufRelease
  import opened NetBufResize

  class Memory {
    var bufs: map<Ptr, Buf>
    var blocks: map<Ptr, seq<Byte>>

    constructor ()
      ensures Contents() == Heap(map[], map[])
    {
      bufs, blocks := map[], map[];
    }

    ghost function Contents(): Heap
      reads this
    {
      Heap(bufs, blocks)
    }

    /** A block can be given back only while it is allocated. */
    method HeapFree(v: Ptr)
      requires v == NULL || v in blocks
      modifies this`blocks
      ensures Ok(Contents()) == FreeBlock(old(Contents()), v)
    {
      if v != NULL {
        blocks := blocks - {v};
      }
    }

    method HeapFreePart(buf: Buf, p: Part)
      requires |buf.parts| == 4 && FreeParts(Contents(), buf, p).Ok?
      modifies this`blocks
      ensures FreeParts(Contents(), buf, p + 1) == FreeParts(old(Contents()), buf, p)
    {
      if p in buf.flags.own {
        HeapFree(buf.parts[p].vp);
      }
    }

    /** Clone chains lead to older structures; part of the heap invariant. */
    ghost predicate Descending()
      reads this
    {
      NULL !in bufs &&
      forall b :: b in bufs && bufs[b].ref != NULL ==> bufs[b].ref in bufs && bufs[bufs[b].ref].depth < bufs[b].depth
    }

    method NutNetBufFree(nb: Ptr)
      requires FreeBuf(Contents(), nb).Ok? && Descending()
      modifies this
      ensures Ok(Contents()) == FreeBuf(old(Contents()), nb)
      decreases bufs[nb].depth
    {
      hide FreeParts, FreeBuf;
      ghost var h := Contents();
      FreeStarts(h, nb);
      var buf := bufs[nb];
      if buf.flags.refcnt > 0 {
        bufs := bufs[nb := buf.(flags := buf.flags.(refcnt := buf.flags.refcnt - 1))];
      } else {
        HeapFreePart(buf, 0);
        HeapFreePart(buf, 1);
        HeapFreePart(buf, 2);
        HeapFreePart(buf, 3);
        ghost var h1 := Contents();
        AllPartsFree(h1, buf);
        FreeUnshared(h, nb, h1);
        if buf.ref != NULL {
          OriginFirst(h, nb, h1);
          NutNetBufFree(buf.ref);
        }
        bufs := bufs - {nb};
      }
    }
  
    method NutNetBufAlloc(buffer: Ptr, p: Part, size: nat, a1: Ptr, a2: Ptr, fill: Byte) returns (nb: Ptr)
      requires Alloc(Contents(), buffer, p, size, a1, a2, fill).Ok? && size > 0 && a1 !in bufs && Descending()
      modifies this
      ensures Ok((Contents(), nb)) == Alloc(old(Contents()), buffer, p, size, a1, a2, fill)
    {
      nb := buffer;
      if nb == NULL {
        nb := a1;
        if nb != NULL {
          bufs := bufs[nb := EmptyBuf()];
        }
      }
      if nb != NULL {
        var buf := bufs[nb];
        var nbd := buf.parts[p];
        if p in buf.flags.own {
          if nbd.sz < size {
            HeapFree(nbd.vp);
            nbd := nbd.(sz := 0);
          } else {
            nbd := nbd.(sz := size);
          }
        } else {
          nbd := nbd.(sz := 0);
        }
        if nbd.sz == 0 {
          nbd := nbd.(vp := a2);
          if nbd.vp != NULL {
            blocks := blocks[a2 := FreshBlock(size, fill)];
            nbd := nbd.(sz := size);
            bufs := bufs[nb := WithPart(buf, p, nbd, buf.flags.own + {p})];
          } else {
            bufs := bufs[nb := WithPart(buf, p, nbd, buf.flags.own)];
            NutNetBufFree(nb);
            nb := NULL;
          }
        } else {
          bufs := bufs[nb := WithPart(buf, p, nbd, buf.flags.own)];
        }
      }
    }

    /** The memory while structure cb is being filled: acc describes it without cb. */
    ghost predicate Filling(acc: Cloning, cb: Ptr)
      reads this
    {
      cb !in acc.h.bufs && |acc.cb.parts| == 4 && bufs == acc.h.bufs[cb := acc.cb] && blocks == acc.h.blocks
    }

    /** One of the four paragraphs of NutNetBufClonePart, on the structure cb. */
    method CopyOnePart(nb: Ptr, cb: Ptr, p: Part, inserts: set<Part>, answers: seq<Ptr>, failed: bool,
                       referenced: bool, ghost acc: Cloning)
      returns (e: bool, r: bool, ghost acc': Cloning)
      requires Filling(acc, cb) && acc.failed == failed && acc.referenced == referenced
      requires nb in acc.h.bufs && |acc.h.bufs[nb].parts| == 4 && |answers| == 4
      requires CopyParts(acc, acc.h.bufs[nb], p, inserts, answers).Ok?
      modifies this
      ensures Filling(acc', cb) && acc'.failed == e && acc'.referenced == r && acc'.h.bufs == acc.h.bufs
      ensures acc'.cb.ref == acc.cb.ref
      ensures CopyParts(acc', acc.h.bufs[nb], p + 1, inserts, answers) ==
              CopyParts(acc, acc.h.bufs[nb], p, inserts, answers)
    {
      e, r := failed, referenced;
      acc' := CopyPart(acc, acc.h.bufs[nb], p, inserts, answers[p]).value;
      var d := bufs[nb].parts[p];
      if d.sz != 0 && !e {
        if p in inserts {
          var a := answers[p];
          if a != NULL {
            blocks := blocks[a := blocks[d.vp][..d.sz]];
            bufs := bufs[cb := WithPart(bufs[cb], p, NbData(a, d.sz), bufs[cb].flags.own + {p})];
          } else {
            e := true;
          }
        } else {
          bufs := bufs[cb := WithPart(bufs[cb], p, d, bufs[cb].flags.own)];
          r := true;
        }
      }
    }

    /** The four paragraphs in a row. */
    method CopyFourParts(nb: Ptr, cb: Ptr, inserts: set<Part>, answers: seq<Ptr>)
      returns (e: bool, referenced: bool, ghost acc: Cloning)
      requires nb in bufs && |bufs[nb].parts| == 4 && |answers| == 4 && cb !in bufs
      requires CopyParts(Cloning(Contents(), EmptyBuf(), false, false), bufs[nb], 0, inserts, answers).Ok?
      modifies this
      ensures CopyParts(Cloning(old(Contents()), EmptyBuf(), false, false), old(bufs[nb]), 0, inserts, answers) ==
              Ok(acc)
      ensures Filling(acc, cb) && acc.failed == e && acc.referenced == referenced
      ensures acc.h.bufs == old(bufs) && acc.cb.ref == NULL
    {
      hide CopyPart;
      acc := Cloning(Contents(), EmptyBuf(), false, false);
      bufs := bufs[cb := EmptyBuf()];
      e, referenced := false, false;
      e, referenced, acc := CopyOnePart(nb, cb, 0, inserts, answers, e, referenced, acc);
      e, referenced, acc := CopyOnePart(nb, cb, 1, inserts, answers, e, referenced, acc);
      e, referenced, acc := CopyOnePart(nb, cb, 2, inserts, answers, e, referenced, acc);
      e, referenced, acc := CopyOnePart(nb, cb, 3, inserts, answers, e, referenced, acc);
    }

    method NutNetBufClonePart(nb: Ptr, inserts: set<Part>, a: Ptr, answers: seq<Ptr>) returns (cb: Ptr)
      requires |answers| == 4 && ClonePart(Contents(), nb, inserts, a, answers).Ok? && a !in bufs && Descending()
      modifies this
      ensures Ok((Contents(), cb)) == ClonePart(old(Contents()), nb, inserts, a, answers)
    {
      hide CopyParts, CopyPart, FreeBuf, ClonePart;
      ghost var h := Contents();
      CloneStarts(h, nb, inserts, a, answers);
      var ins := inserts;
      if bufs[nb].flags.refcnt == MAX_REFS {
        ins := ALL_PARTS;
      }
      cb := a;
      if cb != NULL {
        var e, referenced;
        ghost var acc;
        e, referenced, acc := CopyFourParts(nb, cb, ins, answers);
        CloneEnds(h, nb, inserts, a, answers, acc);
        if e {
          NutNetBufFree(cb);
          cb := NULL;
        } else if referenced {
          bufs := bufs[cb := bufs[cb].(ref := nb, depth := bufs[nb].depth + 1)];
          bufs := bufs[nb := OneMore(bufs[nb])];
          TwoUpdates(acc.h.bufs, nb, OneMore(h.bufs[nb]), cb, acc.cb,
                     acc.cb.(ref := nb, depth := h.bufs[nb].depth + 1));
        }
      }
    }
  
    /** Memory while a queue is being merged into block a. */
    ghost predicate Merging(g: Gather, tokens: multiset<Ptr>, a: Ptr, total: nat, fill: Byte)
      reads this
    {
      && bufs == g.h.bufs && a !in g.h.blocks && |g.bytes| <= total
      && blocks == g.h.blocks[a := Filled(g, total, fill)]
      && Inv(g.h, tokens) && AllHeld(g.rest, tokens)
    }

    /** memcpy of the application part of nb to offset off of block a. */
    method CopyApplication(nb: Ptr, a: Ptr, off: nat)
      requires nb in bufs && ApBytes(Contents(), nb).Ok? && |bufs[nb].parts| == 4
      requires a in blocks && off + |ApBytes(Contents(), nb).value| <= |blocks[a]|
      modifies this`blocks
      ensures var bytes := ApBytes(old(Contents()), nb).value;
              blocks == old(blocks)[a := Spliced(old(blocks[a]), off, bytes)]
    {
      var d := bufs[nb].parts[APPLICATION];
      if d.sz > 0 {
        blocks := blocks[a := Spliced(blocks[a], off, blocks[d.vp][..d.sz])];
      } else {
        assert Spliced(blocks[a], off, []) == blocks[a];
      }
    }

    /** One round of the merging loop: copy the bytes of nb behind the sz gathered ones, release nb. */
    method CollectNext(nb: Ptr, a: Ptr, sz: nat, ghost g: Gather, ghost g': Gather, ghost total: nat,
                       ghost first: seq<Byte>, ghost block: seq<Byte>, ghost content: seq<Byte>)
      returns (sz': nat)
      requires bufs == g.h.bufs && blocks == g.h.blocks[a := block] && Descending()
      requires MergeStep(g, g', a, total, first, block, content) && nb == g.rest[0] && sz == |g.bytes|
      modifies this
      ensures bufs == g'.h.bufs && blocks == g'.h.blocks[a := content] && sz' == sz + |first|
    {
      hide FreeBuf, ApBytes, Spliced;
      CopyApplication(nb, a, sz);
      sz' := sz + bufs[nb].parts[APPLICATION].sz;
      assert blocks == g.h.blocks[a := content];
      NutNetBufFree(nb);
    }

    /** The head gets the merged block a and what is left of the queue. */
    method InstallHead(nbq: Ptr, nb: Ptr, a: Ptr, sz: nat, total: nat, fill: Byte, ghost g: Gather)
      requires bufs == g.h.bufs && a !in g.h.blocks && a != NULL && NULL !in g.h.blocks && |g.bytes| <= total
      requires blocks == g.h.blocks[a := Filled(g, total, fill)] && sz == |g.bytes|
      requires BufOk(g.h, nbq)
      modifies this
      ensures var h1 := Relinked(g.h, nbq, nb);
              Contents() == Replaced(h1, HeadEdit(h1, nbq, a, g.bytes, total, fill))
    {
      PartsOf(g.h, nbq, APPLICATION);
      hide BufOk, FreshBlock;
      var buf := bufs[nbq].(next := nb);
      var own := buf.flags.own;
      if APPLICATION in own {
        HeapFree(buf.parts[APPLICATION].vp);
      } else {
        own := own + {APPLICATION};
      }
      bufs := bufs[nbq := WithPart(buf, APPLICATION, NbData(a, sz), own)];
      assert own == buf.flags.own + {APPLICATION};
      ghost var h1 := Relinked(g.h, nbq, nb);
      assert blocks == Replaced(h1, HeadEdit(h1, nbq, a, g.bytes, total, fill)).blocks;
    }

    /** The while loop of NutNetBufCollect, from the buffer behind the head. */
    method MergeQueue(first: Ptr, a: Ptr, used: nat, total: nat, fill: Byte, ghost g0: Gather,
                      ghost tokens: multiset<Ptr>)
      returns (nb: Ptr, sz: nat, rc: nat, ghost g: Gather)
      requires Merging(g0, tokens, a, total, fill) && used == |g0.bytes| && g0.released == 0
      requires Linked(g0.h, first, g0.rest)
      modifies this
      ensures CollectLoop(g0, total) == Ok(g) && nb == First(g.rest) && sz == |g.bytes| <= total && rc == g.released
      ensures bufs == g.h.bufs && blocks == g.h.blocks[a := Filled(g, total, fill)]
    {
      hide Inv, CollectLoop, BufOk, AllHeld, Fewer, MergeStep, Filled;
      nb, sz, rc, g := first, used, 0, g0;
      ghost var t := tokens;
      QueueReady(g.h, t, nb, g.rest);
      while nb != NULL && total >= sz + bufs[nb].parts[APPLICATION].sz
        invariant Merging(g, t, a, total, fill) && sz == |g.bytes| && rc == g.released
        invariant QueueAt(g.h, nb, g.rest)
        invariant CollectLoop(g, total) == CollectLoop(g0, total)
        decreases |g.rest|
      {
        ghost var g', taken := NextGather(g, t, a, total, fill);
        ChainsDescend(g.h, t);
        NextReady(g, g', t);
        var nbx := bufs[nb].next;
        sz := CollectNext(nb, a, sz, g, g', total, taken, Filled(g, total, fill), Filled(g', total, fill));
        t, g := t - multiset{nb}, g';
        nb := nbx;
        rc := rc + 1;
      }
      LoopUnfolds(g.h, g.rest, g.bytes, g.released, total);
    }

    /** rest is the queue behind nbq that nb_next links. */
    method NutNetBufCollect(nbq: Ptr, total: nat, a: Ptr, fill: Byte, ghost rest: seq<Ptr>, ghost tokens: multiset<Ptr>)
      returns (rc: nat)
      requires Collectable(Contents(), tokens, nbq, rest, total, a) && Linked(Contents(), nbq, [nbq] + rest)
      modifies this
      ensures Ok((Contents(), rc)) == Collect(old(Contents()), nbq, rest, total, a, fill)
    {
      hide Collectable, Inv, CollectLoop, Collect, ApBytes, BufOk, AllHeld, Spliced, Filled, FreshBlock;
      hide Linked, Replaced, Relinked, HeadEdit;
      ghost var h := Contents();
      rc := 0;
      if a == NULL {
        CollectNothing(h, nbq, rest, total, fill);
      } else {
        ghost var bytes, g0 := HeadReady(h, tokens, nbq, rest, total, a, fill);
        var sz := bufs[nbq].parts[APPLICATION].sz;
        blocks := blocks[a := FreshBlock(total, fill)];
        CopyApplication(nbq, a, 0);
        assert blocks == h.blocks[a := Filled(g0, total, fill)];
        var nb;
        ghost var g;
        nb, sz, rc, g := MergeQueue(bufs[nbq].next, a, sz, total, fill, g0, tokens);
        HeadStays(h, tokens, nbq, rest, total, a, fill, bytes, g);
        InstallHead(nbq, nb, a, sz, total, fill, g);
      }
    }
  }

  lemma CollectNothing(h: Heap, nbq: Ptr, rest: seq<Ptr>, total: nat, fill: Byte)
    ensures Collect(h, nbq, rest, total, NULL, fill) == Ok((h, 0))
  {
  }

  /** What holds once the head's bytes have been copied to the start of block a. */
  lemma HeadReady(h: Heap, tokens: multiset<Ptr>, nbq: Ptr, rest: seq<Ptr>, total: nat, a: Ptr, fill: Byte)
    returns (bytes: seq<Byte>, g0: Gather)
    requires Collectable(h, tokens, nbq, rest, total, a) && Linked(h, nbq, [nbq] + rest)
    ensures g0 == Gather(h, rest, bytes, 0) && ApBytes(h, nbq) == Ok(bytes) && |bytes| == ApSize(h, nbq) <= total
    ensures nbq in h.bufs && |h.bufs[nbq].parts| == 4 && Linked(h, h.bufs[nbq].next, rest)
    ensures Inv(h, tokens) && AllHeld(rest, tokens) && a !in h.blocks
    ensures var h1 := Heap(h.bufs, h.blocks[a := FreshBlock(total, fill)]);
            ApBytes(h1, nbq) == Ok(bytes) && |FreshBlock(total, fill)| == total &&
            Spliced(FreshBlock(total, fill), 0, bytes) == Filled(g0, total, fill)
  {
    hide Collectable, Inv, BufOk, ApBytes, ApSize, SoleUser, FreshBlock, Spliced, PartOk;
    HeadLive(h, tokens, nbq, rest, total, a);
    assert ([nbq] + rest)[1..] == rest;
    ApBytesOfOk(h, nbq);
    PartsOf(h, nbq, APPLICATION);
    bytes := ApBytes(h, nbq).value;
    g0 := Gather(h, rest, bytes, 0);
    SameAp(h, Heap(h.bufs, h.blocks[a := FreshBlock(total, fill)]), a, nbq);
    FillStarts(bytes, total, fill);
  }

  lemma FillStarts(bytes: seq<Byte>, total: nat, fill: Byte)
    requires |bytes| <= total
    ensures |FreshBlock(total, fill)| == total
    ensures Spliced(FreshBlock(total, fill), 0, bytes) == bytes + FreshBlock(total - |bytes|, fill)
  {
  }

  /** After the loop the head is still there, and installing the merged block finishes the job. */
  lemma HeadStays(h: Heap, tokens: multiset<Ptr>, nbq: Ptr, rest: seq<Ptr>, total: nat, a: Ptr, fill: Byte,
                  bytes: seq<Byte>, g: Gather)
    requires Collectable(h, tokens, nbq, rest, total, a) && a != NULL && ApBytes(h, nbq) == Ok(bytes) &&
             |bytes| <= total
    requires CollectLoop(Gather(h, rest, bytes, 0), total) == Ok(g) && |g.bytes| <= total
    ensures BufOk(g.h, nbq) && a !in g.h.blocks && NULL !in g.h.blocks
    ensures var h1 := Relinked(g.h, nbq, First(g.rest));
            Collect(h, nbq, rest, total, a, fill) ==
            Ok((Replaced(h1, HeadEdit(h1, nbq, a, g.bytes, total, fill)), g.released))
  {
    hide Collectable, Inv, CollectLoop, Collect, ApBytes, BufOk, Replaced, Relinked, LongestFit, SoleUser, Fewer,
         Gathered;
    var bytes', g', k := CollectGathers(h, tokens, nbq, rest, total, a);
    GatheredKeeps(h, tokens, rest, bytes', g', k);
    var t := tokens - multiset(rest[..k]);
    InvOk(g.h, t);
    CollectUnfolds(h, t, nbq, rest, total, a, fill, bytes, g);
  }

  /** nb is the first of the linked buffers q, which are alive. */
  ghost predicate QueueAt(h: Heap, nb: Ptr, q: seq<Ptr>) {
    && nb == First(q) && (nb == NULL <==> q == []) && Linked(h, nb, q)
    && (nb != NULL ==> nb in h.bufs && |h.bufs[nb].parts| == 4)
  }

  lemma QueueReady(h: Heap, tokens: multiset<Ptr>, nb: Ptr, q: seq<Ptr>)
    requires Inv(h, tokens) && AllHeld(q, tokens) && Linked(h, nb, q)
    ensures QueueAt(h, nb, q)
  {
    if q != [] {
      NextHeld(h, q, tokens);
      PartsOf(h, q[0], APPLICATION);
    }
  }

  lemma NextReady(g: Gather, g': Gather, tokens: multiset<Ptr>)
    requires g.rest != [] && QueueAt(g.h, g.rest[0], g.rest)
    requires Fewer(g.h, g'.h) && g'.rest == g.rest[1..]
    requires Inv(g'.h, tokens - multiset{g.rest[0]}) && AllHeld(g'.rest, tokens - multiset{g.rest[0]})
    ensures QueueAt(g'.h, g.h.bufs[g.rest[0]].next, g'.rest)
  {
    hide Fewer, Inv, BufOk;
    var next := g.h.bufs[g.rest[0]].next;
    HeldAreAlive(g'.h, tokens - multiset{g.rest[0]}, g'.rest);
    forall b | b in g'.rest ensures b in g'.h.bufs && b in g.h.bufs && g'.h.bufs[b].next == g.h.bufs[b].next {
      FewerUntouched(g.h, g'.h, b);
    }
    LinkedSame(g.h, g'.h, next, g'.rest);
    QueueReady(g'.h, tokens - multiset{g.rest[0]}, next, g'.rest);
  }

  lemma FewerUntouched(h: Heap, h': Heap, b: Ptr)
    requires Fewer(h, h') && b in h'.bufs
    ensures b in h.bufs && h'.bufs[b].next == h.bufs[b].next
  {
    assert Untouched(h, h', b);
  }

  /** block with the bytes at off.. overwritten. */
  function Spliced(block: seq<Byte>, off: nat, bytes: seq<Byte>): seq<Byte>
    requires off + |bytes| <= |block|
  {
    block[..off] + bytes + block[off + |bytes|..]
  }

  /** One round of the merging loop, with block a standing beside the heap the loop describes. */
  ghost predicate MergeStep(g: Gather, g': Gather, a: Ptr, total: nat, first: seq<Byte>, block: seq<Byte>,
                            content: seq<Byte>) {
    && g.rest != []
    && var nb := g.rest[0];
    && nb in g.h.bufs && |g.h.bufs[nb].parts| == 4 && |first| == g.h.bufs[nb].parts[APPLICATION].sz
    && ApBytes(Heap(g.h.bufs, g.h.blocks[a := block]), nb) == Ok(first)
    && |block| == total && |g.bytes| + |first| <= total
    && content == Spliced(block, |g.bytes|, first)
    && FreeBuf(Heap(g.h.bufs, g.h.blocks[a := content]), nb) == Ok(Heap(g'.h.bufs, g'.h.blocks[a := content]))
  }

  lemma MergeMemory(g: Gather, h1: Heap, a: Ptr, total: nat, fill: Byte, first: seq<Byte>)
    requires a !in g.h.blocks && g.rest != [] && BufOk(g.h, g.rest[0])
    requires ApBytes(g.h, g.rest[0]) == Ok(first) && FreeBuf(g.h, g.rest[0]) == Ok(h1)
    requires |g.bytes| + |first| <= total
    ensures a !in h1.blocks
    ensures var g' := Gather(h1, g.rest[1..], g.bytes + first, g.released + 1);
            MergeStep(g, g', a, total, first, Filled(g, total, fill), Filled(g', total, fill))
  {
    hide FreeBuf, BufOk, PartOk, ApBytes, FreshBlock, Spliced;
    var nb := g.rest[0];
    SameAp(g.h, Heap(g.h.bufs, g.h.blocks[a := Filled(g, total, fill)]), a, nb);
    ApBytesOfOk(g.h, nb);
    PartsOf(g.h, nb, APPLICATION);
    FillGrows(g.bytes, first, total, fill);
    ReleaseBeside(g.h, h1, nb, a, (g.bytes + first) + FreshBlock(total - |g.bytes + first|, fill));
  }

  lemma ReleaseBeside(h: Heap, h1: Heap, nb: Ptr, a: Ptr, content: seq<Byte>)
    requires a !in h.blocks && FreeBuf(h, nb) == Ok(h1)
    ensures a !in h1.blocks && FreeBuf(Heap(h.bufs, h.blocks[a := content]), nb) ==
            Ok(Heap(h1.bufs, h1.blocks[a := content]))
  {
    hide FreeBuf;
    BesideBlock(h, a, content);
    BesideBlock(h1, a, content);
    FreeFrame(h, nb, map[], map[a := content]);
  }

  /** Block a: the gathered bytes, then what the fresh block contained. */
  function Filled(g: Gather, total: nat, fill: Byte): seq<Byte>
    requires |g.bytes| <= total
  {
    g.bytes + FreshBlock(total - |g.bytes|, fill)
  }

  ghost predicate AllHeld(q: seq<Ptr>, tokens: multiset<Ptr>) {
    multiset(q) <= tokens
  }

  lemma NextHeld(h: Heap, q: seq<Ptr>, tokens: multiset<Ptr>)
    requires AllHeld(q, tokens) && q != [] && Inv(h, tokens)
    ensures q[0] in tokens && AllHeld(q[1..], tokens - multiset{q[0]}) && BufOk(h, q[0])
  {
    SplitFirst(q, 0);
    InvTokens(h, tokens);
    hide Inv, BufOk;
    assert q[0] in multiset(q);
  }

  lemma NextGather(g: Gather, tokens: multiset<Ptr>, a: Ptr, total: nat, fill: Byte)
    returns (g': Gather, first: seq<Byte>)
    requires a !in g.h.blocks && Inv(g.h, tokens) && AllHeld(g.rest, tokens)
    requires g.rest != [] && |g.bytes| + ApSize(g.h, g.rest[0]) <= total
    ensures g' == Gather(g'.h, g.rest[1..], g.bytes + first, g.released + 1) && |first| == ApSize(g.h, g.rest[0])
    ensures Inv(g'.h, tokens - multiset{g.rest[0]}) && Fewer(g.h, g'.h) &&
            AllHeld(g'.rest, tokens - multiset{g.rest[0]})
    ensures CollectLoop(g', total) == CollectLoop(g, total)
    ensures a !in g'.h.blocks && MergeStep(g, g', a, total, first, Filled(g, total, fill), Filled(g', total, fill))
  {
    hide Inv, CollectLoop, FreeBuf, Fewer, BufOk, ApBytes, FreshBlock, MergeStep, Filled, ApSize;
    var h1;
    h1, first := LoopStep(g.h, tokens, g.rest);
    LoopUnfolds(g.h, g.rest, g.bytes, g.released, total);
    hide AllHeld;
    NextHeld(g.h, g.rest, tokens);
    MergeMemory(g, h1, a, total, fill, first);
    g' := Gather(h1, g.rest[1..], g.bytes + first, g.released + 1);
  }

  lemma FillGrows(bytes: seq<Byte>, first: seq<Byte>, total: nat, fill: Byte)
    requires |bytes| + |first| <= total
    ensures var block := bytes + FreshBlock(total - |bytes|, fill);
            |block| == total &&
            Spliced(block, |bytes|, first) == (bytes + first) + FreshBlock(total - |bytes + first|, fill)
  {
  }

  lemma TwoUpdates(m: map<Ptr, Buf>, x: Ptr, bx: Buf, y: Ptr, old1: Buf, new1: Buf)
    requires x != y
    ensures m[y := old1][y := new1][x := bx] == m[x := bx][y := new1]
  {
  }

  lemma BesideBlock(h: Heap, a: Ptr, content: seq<Byte>)
    ensures Beside(h, map[], map[a := content]) == Heap(h.bufs, h.blocks[a := content])
  {
    assert h.bufs + map[] == h.bufs;
    assert h.blocks + map[a := content] == h.blocks[a := content];
  }

  lemma FreeStarts(h: Heap, b: Ptr)
    requires FreeBuf(h, b).Ok?
    ensures b in h.bufs && |h.bufs[b].parts| == 4
    ensures if h.bufs[b].flags.refcnt > 0 then FreeBuf(h, b) == Ok(Decremented(h, b))
            else FreeParts(h, h.bufs[b], 0).Ok?
  {
    hide FreeParts;
  }

  lemma AllPartsFree(h: Heap, buf: Buf)
    requires |buf.parts| == 4
    ensures FreeParts(h, buf, 4) == Ok(h)
  {
  }

  lemma CloneStarts(h: Heap, nb: Ptr, inserts: set<Part>, a: Ptr, answers: seq<Ptr>)
    requires |answers| == 4 && ClonePart(h, nb, inserts, a, answers).Ok?
    ensures nb in h.bufs && |h.bufs[nb].parts| == 4
    ensures if a == NULL then ClonePart(h, nb, inserts, a, answers) == Ok((h, NULL))
            else
              var start := Cloning(h, EmptyBuf(), false, false);
              CopyParts(start, h.bufs[nb], 0, Inserts(h.bufs[nb], inserts), answers).Ok?
  {
    hide CopyParts, FreeBuf;
  }

  /** How NutNetBufClonePart ends once the four parts have been visited. */
  lemma CloneEnds(h: Heap, nb: Ptr, inserts: set<Part>, a: Ptr, answers: seq<Ptr>, acc: Cloning)
    requires |answers| == 4 && nb in h.bufs && |h.bufs[nb].parts| == 4 && a != NULL
    requires CopyParts(Cloning(h, EmptyBuf(), false, false), h.bufs[nb], 0, Inserts(h.bufs[nb], inserts), answers) ==
             Ok(acc)
    ensures ClonePart(h, nb, inserts, a, answers) ==
            var g := acc.h.(bufs := acc.h.bufs[a := acc.cb]);
            if acc.failed then (if FreeBuf(g, a).Ok? then Ok((FreeBuf(g, a).value, NULL)) else Fault)
            else if acc.referenced then
              var cb := acc.cb.(ref := nb, depth := h.bufs[nb].depth + 1);
              Ok((acc.h.(bufs := acc.h.bufs[nb := OneMore(h.bufs[nb])][a := cb]), a))
            else Ok((g, a))
  {
    hide CopyParts, FreeBuf;
  }

  lemma ChainsDescend(h: Heap, tokens: multiset<Ptr>)
    requires Inv(h, tokens)
    ensures NULL !in h.bufs
    ensures forall b :: b in h.bufs && h.bufs[b].ref != NULL ==>
              h.bufs[b].ref in h.bufs && h.bufs[h.bufs[b].ref].depth < h.bufs[b].depth
  {
    InvOk(h, tokens);
    hide Inv, PartOk;
  }

  /** Another block in memory does not change what a buffer shows. */
  lemma SameAp(h: Heap, h': Heap, a: Ptr, nb: Ptr)
    requires h'.bufs == h.bufs && a !in h.blocks && h.blocks.Keys <= h'.blocks.Keys
    requires forall v :: v in h.blocks ==> h'.blocks[v] == h.blocks[v]
    ensures ApBytes(h, nb).Ok? ==> ApBytes(h', nb) == ApBytes(h, nb)
  {
  }

  /** Releasing the origin before the structure itself, as the code does, comes to the same. */
  lemma OriginFirst(h: Heap, nb: Ptr, h1: Heap)
    requires nb in h.bufs && |h.bufs[nb].parts| == 4 && h.bufs[nb].flags.refcnt == 0 && h.bufs[nb].ref != NULL
    requires FreeParts(h, h.bufs[nb], 0) == Ok(h1) && h1.bufs == h.bufs && FreeBuf(h, nb).Ok?
    ensures FreeBuf(h1, h.bufs[nb].ref).Ok? && h.bufs[nb].ref in h.bufs
    ensures var h3 := FreeBuf(h1, h.bufs[nb].ref).value;
            FreeBuf(h, nb) == Ok(h3.(bufs := h3.bufs - {nb}))
  {
    var buf := h.bufs[nb];
    FreeUnshared(h, nb, h1);
    var h2 := h1.(bufs := h1.bufs - {nb});
    assert buf.ref in h2.bufs;
    hide FreeParts, FreeBuf;
    FreeFrame(h2, buf.ref, map[nb := buf], map[]);
    PutBack(h1, nb);
    var done := FreeBuf(h2, buf.ref).value;
    assert (done.bufs + map[nb := buf]) - {nb} == done.bufs;
    assert done.blocks + map[] == done.blocks;
  }

  lemma PutBack(h: Heap, nb: Ptr)
    requires nb in h.bufs
    ensures Beside(h.(bufs := h.bufs - {nb}), map[nb := h.bufs[nb]], map[]) == h
  {
    assert (h.bufs - {nb}) + map[nb := h.bufs[nb]] == h.bufs;
    assert h.blocks + map[] == h.blocks;
  }
}
