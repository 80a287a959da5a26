/**
 NutNetBufAlloc as a whole: the invariant, and exactly when resizing a shared buffer is safe.
 */
module NetBufAlloc {
  import opened Machine
  import opened NetBuf
  import opened NetBufBirth
  import opened NetBufHeap
  import opened NetBufRelease
  import opened NetBufResize

  lemma AddRootKeepsInv(h: Heap, tokens: multiset<Ptr>, a: Ptr, p: Part, size: nat)
    requires Inv(h, tokens) && a != NULL && a !in h.bufs
    ensures var h0 := h.(bufs := h.bufs[a := EmptyBuf()]);
            Inv(h0, tokens + multiset{a}) && SafeResize(h0, a, p, size)
    ensures forall b :: b in h.bufs ==> SameBytes(h, b, h.(bufs := h.bufs[a := EmptyBuf()]), b)
  {
    var n := Birth(a, EmptyBuf(), map[]);
    hide Inv, SameBytes;
    InvOk(h, tokens);
    assert OwnedBlocks(n.buf) == {};
    assert AddOk(h, n);
    AddKeepsInv(h, tokens, n);
    hide AddOk;
    assert h.blocks + map[] == h.blocks;
    assert Added(h, n) == h.(bufs := h.bufs[a := EmptyBuf()]);
  }

  /** The outcome of an allocation on nb: no fault, the invariant, and no other buffer noticed. */
  ghost predicate AllocDone(h: Heap, tokens: multiset<Ptr>, nb: Ptr, r: Outcome<(Heap, Ptr)>) {
    && r.Ok?
    && Inv(r.value.0, AllocTokens(tokens, nb, r.value.1))
    && forall b :: b in h.bufs && b in r.value.0.bufs && b != nb ==> SameBytes(h, b, r.value.0, b)
  }

  lemma NothingHappened(h: Heap, tokens: multiset<Ptr>)
    requires Inv(h, tokens)
    ensures AllocDone(h, tokens, NULL, Ok((h, NULL)))
  {
    InvTokens(h, tokens);
    assert AllocTokens(tokens, NULL, NULL) == tokens;
    InvOk(h, tokens);
    hide Inv, BufOk;
    forall b, q: Part | b in h.bufs ensures PartOk(h, b, q) { PartsOf(h, b, q); }
  }

  lemma TokensOfNew(tokens: multiset<Ptr>, a: Ptr)
    requires NULL !in tokens && a != NULL
    ensures AllocTokens(tokens, NULL, NULL) == tokens + multiset{a} - multiset{a}
    ensures AllocTokens(tokens, NULL, a) == tokens + multiset{a}
  {
    assert tokens - multiset{NULL} == tokens;
  }

  lemma AllocNewDone(h: Heap, tokens: multiset<Ptr>, p: Part, size: nat, a1: Ptr, a2: Ptr, fill: Byte)
    requires Inv(h, tokens) && size > 0 && a1 !in h.bufs && a2 !in h.blocks
    ensures AllocDone(h, tokens, NULL, Alloc(h, NULL, p, size, a1, a2, fill))
  {
    if a1 == NULL {
      NothingHappened(h, tokens);
    } else {
      InvTokens(h, tokens);
      AddRootKeepsInv(h, tokens, a1, p, size);
      hide Inv, SafeResize, AllocPart, SameBytes, OwnsBlock, BufOk;
      var h0 := h.(bufs := h.bufs[a1 := EmptyBuf()]);
      AllocPartKeepsInv(h0, tokens + multiset{a1}, a1, p, size, a2, fill);
      var r := AllocPart(h0, a1, p, size, a2, fill).value;
      TokensOfNew(tokens, a1);
      RootSame(h, h0, r.0);
    }
  }

  lemma RootSame(h: Heap, h0: Heap, h1: Heap)
    requires forall b :: b in h.bufs ==> SameBytes(h, b, h0, b)
    ensures forall b :: b in h.bufs && SameBytes(h0, b, h1, b) ==> SameBytes(h, b, h1, b)
  {
    forall b, q: Part | b in h.bufs && SameBytes(h0, b, h1, b)
      ensures PartOk(h, b, q) && PartOk(h1, b, q) && PartBytes(h1, b, q) == PartBytes(h, b, q)
    {
      hide PartOk;
      assert SameBytes(h, b, h0, b);
      assert PartOk(h0, b, q) && PartBytes(h1, b, q) == PartBytes(h0, b, q);
    }
  }

  /** Allocating or resizing keeps every count, every owner and every borrower in order. */
  lemma AllocKeepsInv(h: Heap, tokens: multiset<Ptr>, nb: Ptr, p: Part, size: nat, a1: Ptr, a2: Ptr, fill: Byte)
    requires Inv(h, tokens) && size > 0 && (nb == NULL || nb in tokens) && SafeResize(h, nb, p, size)
    requires a1 !in h.bufs && (a2 in h.blocks ==> nb != NULL && OwnsBlock(h, nb, p, a2))
    ensures AllocDone(h, tokens, nb, Alloc(h, nb, p, size, a1, a2, fill))
  {
    if nb == NULL {
      hide AllocDone, Inv;
      AllocNewDone(h, tokens, p, size, a1, a2, fill);
    } else {
      hide Inv, AllocPart, SafeResize, OwnsBlock, SameBytes;
      AllocPartKeepsInv(h, tokens, nb, p, size, a2, fill);
      assert tokens - multiset{nb} + multiset{nb} == tokens;
      assert tokens - multiset{nb} + multiset{} == tokens - multiset{nb};
    }
  }

  /** A successful allocation yields a part of the requested size, marked as owned. */
  lemma AllocGivesSize(h: Heap, n: Ptr, p: Part, size: nat, a: Ptr, fill: Byte)
    requires BufOk(h, n) && size > 0 && NULL !in h.blocks
    requires AllocPart(h, n, p, size, a, fill).Ok? && AllocPart(h, n, p, size, a, fill).value.1 != NULL
    ensures var r := AllocPart(h, n, p, size, a, fill).value;
            r.1 == n && PartOk(r.0, n, p) && |PartBytes(r.0, n, p)| == size && p in r.0.bufs[n].flags.own
  {
    PartsOf(h, n, p);
    AllocPartShape(h, n, p, size, a, fill);
    hide AllocPart, BufOk, FreeBuf;
  }

  // ---------------------------------------------------------------- resizing shared buffers

  /** A borrower of the block that growing part p of nb releases. */
  lemma FindBorrower(h: Heap, tokens: multiset<Ptr>, nb: Ptr, p: Part, size: nat) returns (c: Ptr)
    requires Inv(h, tokens) && nb in tokens && !SafeResize(h, nb, p, size)
    ensures nb != NULL && nb in h.bufs && |h.bufs[nb].parts| == 4 && BufOk(h, nb) && NULL !in h.blocks
    ensures p in h.bufs[nb].flags.own && h.bufs[nb].parts[p].sz < size && h.bufs[nb].flags.refcnt > 0
    ensures c != nb && PartOk(h, c, p) && Borrows(h, c, p, h.bufs[nb].parts[p].vp)
  {
    var v := h.bufs[nb].parts[p].vp;
    c :| c != nb && Borrows(h, c, p, v);
    InvOk(h, tokens);
    InvTokens(h, tokens);
    PartsOf(h, c, p);
    PartsOf(h, nb, p);
    var o := ShownHasOwner(h, c, p);
    OneOwner(h, o, p, nb, p, v);
    if h.bufs[nb].flags.refcnt == 0 { UnsharedHasNoClones(h, tokens, nb); }
  }

  /** After the resize the borrower shows a block that is gone, or one that now belongs to the resized part. */
  lemma BorrowerAfterwards(h: Heap, nb: Ptr, p: Part, size: nat, a: Ptr, fill: Byte, c: Ptr)
    requires nb != NULL && nb in h.bufs && BufOk(h, nb) && NULL !in h.blocks && size > 0
    requires p in h.bufs[nb].flags.own && h.bufs[nb].parts[p].sz < size && h.bufs[nb].flags.refcnt > 0
    requires c != nb && PartOk(h, c, p) && Borrows(h, c, p, h.bufs[nb].parts[p].vp)
    requires a in h.blocks ==> OwnsBlock(h, nb, p, a)
    ensures var r := Alloc(h, nb, p, size, NULL, a, fill);
            r.Ok? && c in r.value.0.bufs && r.value.0.bufs[c] == h.bufs[c] &&
            (a in h.blocks ==> a == h.bufs[c].parts[p].vp && a in r.value.0.blocks &&
                               r.value.0.blocks[a] == FreshBlock(size, fill)) &&
            (a !in h.blocks ==> h.bufs[c].parts[p].vp !in r.value.0.blocks)
  {
    AllocPartShape(h, nb, p, size, a, fill);
    hide BufOk, FreshBlock, Rooted;
    var h2 := Replaced(h, AllocEdit(h, nb, p, size, a, fill));
    if a == NULL { FreeShared(h2, nb); }
  }

  /**
   The buffer that an unsafe resize harms: its part dangles, or, if the allocator has given the very block back that
   was just released, shows the new contents of that block.
   */
  lemma UnsafeResizeHarms(h: Heap, tokens: multiset<Ptr>, nb: Ptr, p: Part, size: nat, a: Ptr) returns (c: Ptr)
    requires Inv(h, tokens) && size > 0 && nb in tokens && !SafeResize(h, nb, p, size)
    requires a in h.blocks ==> OwnsBlock(h, nb, p, a)
    ensures c in h.bufs && c != nb && PartOk(h, c, p) && PartBytes(h, c, p) != []
    ensures forall fill: Byte :: var r := Alloc(h, nb, p, size, NULL, a, fill);
              r.Ok? && c in r.value.0.bufs && (a !in h.blocks ==> !PartOk(r.value.0, c, p)) &&
              (PartBytes(h, c, p)[0] != fill ==> !SameBytes(h, c, r.value.0, c))
  {
    c := FindBorrower(h, tokens, nb, p, size);
    forall fill: Byte
      ensures var r := Alloc(h, nb, p, size, NULL, a, fill);
              r.Ok? && c in r.value.0.bufs && (a !in h.blocks ==> !PartOk(r.value.0, c, p)) &&
              (PartBytes(h, c, p)[0] != fill ==> !SameBytes(h, c, r.value.0, c))
    {
      hide Inv, SafeResize, Alloc, BufOk, OwnsBlock, Rooted;
      BorrowerAfterwards(h, nb, p, size, a, fill, c);
      BorrowerHarmed(h, Alloc(h, nb, p, size, NULL, a, fill).value.0, c, p, a, size, fill);
    }
  }

  lemma BorrowerHarmed(h: Heap, h1: Heap, c: Ptr, p: Part, a: Ptr, size: nat, fill: Byte)
    requires c in h.bufs && c in h1.bufs && h1.bufs[c] == h.bufs[c] && PartOk(h, c, p)
    requires p !in h.bufs[c].flags.own && h.bufs[c].parts[p].sz > 0
    requires a in h.blocks ==> a == h.bufs[c].parts[p].vp && a in h1.blocks && h1.blocks[a] == FreshBlock(size, fill)
    requires a !in h.blocks ==> h.bufs[c].parts[p].vp !in h1.blocks
    ensures a !in h.blocks ==> !PartOk(h1, c, p)
    ensures PartBytes(h, c, p) != [] && (PartBytes(h, c, p)[0] != fill ==> !SameBytes(h, c, h1, c))
  {
    hide Rooted;
    if PartOk(h1, c, p) {
      assert PartBytes(h1, c, p)[0] == fill;
    }
  }

  /**
   The exact condition, whatever the allocator answers: the resize keeps the heap in order, and every other buffer
   its bytes, however the new block is filled, if and only if nobody else lives on the block it outgrows.
   */
  lemma AllocKeepsInvIff(h: Heap, tokens: multiset<Ptr>, nb: Ptr, p: Part, size: nat, a: Ptr)
    requires Inv(h, tokens) && size > 0 && nb in tokens
    requires a in h.blocks ==> OwnsBlock(h, nb, p, a)
    ensures SafeResize(h, nb, p, size) <==>
            forall fill: Byte :: AllocDone(h, tokens, nb, Alloc(h, nb, p, size, NULL, a, fill))
  {
    if SafeResize(h, nb, p, size) {
      forall fill: Byte ensures AllocDone(h, tokens, nb, Alloc(h, nb, p, size, NULL, a, fill)) {
        InvOk(h, tokens);
        hide Inv, AllocDone, Alloc, SafeResize, OwnsBlock;
        AllocKeepsInv(h, tokens, nb, p, size, NULL, a, fill);
      }
    } else {
      var c := UnsafeResizeHarms(h, tokens, nb, p, size, a);
      var fill: Byte := if PartBytes(h, c, p)[0] == 0 then 1 else 0;
      var r := Alloc(h, nb, p, size, NULL, a, fill);
      hide Inv, Alloc, SafeResize, OwnsBlock, PartOk;
      assert !SameBytes(h, c, r.value.0, c);
      assert !AllocDone(h, tokens, nb, r);
    }
  }

  /** Resizing an unshared buffer is always safe. */
  lemma UnsharedResizeIsSafe(h: Heap, tokens: multiset<Ptr>, nb: Ptr, p: Part, size: nat)
    requires Inv(h, tokens) && nb in tokens && h.bufs[nb].flags.refcnt == 0
    ensures SoleUser(h, nb, p) && SafeResize(h, nb, p, size)
  {
    UnsharedHasNoClones(h, tokens, nb);
    InvOk(h, tokens);
    InvTokens(h, tokens);
    PartsOf(h, nb, p);
    var v := h.bufs[nb].parts[p].vp;
    forall c | c != nb && p in h.bufs[nb].flags.own ensures !Borrows(h, c, p, v) {
      hide BufOk;
      if Borrows(h, c, p, v) {
        PartsOf(h, c, p);
        var o := ShownHasOwner(h, c, p);
        OneOwner(h, o, p, nb, p, v);
      }
    }
  }
}
