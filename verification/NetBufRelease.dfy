/**
 NutNetBufFree keeps the heap invariant and everything the surviving buffers show.
 */
module NetBufRelease {
  import opened Machine
  import opened NetBuf
  import opened NetBufHeap

  /** The payload blocks buf owns. */
  function OwnedBlocks(buf: Buf): set<Ptr>
    requires |buf.parts| == 4
  {
    set p: Part | p in buf.flags.own && buf.parts[p].vp != NULL :: buf.parts[p].vp
  }

  lemma {:induction false} FreePartsEffect(h: Heap, buf: Buf, p: nat)
    requires p <= 4 && |buf.parts| == 4
    requires forall i: Part :: p <= i && i in buf.flags.own && buf.parts[i].vp != NULL ==> buf.parts[i].vp in h.blocks
    requires forall i: Part, j: Part ::
               p <= i < j && i in buf.flags.own && j in buf.flags.own && buf.parts[i].vp != NULL ==>
      buf.parts[i].vp != buf.parts[j].vp
    ensures FreeParts(h, buf, p) ==
      Ok(h.(blocks := h.blocks -
                      set i: Part | p <= i && i in buf.flags.own && buf.parts[i].vp != NULL :: buf.parts[i].vp))
    decreases 4 - p
  {
    var rest := set i: Part | p <= i && i in buf.flags.own && buf.parts[i].vp != NULL :: buf.parts[i].vp;
    if p == 4 {
      assert h.blocks - rest == h.blocks;
    } else {
      var tail := set i: Part | p + 1 <= i && i in buf.flags.own && buf.parts[i].vp != NULL :: buf.parts[i].vp;
      var v := buf.parts[p].vp;
      if p in buf.flags.own && v != NULL {
        assert rest == {v} + tail;
        assert h.blocks - rest == h.blocks - {v} - tail;
        FreePartsEffect(h.(blocks := h.blocks - {v}), buf, p + 1);
      } else {
        assert rest == tail;
        FreePartsEffect(h, buf, p + 1);
      }
    }
  }

  lemma FreeAllParts(h: Heap, buf: Buf)
    requires |buf.parts| == 4
    requires forall i: Part :: i in buf.flags.own && buf.parts[i].vp != NULL ==> buf.parts[i].vp in h.blocks
    requires forall i: Part, j: Part :: i < j && i in buf.flags.own && j in buf.flags.own && buf.parts[i].vp != NULL ==>
      buf.parts[i].vp != buf.parts[j].vp
    ensures FreeParts(h, buf, 0) == Ok(h.(blocks := h.blocks - OwnedBlocks(buf)))
  {
    FreePartsEffect(h, buf, 0);
    assert OwnedBlocks(buf) == set i: Part | 0 <= i && i in buf.flags.own && buf.parts[i].vp != NULL :: buf.parts[i].vp;
  }

  // ---------------------------------------------------------------- giving back one reference

  function Decremented(h: Heap, b: Ptr): Heap
    requires b in h.bufs && h.bufs[b].flags.refcnt > 0
  {
    var buf := h.bufs[b];
    h.(bufs := h.bufs[b := buf.(flags := buf.flags.(refcnt := buf.flags.refcnt - 1))])
  }

  lemma DecrementPreserves(h: Heap, b: Ptr)
    requires AllOk(h) && b in h.bufs && h.bufs[b].flags.refcnt > 0
    ensures Preserves(h, Decremented(h, b))
  {
    var h' := Decremented(h, b);
    forall c | c in h.bufs ensures SameShape(h.bufs[c], h'.bufs[c]) { assert BufOk(h, c); }
  }

  lemma DecrementKeepsInv(h: Heap, tokens: multiset<Ptr>, b: Ptr)
    requires Inv(h, tokens) && b in tokens && h.bufs[b].flags.refcnt > 0
    ensures Inv(Decremented(h, b), tokens - multiset{b})
  {
    hide Counted, Preserves, AllOk, UniqueOwners, NoOrphans, BufOk;
    InvTokens(h, tokens);
    var h' := Decremented(h, b);
    DecrementCounted(h, tokens, b);
    DecrementPreserves(h, b);
    RetouchKeepsInv(h, tokens, h', tokens - multiset{b});
  }

  lemma DecrementCounted(h: Heap, tokens: multiset<Ptr>, b: Ptr)
    requires Counted(h, tokens) && b in tokens && h.bufs[b].flags.refcnt > 0
    ensures Counted(Decremented(h, b), tokens - multiset{b})
  {
    hide Clones;
    var h' := Decremented(h, b);
    forall c | c in h'.bufs ensures h'.bufs[c].flags.refcnt + 1 == (tokens - multiset{b})[c] + |Clones(h', c)| {
      SameLinksSameClones(h, h', c);
    }
  }

  // ---------------------------------------------------------------- removing an unshared buffer

  /** The heap after an unshared buffer has lost its blocks and its structure. */
  function Removed(h: Heap, b: Ptr): Heap
    requires b in h.bufs && |h.bufs[b].parts| == 4
  {
    Heap(h.bufs - {b}, h.blocks - OwnedBlocks(h.bufs[b]))
  }

  /** What is left to release after b itself: the reference it held on its origin. */
  function PassedOn(tokens: multiset<Ptr>, b: Ptr, ref: Ptr): multiset<Ptr> {
    if ref == NULL then tokens - multiset{b} else tokens - multiset{b} + multiset{ref}
  }

  /** Clone chains of the other buffers do not notice that an unreferenced buffer disappears. */
  lemma {:induction false} RootedWithout(h: Heap, h': Heap, x: Ptr, b: Ptr, p: Part, v: Ptr)
    requires h'.bufs == h.bufs - {x}
    requires forall c :: c in h.bufs ==> h.bufs[c].ref != x
    requires b != x && Rooted(h, b, p, v)
    ensures Rooted(h', b, p, v)
    decreases h.bufs[b].depth
  {
    if !OwnsBlock(h, b, p, v) {
      RootedWithout(h, h', x, h.bufs[b].ref, p, v);
    }
  }

  /** The blocks that disappear are shown by nobody else. */
  lemma RemovedBlocksUnseen(h: Heap, b: Ptr, c: Ptr, p: Part)
    requires UniqueOwners(h) && NULL !in h.blocks && b in h.bufs && |h.bufs[b].parts| == 4
    requires forall x :: x in h.bufs ==> h.bufs[x].ref != b
    requires c != b && PartOk(h, c, p) && h.bufs[c].parts[p].sz > 0
    ensures h.bufs[c].parts[p].vp !in OwnedBlocks(h.bufs[b])
  {
    var v := h.bufs[c].parts[p].vp;
    var o := ShownHasOwner(h, c, p);
    forall q: Part | q in h.bufs[b].flags.own && h.bufs[b].parts[q].vp != NULL ensures h.bufs[b].parts[q].vp != v {
      if h.bufs[b].parts[q].vp == v {
        assert OwnsBlock(h, b, q, v);
        OneOwner(h, o, p, b, q, v);
      }
    }
  }

  lemma RemoveKeepsPart(h: Heap, b: Ptr, c: Ptr, p: Part)
    requires UniqueOwners(h) && NULL !in h.blocks && b in h.bufs && |h.bufs[b].parts| == 4
    requires forall x :: x in h.bufs ==> h.bufs[x].ref != b
    requires c != b && PartOk(h, c, p)
    ensures PartOk(Removed(h, b), c, p)
    ensures PartBytes(Removed(h, b), c, p) == PartBytes(h, c, p)
  {
    var h' := Removed(h, b);
    var v := h.bufs[c].parts[p].vp;
    if h.bufs[c].parts[p].sz > 0 {
      RemovedBlocksUnseen(h, b, c, p);
      if p !in h.bufs[c].flags.own {
        RootedWithout(h, h', b, c, p, v);
      }
    } else if p in h.bufs[c].flags.own && v != NULL {
      assert OwnsBlock(h, c, p, v);
      forall q: Part | q in h.bufs[b].flags.own && h.bufs[b].parts[q].vp == v ensures false {
        OneOwner(h, c, p, b, q, v);
      }
    }
  }

  lemma RemoveKeepsBuf(h: Heap, b: Ptr, c: Ptr)
    requires UniqueOwners(h) && NULL !in h.blocks && b in h.bufs && |h.bufs[b].parts| == 4
    requires forall x :: x in h.bufs ==> h.bufs[x].ref != b
    requires c != b && BufOk(h, c)
    ensures BufOk(Removed(h, b), c) && SameBytes(h, c, Removed(h, b), c)
  {
    forall p: Part
      ensures PartOk(h, c, p) && PartOk(Removed(h, b), c, p)
      ensures PartBytes(Removed(h, b), c, p) == PartBytes(h, c, p)
    {
      PartsOf(h, c, p);
      RemoveKeepsPart(h, b, c, p);
    }
    hide PartOk, UniqueOwners;
  }

  lemma RemoveKeepsCounted(h: Heap, tokens: multiset<Ptr>, b: Ptr)
    requires Counted(h, tokens) && b in tokens && h.bufs[b].flags.refcnt == 0 && |h.bufs[b].parts| == 4
    requires h.bufs[b].ref != NULL ==> h.bufs[b].ref in h.bufs
    requires NULL !in h.bufs
    ensures Counted(Removed(h, b), PassedOn(tokens, b, h.bufs[b].ref))
  {
    UnsharedHasNoClones(h, tokens, b);
    var h' := Removed(h, b);
    var ref := h.bufs[b].ref;
    var t' := PassedOn(tokens, b, ref);
    forall c | c in t' ensures c in h'.bufs {
      assert c == ref || (c in tokens && c != b);
    }
    forall c | c in h'.bufs ensures h'.bufs[c].flags.refcnt + 1 == t'[c] + |Clones(h', c)| {
      RemovedClones(h, b, c);
    }
  }

  lemma RemovedClones(h: Heap, b: Ptr, c: Ptr)
    requires b in h.bufs && |h.bufs[b].parts| == 4
    ensures |Clones(Removed(h, b), c)| == if h.bufs[b].ref == c then |Clones(h, c)| - 1 else |Clones(h, c)|
  {
    assert Clones(Removed(h, b), c) == Clones(h, c) - {b};
    if h.bufs[b].ref == c { assert b in Clones(h, c); }
  }

  lemma RemoveKeepsOwners(h: Heap, b: Ptr)
    requires b in h.bufs && |h.bufs[b].parts| == 4 && NULL !in h.blocks && UniqueOwners(h) && NoOrphans(h)
    ensures UniqueOwners(Removed(h, b)) && NoOrphans(Removed(h, b))
  {
    var h' := Removed(h, b);
    forall c, p: Part, v | OwnsBlock(h', c, p, v) ensures OwnsBlock(h, c, p, v) {}
    forall v | v in h'.blocks ensures exists c, p: Part :: OwnsBlock(h', c, p, v) {
      var c, p: Part :| OwnsBlock(h, c, p, v);
      assert c != b;
      assert OwnsBlock(h', c, p, v);
    }
  }

  lemma RemoveKeepsInv(h: Heap, tokens: multiset<Ptr>, b: Ptr)
    requires Inv(h, tokens) && b in tokens && h.bufs[b].flags.refcnt == 0
    ensures |h.bufs[b].parts| == 4
    ensures Inv(Removed(h, b), PassedOn(tokens, b, h.bufs[b].ref))
    ensures forall c :: c in Removed(h, b).bufs ==> SameBytes(h, c, Removed(h, b), c)
  {
    InvOk(h, tokens);
    assert BufOk(h, b);
    UnsharedHasNoClones(h, tokens, b);
    RemoveKeepsCounted(h, tokens, b);
    RemoveKeepsOwners(h, b);
    hide UniqueOwners, NoOrphans, Counted, BufOk, SameBytes;
    var h' := Removed(h, b);
    forall c | c in h'.bufs ensures BufOk(h', c) && SameBytes(h, c, h', c) { RemoveKeepsBuf(h, b, c); }
  }

  lemma FreePartsOfUnshared(h: Heap, b: Ptr)
    requires BufOk(h, b) && UniqueOwners(h)
    ensures FreeParts(h, h.bufs[b], 0) == Ok(h.(blocks := h.blocks - OwnedBlocks(h.bufs[b])))
  {
    var buf := h.bufs[b];
    forall i: Part | i in buf.flags.own && buf.parts[i].vp != NULL ensures buf.parts[i].vp in h.blocks {
      PartsOf(h, b, i);
    }
    forall i: Part, j: Part | i < j && i in buf.flags.own && j in buf.flags.own && buf.parts[i].vp != NULL
      ensures buf.parts[i].vp != buf.parts[j].vp
    {
      if buf.parts[i].vp == buf.parts[j].vp {
        assert OwnsBlock(h, b, i, buf.parts[i].vp) && OwnsBlock(h, b, j, buf.parts[i].vp);
        OneOwner(h, b, i, b, j, buf.parts[i].vp);
      }
    }
    FreeAllParts(h, buf);
  }

  // ---------------------------------------------------------------- NutNetBufFree

  /** Releasing a handle never touches freed memory, pays exactly one token, and changes no survivor's contents. */
  lemma {:induction false} FreeKeepsInv(h: Heap, tokens: multiset<Ptr>, b: Ptr)
    requires Inv(h, tokens) && b in tokens
    ensures FreeBuf(h, b).Ok?
    ensures Inv(FreeBuf(h, b).value, tokens - multiset{b})
    ensures forall c :: c in FreeBuf(h, b).value.bufs ==> SameBytes(h, c, FreeBuf(h, b).value, c)
    decreases |h.bufs|
  {
    hide Inv, FreeBuf, BufOk, PartOk, SameBytes, Removed, Decremented;
    InvTokens(h, tokens);
    PartsOf(h, b, 0);
    var buf := h.bufs[b];
    if buf.flags.refcnt > 0 {
      FreeShared(h, b);
      DecrementKeepsInv(h, tokens, b);
      DecrementKeepsBytes(h, tokens, b);
    } else {
      var h2 := Removed(h, b);
      RemoveUnfolds(h, tokens, b);
      RemoveKeepsInv(h, tokens, b);
      if buf.ref != NULL {
        var t2 := PassedOn(tokens, b, buf.ref);
        FreeKeepsInv(h2, t2, buf.ref);
        assert t2 - multiset{buf.ref} == tokens - multiset{b};
        SameBytesCompose(h, h2, FreeBuf(h2, buf.ref).value);
      }
    }
  }

  lemma RemoveUnfolds(h: Heap, tokens: multiset<Ptr>, b: Ptr)
    requires Inv(h, tokens) && b in tokens && h.bufs[b].flags.refcnt == 0
    ensures |h.bufs[b].parts| == 4 && |Removed(h, b).bufs| < |h.bufs|
    ensures FreeBuf(h, b) == if h.bufs[b].ref == NULL then Ok(Removed(h, b)) else FreeBuf(Removed(h, b), h.bufs[b].ref)
  {
    InvTokens(h, tokens);
    PartsOf(h, b, 0);
    FreePartsOfUnshared(h, b);
    hide FreeParts, Inv, BufOk, OwnedBlocks;
    RemovalShrinks(h.bufs, b);
    FreeUnshared(h, b, h.(blocks := h.blocks - OwnedBlocks(h.bufs[b])));
  }

  lemma DecrementKeepsBytes(h: Heap, tokens: multiset<Ptr>, b: Ptr)
    requires Inv(h, tokens) && b in tokens && h.bufs[b].flags.refcnt > 0
    ensures forall c :: c in Decremented(h, b).bufs ==> SameBytes(h, c, Decremented(h, b), c)
  {
    InvOk(h, tokens);
    DecrementPreserves(h, b);
    hide Inv, BufOk, Preserves;
    var h' := Decremented(h, b);
    forall c, p: Part | c in h'.bufs
      ensures PartOk(h, c, p) && PartOk(h', c, p) && PartBytes(h', c, p) == PartBytes(h, c, p)
    {
      PartsOf(h, c, p);
      PreservesBuf(h, h', c);
      PartsOf(h', c, p);
    }
  }

  /** What survives both steps survives their composition, provided survivors only become fewer. */
  lemma SameBytesCompose(h: Heap, h1: Heap, h2: Heap)
    requires forall c :: c in h1.bufs ==> SameBytes(h, c, h1, c)
    requires forall c :: c in h2.bufs ==> SameBytes(h1, c, h2, c)
    ensures forall c :: c in h2.bufs ==> SameBytes(h, c, h2, c)
  {
    forall c, p: Part | c in h2.bufs
      ensures PartOk(h, c, p) && PartOk(h2, c, p) && PartBytes(h2, c, p) == PartBytes(h, c, p)
    {
      assert SameBytes(h1, c, h2, c);
      assert PartOk(h1, c, p) && PartBytes(h2, c, p) == PartBytes(h1, c, p);
      assert SameBytes(h, c, h1, c);
      assert PartBytes(h1, c, p) == PartBytes(h, c, p);
    }
  }

  /** Releasing removes some buffers and lowers some counts; nothing else happens to the survivors. */
  lemma {:induction false} FreeOnlyLowersCounts(h: Heap, b: Ptr, c: Ptr)
    requires FreeBuf(h, b).Ok? && c in FreeBuf(h, b).value.bufs
    ensures c in h.bufs
    ensures FreeBuf(h, b).value.bufs[c] ==
            h.bufs[c].(flags := h.bufs[c].flags.(refcnt := FreeBuf(h, b).value.bufs[c].flags.refcnt))
    decreases |h.bufs|
  {
    var buf := h.bufs[b];
    if buf.flags.refcnt == 0 {
      FreePartsKeepsBufs(h, buf, 0);
      var h1 := FreeParts(h, buf, 0).value;
      RemovalShrinks(h.bufs, b);
      if buf.ref != NULL { FreeOnlyLowersCounts(h1.(bufs := h1.bufs - {b}), buf.ref, c); }
    }
  }

  function Beside(h: Heap, bufs: map<Ptr, Buf>, blocks: map<Ptr, seq<Byte>>): Heap {
    Heap(h.bufs + bufs, h.blocks + blocks)
  }

  lemma RemoveBeside<V>(m: map<Ptr, V>, n: map<Ptr, V>, x: Ptr)
    requires x !in n
    ensures (m + n) - {x} == (m - {x}) + n
  {
  }

  lemma FreeShared(h: Heap, b: Ptr)
    requires b in h.bufs && |h.bufs[b].parts| == 4 && h.bufs[b].flags.refcnt > 0
    ensures FreeBuf(h, b) == Ok(Decremented(h, b))
  {
  }

  /** One unfolding of the release of an unshared buffer. */
  lemma FreeUnshared(h: Heap, b: Ptr, h1: Heap)
    requires b in h.bufs && |h.bufs[b].parts| == 4 && h.bufs[b].flags.refcnt == 0
    requires FreeParts(h, h.bufs[b], 0) == Ok(h1)
    ensures var h2 := h1.(bufs := h1.bufs - {b});
            FreeBuf(h, b) == if h.bufs[b].ref == NULL then Ok(h2) else FreeBuf(h2, h.bufs[b].ref)
  {
    hide FreeParts;
  }

  lemma FreeSharedFrame(h: Heap, b: Ptr, bufs: map<Ptr, Buf>, blocks: map<Ptr, seq<Byte>>)
    requires b in h.bufs && |h.bufs[b].parts| == 4 && h.bufs[b].flags.refcnt > 0 && bufs.Keys !! h.bufs.Keys
    ensures FreeBuf(Beside(h, bufs, blocks), b) == Ok(Beside(Decremented(h, b), bufs, blocks))
  {
    var g := Beside(h, bufs, blocks);
    assert b in g.bufs && g.bufs[b] == h.bufs[b];
    FreeShared(g, b);
    hide FreeBuf;
    assert Decremented(g, b).bufs == Decremented(h, b).bufs + bufs;
  }

  lemma FreeUnsharedFrame(h: Heap, b: Ptr, bufs: map<Ptr, Buf>, blocks: map<Ptr, seq<Byte>>) returns (h2: Heap)
    requires FreeBuf(h, b).Ok? && h.bufs[b].flags.refcnt == 0
    requires bufs.Keys !! h.bufs.Keys && blocks.Keys !! h.blocks.Keys
    ensures h2.bufs == h.bufs - {b} && |h2.bufs| < |h.bufs| && h2.blocks.Keys <= h.blocks.Keys
    ensures FreeBuf(h, b) == if h.bufs[b].ref == NULL then Ok(h2) else FreeBuf(h2, h.bufs[b].ref)
    ensures var g2 := Beside(h2, bufs, blocks);
            FreeBuf(Beside(h, bufs, blocks), b) == if h.bufs[b].ref == NULL then Ok(g2) else FreeBuf(g2, h.bufs[b].ref)
  {
    var g := Beside(h, bufs, blocks);
    var buf := h.bufs[b];
    var h1 := FreeParts(h, buf, 0).value;
    FreePartsFrame(h, buf, 0, bufs, blocks);
    FreePartsKeepsBufs(h, buf, 0);
    FreeUnshared(h, b, h1);
    FreeUnshared(g, b, Beside(h1, bufs, blocks));
    hide FreeBuf, FreeParts;
    h2 := h1.(bufs := h1.bufs - {b});
    RemovalShrinks(h.bufs, b);
    RemoveBeside(h1.bufs, bufs, b);
  }

  /** Frame: structures and blocks that a release does not mention come through it unchanged. */
  lemma {:induction false} FreeFrame(h: Heap, b: Ptr, bufs: map<Ptr, Buf>, blocks: map<Ptr, seq<Byte>>)
    requires FreeBuf(h, b).Ok?
    requires bufs.Keys !! h.bufs.Keys && blocks.Keys !! h.blocks.Keys
    ensures FreeBuf(h, b).value.bufs.Keys <= h.bufs.Keys && FreeBuf(h, b).value.blocks.Keys <= h.blocks.Keys
    ensures FreeBuf(Beside(h, bufs, blocks), b) == Ok(Beside(FreeBuf(h, b).value, bufs, blocks))
    decreases |h.bufs|
  {
    assert b in h.bufs && |h.bufs[b].parts| == 4;
    if h.bufs[b].flags.refcnt > 0 {
      FreeShared(h, b);
      FreeSharedFrame(h, b, bufs, blocks);
      hide FreeBuf, Beside;
    } else {
      var h2 := FreeUnsharedFrame(h, b, bufs, blocks);
      hide FreeBuf, Beside;
      if h.bufs[b].ref != NULL { FreeFrame(h2, h.bufs[b].ref, bufs, blocks); }
    }
  }

  lemma {:induction false} FreePartsFrame(h: Heap, buf: Buf, p: nat, bufs: map<Ptr, Buf>, blocks: map<Ptr, seq<Byte>>)
    requires p <= 4 && |buf.parts| == 4 && FreeParts(h, buf, p).Ok? && blocks.Keys !! h.blocks.Keys
    ensures var h' := FreeParts(h, buf, p).value;
            && h'.blocks.Keys <= h.blocks.Keys
            && FreeParts(Beside(h, bufs, blocks), buf, p) == Ok(Beside(h', bufs, blocks))
    decreases 4 - p
  {
    if p < 4 {
      if p in buf.flags.own {
        var v := buf.parts[p].vp;
        var h1 := FreeBlock(h, v).value;
        if v != NULL { RemoveBeside(h.blocks, blocks, v); }
        FreePartsFrame(h1, buf, p + 1, bufs, blocks);
      } else {
        FreePartsFrame(h, buf, p + 1, bufs, blocks);
      }
    }
  }
}
