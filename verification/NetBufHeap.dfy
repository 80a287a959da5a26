/**
 The heap invariant of the network buffers and the facts that follow from it.
 */
module NetBufHeap {
  import opened Machine
  import opened NetBuf

  predicate OwnsBlock(h: Heap, b: Ptr, p: Part, v: Ptr) {
    b in h.bufs && |h.bufs[b].parts| == 4 && p in h.bufs[b].flags.own && h.bufs[b].parts[p].vp == v
  }

  predicate Borrows(h: Heap, b: Ptr, p: Part, v: Ptr) {
    b in h.bufs && |h.bufs[b].parts| == 4 && p !in h.bufs[b].flags.own &&
    h.bufs[b].parts[p].vp == v && h.bufs[b].parts[p].sz > 0
  }

  function Clones(h: Heap, b: Ptr): set<Ptr> {
    set c | c in h.bufs && h.bufs[c].ref == b
  }

  /** Following the clone chain from b reaches a buffer that owns block v as its part p. */
  predicate Rooted(h: Heap, b: Ptr, p: Part, v: Ptr)
    decreases if b in h.bufs then h.bufs[b].depth else 0
  {
    OwnsBlock(h, b, p, v) ||
    (b in h.bufs && h.bufs[b].ref in h.bufs && h.bufs[h.bufs[b].ref].depth < h.bufs[b].depth &&
     Rooted(h, h.bufs[b].ref, p, v))
  }

  /** A part shows no more than a live block, which the buffer or one of its origins owns. */
  predicate PartOk(h: Heap, b: Ptr, p: Part) {
    b in h.bufs && |h.bufs[b].parts| == 4 &&
    var d := h.bufs[b].parts[p];
    if p in h.bufs[b].flags.own && d.vp == NULL then d.sz == 0
    else if p in h.bufs[b].flags.own then d.vp in h.blocks && d.sz <= |h.blocks[d.vp]|
    else d.sz > 0 ==> d.vp in h.blocks && d.sz <= |h.blocks[d.vp]| && Rooted(h, b, p, d.vp)
  }

  predicate BufOk(h: Heap, b: Ptr) {
    b in h.bufs &&
    var buf := h.bufs[b];
    && |buf.parts| == 4
    && buf.flags.refcnt <= MAX_REFS
    && (buf.ref != NULL ==> buf.ref in h.bufs && h.bufs[buf.ref].depth < buf.depth)
    && forall p: Part :: PartOk(h, b, p)
  }

  ghost predicate AllOk(h: Heap) {
    NULL !in h.bufs && NULL !in h.blocks && forall b :: b in h.bufs ==> BufOk(h, b)
  }

  ghost predicate UniqueOwners(h: Heap) {
    forall b, p: Part, b', p': Part, v :: v != NULL && OwnsBlock(h, b, p, v) && OwnsBlock(h, b', p', v) ==>
      b == b' && p == p'
  }

  ghost predicate NoOrphans(h: Heap) {
    forall v :: v in h.blocks ==> exists b, p: Part :: OwnsBlock(h, b, p, v)
  }

  /** tokens holds one entry for each release the clients still owe. */
  ghost predicate Counted(h: Heap, tokens: multiset<Ptr>) {
    && (forall b :: b in tokens ==> b in h.bufs)
    && (forall b :: b in h.bufs ==> h.bufs[b].flags.refcnt + 1 == tokens[b] + |Clones(h, b)|)
  }

  ghost predicate Inv(h: Heap, tokens: multiset<Ptr>) {
    AllOk(h) && Counted(h, tokens) && UniqueOwners(h) && NoOrphans(h)
  }

  // ---------------------------------------------------------------- reading the invariant

  lemma InvOk(h: Heap, tokens: multiset<Ptr>)
    requires Inv(h, tokens)
    ensures NULL !in h.bufs && NULL !in h.blocks
    ensures forall b :: b in h.bufs ==> BufOk(h, b)
  {
    hide Counted, UniqueOwners, NoOrphans, BufOk;
  }

  lemma InvTokens(h: Heap, tokens: multiset<Ptr>)
    requires Inv(h, tokens)
    ensures NULL !in tokens
    ensures forall b :: b in tokens ==> b in h.bufs && BufOk(h, b)
  {
    hide UniqueOwners, NoOrphans, BufOk;
  }

  lemma PartsOf(h: Heap, b: Ptr, p: Part)
    requires BufOk(h, b)
    ensures b in h.bufs && |h.bufs[b].parts| == 4 && PartOk(h, b, p)
  {
  }

  lemma NullIsFree(h: Heap)
    requires AllOk(h)
    ensures NULL !in h.blocks && NULL !in h.bufs
  {
  }

  lemma OwnedIsLive(h: Heap, b: Ptr, p: Part, v: Ptr)
    requires AllOk(h)
    ensures OwnsBlock(h, b, p, v) && v != NULL ==> v in h.blocks
  {
    if OwnsBlock(h, b, p, v) { PartsOf(h, b, p); }
  }

  lemma OneOwner(h: Heap, b: Ptr, p: Part, b': Ptr, p': Part, v: Ptr)
    requires UniqueOwners(h) && OwnsBlock(h, b, p, v) && OwnsBlock(h, b', p', v) && v != NULL
    ensures b == b' && p == p'
  {
  }

  lemma {:induction false} RootedHasOwner(h: Heap, b: Ptr, p: Part, v: Ptr) returns (o: Ptr)
    requires Rooted(h, b, p, v)
    ensures OwnsBlock(h, o, p, v)
    ensures o == b || exists c :: c in h.bufs && h.bufs[c].ref == o
    decreases h.bufs[b].depth
  {
    if OwnsBlock(h, b, p, v) {
      o := b;
    } else {
      o := RootedHasOwner(h, h.bufs[b].ref, p, v);
      if o == h.bufs[b].ref { assert b in h.bufs; }
    }
  }

  /** Every block that is shown has an owner: the buffer itself or some origin. */
  lemma ShownHasOwner(h: Heap, b: Ptr, p: Part) returns (o: Ptr)
    requires PartOk(h, b, p) && h.bufs[b].parts[p].sz > 0
    ensures OwnsBlock(h, o, p, h.bufs[b].parts[p].vp)
    ensures o == b || exists c :: c in h.bufs && h.bufs[c].ref == o
  {
    if p in h.bufs[b].flags.own {
      o := b;
    } else {
      o := RootedHasOwner(h, b, p, h.bufs[b].parts[p].vp);
    }
  }

  lemma UnsharedHasNoClones(h: Heap, tokens: multiset<Ptr>, b: Ptr)
    requires Counted(h, tokens) && b in tokens && h.bufs[b].flags.refcnt == 0
    ensures Clones(h, b) == {} && tokens[b] == 1
    ensures forall c :: c in h.bufs ==> h.bufs[c].ref != b
  {
    assert tokens[b] + |Clones(h, b)| == 1;
    assert |Clones(h, b)| == 0;
    forall c | c in h.bufs ensures h.bufs[c].ref != b {
      assert c !in Clones(h, b);
    }
  }

  // ---------------------------------------------------------------- changes that preserve structure

  /** The buffer keeps owners, blocks and links; its parts may show less and its count may change. */
  predicate SameShape(a: Buf, b: Buf) {
    && |a.parts| == 4 && |b.parts| == 4
    && a.flags.own == b.flags.own && a.ref == b.ref && a.depth == b.depth
    && b.flags.refcnt <= MAX_REFS
    && forall p: Part :: b.parts[p].vp == a.parts[p].vp && b.parts[p].sz <= a.parts[p].sz
  }

  ghost predicate Preserves(h: Heap, h': Heap) {
    && (forall b :: b in h.bufs ==> b in h'.bufs && SameShape(h.bufs[b], h'.bufs[b]))
    && (forall v :: v in h.blocks ==> v in h'.blocks && |h.blocks[v]| <= |h'.blocks[v]|)
  }

  lemma {:induction false} PreservesRooted(h: Heap, h': Heap, b: Ptr, p: Part, v: Ptr)
    requires Preserves(h, h') && Rooted(h, b, p, v)
    ensures Rooted(h', b, p, v)
    decreases h.bufs[b].depth
  {
    assert SameShape(h.bufs[b], h'.bufs[b]);
    if !OwnsBlock(h, b, p, v) {
      PreservesRooted(h, h', h.bufs[b].ref, p, v);
      assert SameShape(h.bufs[h.bufs[b].ref], h'.bufs[h.bufs[b].ref]);
    }
  }

  lemma PreservesBuf(h: Heap, h': Heap, b: Ptr)
    requires Preserves(h, h') && BufOk(h, b)
    ensures BufOk(h', b)
  {
    assert SameShape(h.bufs[b], h'.bufs[b]);
    if h.bufs[b].ref != NULL { assert SameShape(h.bufs[h.bufs[b].ref], h'.bufs[h.bufs[b].ref]); }
    forall p: Part ensures PartOk(h', b, p) {
      PartsOf(h, b, p);
      hide BufOk;
      if h.bufs[b].parts[p].sz > 0 && p !in h.bufs[b].flags.own {
        PreservesRooted(h, h', b, p, h.bufs[b].parts[p].vp);
      }
    }
  }

  lemma PreservesOwners(h: Heap, h': Heap, b: Ptr, p: Part, v: Ptr)
    requires Preserves(h, h') && b in h.bufs
    ensures OwnsBlock(h', b, p, v) <==> OwnsBlock(h, b, p, v)
  {
    assert SameShape(h.bufs[b], h'.bufs[b]);
  }

  /** Retouching existing buffers keeps the invariant as long as the counts still add up. */
  lemma RetouchKeepsInv(h: Heap, tokens: multiset<Ptr>, h': Heap, tokens': multiset<Ptr>)
    requires Inv(h, tokens) && Preserves(h, h') && h'.bufs.Keys == h.bufs.Keys && h'.blocks == h.blocks
    requires Counted(h', tokens')
    ensures Inv(h', tokens')
  {
    assert AllOk(h') by {
      InvOk(h, tokens);
      hide Inv, BufOk, Preserves;
      forall b | b in h'.bufs ensures BufOk(h', b) { PreservesBuf(h, h', b); }
    }
    forall b, p: Part, v ensures OwnsBlock(h', b, p, v) <==> OwnsBlock(h, b, p, v) {
      hide Inv;
      if b in h.bufs { PreservesOwners(h, h', b, p, v); }
    }
    SameOwners(h, h');
  }

  /** Owners are the same, so uniqueness and the absence of orphans carry over. */
  lemma SameOwners(h: Heap, h': Heap)
    requires UniqueOwners(h) && NoOrphans(h) && h'.blocks == h.blocks
    requires forall c, p: Part, v :: OwnsBlock(h', c, p, v) <==> OwnsBlock(h, c, p, v)
    ensures UniqueOwners(h') && NoOrphans(h')
  {
    hide OwnsBlock;
    forall v | v in h'.blocks ensures exists c, p: Part :: OwnsBlock(h', c, p, v) {
      var c, p: Part :| OwnsBlock(h, c, p, v);
      assert OwnsBlock(h', c, p, v);
    }
  }

  lemma SameLinksSameClones(h: Heap, h': Heap, b: Ptr)
    requires h'.bufs.Keys == h.bufs.Keys && forall c :: c in h.bufs ==> h'.bufs[c].ref == h.bufs[c].ref
    ensures Clones(h', b) == Clones(h, b)
  {
  }

  // ---------------------------------------------------------------- what the buffers show

  /** The bytes a buffer shows as part p. */
  function PartBytes(h: Heap, b: Ptr, p: Part): seq<Byte>
    requires PartOk(h, b, p)
  {
    var d := h.bufs[b].parts[p];
    if d.sz == 0 then [] else h.blocks[d.vp][..d.sz]
  }

  /** c in heap h' shows the same bytes as b in heap h, part by part. */
  ghost predicate SameBytes(h: Heap, b: Ptr, h': Heap, c: Ptr) {
    forall p: Part :: PartOk(h, b, p) && PartOk(h', c, p) && PartBytes(h', c, p) == PartBytes(h, b, p)
  }

  lemma SameBytesTransitive(h: Heap, h1: Heap, h2: Heap, b: Ptr)
    requires SameBytes(h, b, h1, b) && SameBytes(h1, b, h2, b)
    ensures SameBytes(h, b, h2, b)
  {
    forall p: Part
      ensures PartOk(h, b, p) && PartOk(h2, b, p) && PartBytes(h2, b, p) == PartBytes(h, b, p)
    {
      hide PartOk;
      assert PartOk(h1, b, p) && PartBytes(h1, b, p) == PartBytes(h, b, p);
    }
  }
}
