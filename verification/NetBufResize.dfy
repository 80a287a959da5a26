/**
 NutNetBufAlloc: creating buffers, growing and shrinking their parts, running out of memory.
 */
module NetBufResize {
  import opened Machine
  import opened NetBuf
  import opened NetBufHeap
  import opened NetBufRelease

  // ---------------------------------------------------------------- replacing the block of one part

  /** Part p of buffer n gets a new description; if that names a block, the block is new and holds content. */
  datatype Edit = Edit(n: Ptr, p: Part, d: NbData, own: set<Part>, content: seq<Byte>)

  /** The block the part owned is gone, the new one is there. */
  function Replaced(h: Heap, e: Edit): Heap
    requires e.n in h.bufs && |h.bufs[e.n].parts| == 4
  {
    var buf := h.bufs[e.n];
    var kept := if e.p in buf.flags.own then h.blocks - {buf.parts[e.p].vp} else h.blocks;
    Heap(h.bufs[e.n := WithPart(buf, e.p, e.d, e.own)],
         if e.d.vp == NULL then kept else kept[e.d.vp := e.content])
  }

  /** No buffer but n lives on the block that part p of n owns. */
  ghost predicate SoleUser(h: Heap, n: Ptr, p: Part) {
    n in h.bufs && |h.bufs[n].parts| == 4 &&
    (p in h.bufs[n].flags.own ==> forall c :: c != n ==> !Borrows(h, c, p, h.bufs[n].parts[p].vp))
  }

  ghost predicate ReplaceOk(h: Heap, e: Edit) {
    && AllOk(h) && UniqueOwners(h) && NoOrphans(h) && SoleUser(h, e.n, e.p)
    && (if e.d.vp == NULL then e.d.sz == 0 && e.own == h.bufs[e.n].flags.own
        else e.own == h.bufs[e.n].flags.own + {e.p} && e.d.sz <= |e.content| &&
             (e.d.vp in h.blocks ==> OwnsBlock(h, e.n, e.p, e.d.vp)))
  }

  lemma ReplaceOwners(h: Heap, e: Edit, b: Ptr, q: Part, v: Ptr)
    requires ReplaceOk(h, e) && v != NULL
    ensures OwnsBlock(Replaced(h, e), b, q, v) <==> if b == e.n && q == e.p then v == e.d.vp else OwnsBlock(h, b, q, v)
  {
    hide AllOk, UniqueOwners, NoOrphans;
  }

  /** What another part shows is not a block that part p of n owns. */
  lemma ShownElsewhere(h: Heap, n: Ptr, p: Part, b: Ptr, q: Part)
    requires AllOk(h) && UniqueOwners(h) && SoleUser(h, n, p)
    requires PartOk(h, b, q) && (b != n || q != p) && h.bufs[b].parts[q].sz > 0
    ensures !OwnsBlock(h, n, p, h.bufs[b].parts[q].vp)
  {
    var v := h.bufs[b].parts[q].vp;
    NullIsFree(h);
    hide AllOk;
    assert q !in h.bufs[b].flags.own ==> Borrows(h, b, q, v);
    assert q in h.bufs[b].flags.own ==> OwnsBlock(h, b, q, v);
    if OwnsBlock(h, n, p, v) {
      var o := ShownHasOwner(h, b, q);
      OneOwner(h, o, q, n, p, v);
    }
  }

  lemma ReplaceKeepsPart(h: Heap, e: Edit, b: Ptr, q: Part)
    requires ReplaceOk(h, e) && PartOk(h, b, q) && (b != e.n || q != e.p)
    ensures PartOk(Replaced(h, e), b, q) && PartBytes(Replaced(h, e), b, q) == PartBytes(h, b, q)
  {
    var h' := Replaced(h, e);
    var v := h.bufs[b].parts[q].vp;
    NullIsFree(h);
    if h.bufs[b].parts[q].sz > 0 {
      ShownElsewhere(h, e.n, e.p, b, q);
      if q !in h.bufs[b].flags.own {
        hide AllOk, UniqueOwners, NoOrphans;
        ReplaceKeepsRooted(h, e, b, q, v);
      }
    } else if q in h.bufs[b].flags.own && v != NULL {
      assert OwnsBlock(h, b, q, v);
      if OwnsBlock(h, e.n, e.p, v) { OneOwner(h, b, q, e.n, e.p, v); }
    }
  }

  lemma {:induction false} ReplaceKeepsRooted(h: Heap, e: Edit, b: Ptr, q: Part, v: Ptr)
    requires ReplaceOk(h, e) && v != NULL && !OwnsBlock(h, e.n, e.p, v) && Rooted(h, b, q, v)
    ensures Rooted(Replaced(h, e), b, q, v)
    decreases h.bufs[b].depth
  {
    ReplaceOwners(h, e, b, q, v);
    hide ReplaceOk;
    if !OwnsBlock(h, b, q, v) {
      ReplaceKeepsRooted(h, e, h.bufs[b].ref, q, v);
    }
  }

  lemma ReplaceKeepsBuf(h: Heap, e: Edit, b: Ptr)
    requires ReplaceOk(h, e) && BufOk(h, b)
    ensures BufOk(Replaced(h, e), b)
    ensures b != e.n ==> SameBytes(h, b, Replaced(h, e), b)
  {
    var h' := Replaced(h, e);
    forall q: Part
      ensures PartOk(h, b, q) && PartOk(h', b, q)
      ensures b != e.n ==> PartBytes(h', b, q) == PartBytes(h, b, q)
    {
      PartsOf(h, b, q);
      if b != e.n || q != e.p {
        ReplaceKeepsPart(h, e, b, q);
      } else {
        ReplacedPart(h, e);
      }
    }
    hide PartOk, AllOk, UniqueOwners, NoOrphans;
  }

  lemma ReplacedPart(h: Heap, e: Edit)
    requires ReplaceOk(h, e) && PartOk(h, e.n, e.p)
    ensures PartOk(Replaced(h, e), e.n, e.p)
    ensures e.d.vp != NULL ==> PartBytes(Replaced(h, e), e.n, e.p) == e.content[..e.d.sz]
  {
    hide AllOk, UniqueOwners, NoOrphans;
  }

  lemma ReplaceKeepsOwners(h: Heap, e: Edit)
    requires ReplaceOk(h, e)
    ensures UniqueOwners(Replaced(h, e)) && NoOrphans(Replaced(h, e))
  {
    var h' := Replaced(h, e);
    forall b, q: Part, b', q': Part, v | v != NULL && OwnsBlock(h', b, q, v) && OwnsBlock(h', b', q', v)
      ensures b == b' && q == q'
    {
      ReplaceOwners(h, e, b, q, v);
      ReplaceOwners(h, e, b', q', v);
      OwnedIsLive(h, b, q, v);
      OwnedIsLive(h, b', q', v);
      hide AllOk, NoOrphans;
    }
    forall v | v in h'.blocks ensures exists b, q: Part :: OwnsBlock(h', b, q, v) {
      NullIsFree(h);
      hide AllOk, UniqueOwners;
      if v == e.d.vp {
        assert OwnsBlock(h', e.n, e.p, v);
      } else {
        var b, q: Part :| OwnsBlock(h, b, q, v);
        ReplaceOwners(h, e, b, q, v);
        assert OwnsBlock(h', b, q, v);
      }
    }
  }

  lemma ReplaceKeepsInv(h: Heap, tokens: multiset<Ptr>, e: Edit)
    requires Inv(h, tokens) && ReplaceOk(h, e)
    ensures Inv(Replaced(h, e), tokens)
    ensures forall b :: b in h.bufs && b != e.n ==> SameBytes(h, b, Replaced(h, e), b)
  {
    var h' := Replaced(h, e);
    InvOk(h, tokens);
    assert Counted(h', tokens) by {
      hide AllOk, UniqueOwners, NoOrphans, ReplaceOk, BufOk, Clones;
      forall b | b in h'.bufs ensures h'.bufs[b].flags.refcnt + 1 == tokens[b] + |Clones(h', b)| {
        SameLinksSameClones(h, h', b);
      }
    }
    ReplaceKeepsOwners(h, e);
    hide Counted, UniqueOwners, NoOrphans, ReplaceOk, BufOk, SameBytes;
    forall b | b in h.bufs ensures BufOk(h', b) && (b != e.n ==> SameBytes(h, b, h', b)) { ReplaceKeepsBuf(h, e, b); }
    assert NULL !in h'.bufs && NULL !in h'.blocks;
  }

  // ---------------------------------------------------------------- shrinking in place

  /** The part keeps its block but shows less of it. */
  function Shrunk(h: Heap, n: Ptr, p: Part, size: nat): Heap
    requires n in h.bufs && |h.bufs[n].parts| == 4
  {
    var buf := h.bufs[n];
    h.(bufs := h.bufs[n := WithPart(buf, p, buf.parts[p].(sz := size), buf.flags.own)])
  }

  lemma ShrinkPreserves(h: Heap, n: Ptr, p: Part, size: nat)
    requires AllOk(h) && n in h.bufs && |h.bufs[n].parts| == 4 && size <= h.bufs[n].parts[p].sz
    ensures Preserves(h, Shrunk(h, n, p, size))
  {
    var h' := Shrunk(h, n, p, size);
    forall c | c in h.bufs ensures SameShape(h.bufs[c], h'.bufs[c]) { assert BufOk(h, c); }
  }

  lemma ShrinkCounted(h: Heap, tokens: multiset<Ptr>, n: Ptr, p: Part, size: nat)
    requires Counted(h, tokens) && n in h.bufs && |h.bufs[n].parts| == 4
    ensures Counted(Shrunk(h, n, p, size), tokens)
  {
    hide Clones;
    var h' := Shrunk(h, n, p, size);
    forall b | b in h'.bufs ensures h'.bufs[b].flags.refcnt + 1 == tokens[b] + |Clones(h', b)| {
      SameLinksSameClones(h, h', b);
    }
  }

  lemma ShrinkKeepsInv(h: Heap, tokens: multiset<Ptr>, n: Ptr, p: Part, size: nat)
    requires Inv(h, tokens) && n in h.bufs && |h.bufs[n].parts| == 4 && size <= h.bufs[n].parts[p].sz
    ensures Inv(Shrunk(h, n, p, size), tokens)
    ensures forall b :: b in h.bufs && b != n ==> SameBytes(h, b, Shrunk(h, n, p, size), b)
  {
    hide Counted, Preserves, AllOk, BufOk, UniqueOwners, NoOrphans, Rooted;
    var h' := Shrunk(h, n, p, size);
    ShrinkCounted(h, tokens, n, p, size);
    InvOk(h, tokens);
    ShrinkPreserves(h, n, p, size);
    RetouchKeepsInv(h, tokens, h', tokens);
    InvOk(h', tokens);
    forall b, q: Part | b in h.bufs && b != n
      ensures PartOk(h, b, q) && PartOk(h', b, q) && PartBytes(h', b, q) == PartBytes(h, b, q)
    {
      PartsOf(h, b, q);
      PartsOf(h', b, q);
    }
  }

  // ---------------------------------------------------------------- NutNetBufAlloc

  /** No other buffer lives on the payload that growing part p of nb would release. */
  ghost predicate SafeResize(h: Heap, nb: Ptr, p: Part, size: nat) {
    nb in h.bufs && |h.bufs[nb].parts| == 4 && p in h.bufs[nb].flags.own && h.bufs[nb].parts[p].sz < size ==>
      SoleUser(h, nb, p)
  }

  /** What is left to release after an allocation. */
  function AllocTokens(tokens: multiset<Ptr>, nb: Ptr, result: Ptr): multiset<Ptr> {
    tokens - multiset{nb} + if result == NULL then multiset{} else multiset{result}
  }

  /** The replacement an allocation performs on part p when the part cannot simply shrink. */
  function AllocEdit(h: Heap, n: Ptr, p: Part, size: nat, a: Ptr, fill: Byte): Edit
    requires n in h.bufs
  {
    var own := h.bufs[n].flags.own;
    if a == NULL then Edit(n, p, NbData(NULL, 0), own, [])
    else Edit(n, p, NbData(a, size), own + {p}, FreshBlock(size, fill))
  }

  /** An allocation shrinks the part in place, or replaces its block, or fails and releases the buffer. */
  lemma AllocPartShape(h: Heap, n: Ptr, p: Part, size: nat, a: Ptr, fill: Byte)
    requires BufOk(h, n) && size > 0 && NULL !in h.blocks
    ensures var buf := h.bufs[n];
            var edited := Replaced(h, AllocEdit(h, n, p, size, a, fill));
            AllocPart(h, n, p, size, a, fill) ==
            if p in buf.flags.own && size <= buf.parts[p].sz then Ok((Shrunk(h, n, p, size), n))
            else if a != NULL then Ok((edited, n))
            else if FreeBuf(edited, n).Ok? then Ok((FreeBuf(edited, n).value, NULL)) else Fault
  {
    PartsOf(h, n, p);
    hide FreeBuf, BufOk, FreshBlock;
    assert h.blocks - {NULL} == h.blocks;
  }

  lemma AllocEditOk(h: Heap, tokens: multiset<Ptr>, n: Ptr, p: Part, size: nat, a: Ptr, fill: Byte)
    requires Inv(h, tokens) && n in tokens && SafeResize(h, n, p, size)
    requires a in h.blocks ==> OwnsBlock(h, n, p, a)
    requires !(p in h.bufs[n].flags.own && |h.bufs[n].parts| == 4 && size <= h.bufs[n].parts[p].sz)
    ensures ReplaceOk(h, AllocEdit(h, n, p, size, a, fill))
  {
    InvTokens(h, tokens);
    PartsOf(h, n, p);
    hide AllOk, UniqueOwners, NoOrphans, BufOk, PartOk;
  }

  lemma AllocPartKeepsInv(h: Heap, tokens: multiset<Ptr>, n: Ptr, p: Part, size: nat, a: Ptr, fill: Byte)
    requires Inv(h, tokens) && n in tokens && size > 0 && SafeResize(h, n, p, size)
    requires a in h.blocks ==> OwnsBlock(h, n, p, a)
    ensures var r := AllocPart(h, n, p, size, a, fill);
            && r.Ok? && Inv(r.value.0, if r.value.1 == NULL then tokens - multiset{n} else tokens)
            && (r.value.1 == NULL || r.value.1 == n)
            && forall b :: b in r.value.0.bufs && b != n ==> SameBytes(h, b, r.value.0, b)
  {
    hide Inv, AllocPart, SafeResize, SameBytes, BufOk, PartOk, ReplaceOk, FreeBuf, AllocEdit, OwnsBlock, Shrunk,
         Replaced;
    InvTokens(h, tokens);
    InvOk(h, tokens);
    PartsOf(h, n, p);
    AllocPartShape(h, n, p, size, a, fill);
    EditOf(h, n, p, size, a, fill);
    SameStructures(h, n, p, size, AllocEdit(h, n, p, size, a, fill));
    if p in h.bufs[n].flags.own && size <= h.bufs[n].parts[p].sz {
      ShrinkKeepsInv(h, tokens, n, p, size);
    } else {
      AllocEditOk(h, tokens, n, p, size, a, fill);
      var e := AllocEdit(h, n, p, size, a, fill);
      ReplaceKeepsInv(h, tokens, e);
      if a == NULL {
        FreeKeepsInv(Replaced(h, e), tokens, n);
        SurvivorsSame(h, Replaced(h, e), n);
      }
    }
  }

  lemma EditOf(h: Heap, n: Ptr, p: Part, size: nat, a: Ptr, fill: Byte)
    requires n in h.bufs
    ensures AllocEdit(h, n, p, size, a, fill).n == n
  {
  }

  lemma SameStructures(h: Heap, n: Ptr, p: Part, size: nat, e: Edit)
    requires n in h.bufs && |h.bufs[n].parts| == 4 && e.n in h.bufs && |h.bufs[e.n].parts| == 4
    ensures Shrunk(h, n, p, size).bufs.Keys == h.bufs.Keys && Replaced(h, e).bufs.Keys == h.bufs.Keys
  {
  }

  /** Failing: what survives the release of the buffer looks as before the edit. */
  lemma SurvivorsSame(h: Heap, h2: Heap, n: Ptr)
    requires FreeBuf(h2, n).Ok? && h2.bufs.Keys == h.bufs.Keys
    requires forall b :: b in h.bufs && b != n ==> SameBytes(h, b, h2, b)
    requires forall b :: b in FreeBuf(h2, n).value.bufs ==> SameBytes(h2, b, FreeBuf(h2, n).value, b)
    ensures forall b :: b in FreeBuf(h2, n).value.bufs && b != n ==> SameBytes(h, b, FreeBuf(h2, n).value, b)
  {
    var h3 := FreeBuf(h2, n).value;
    forall b, p: Part | b in h3.bufs && b != n
      ensures PartOk(h, b, p) && PartOk(h3, b, p) && PartBytes(h3, b, p) == PartBytes(h, b, p)
    {
      FreeOnlyLowersCounts(h2, n, b);
      hide FreeBuf, PartOk;
      assert SameBytes(h2, b, h3, b) && SameBytes(h, b, h2, b);
      assert PartOk(h2, b, p) && PartBytes(h3, b, p) == PartBytes(h2, b, p);
      assert PartBytes(h2, b, p) == PartBytes(h, b, p);
    }
  }
}
