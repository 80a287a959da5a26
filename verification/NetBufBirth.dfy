/**
 A new unshared buffer joins the heap: a fresh root, or a finished clone.
 */
module NetBufBirth {
  import opened Machine
  import opened NetBuf
  import opened NetBufHeap
  import opened NetBufRelease

  /** Structure buf at address cb, together with the blocks made for it. */
  datatype Birth = Birth(cb: Ptr, buf: Buf, news: map<Ptr, seq<Byte>>)

  /** The buffer is there, and its origin, if any, counts one more reference. */
  function Added(h: Heap, n: Birth): Heap {
    var origins := if n.buf.ref in h.bufs then h.bufs[n.buf.ref := OneMore(h.bufs[n.buf.ref])] else h.bufs;
    Heap(origins[n.cb := n.buf], h.blocks + n.news)
  }

  function OneMore(buf: Buf): Buf {
    buf.(flags := buf.flags.(refcnt := buf.flags.refcnt + 1))
  }

  /** A part of a new buffer is empty, owned and backed by a new block, or borrowed from the origin. */
  predicate NewPartOk(h: Heap, n: Birth, p: Part)
    requires |n.buf.parts| == 4
  {
    var d := n.buf.parts[p];
    if p in n.buf.flags.own then d.vp in n.news && d.sz <= |n.news[d.vp]|
    else d.sz > 0 ==> n.buf.ref in h.bufs && |h.bufs[n.buf.ref].parts| == 4 && d == h.bufs[n.buf.ref].parts[p]
  }

  ghost predicate AddOk(h: Heap, n: Birth) {
    && n.cb != NULL && n.cb !in h.bufs
    && |n.buf.parts| == 4 && n.buf.flags.refcnt == 0
    && (n.buf.ref != NULL ==> n.buf.ref in h.bufs && h.bufs[n.buf.ref].depth < n.buf.depth &&
                              h.bufs[n.buf.ref].flags.refcnt < MAX_REFS)
    && n.news.Keys == OwnedBlocks(n.buf) && n.news.Keys !! h.blocks.Keys
    && (forall p: Part :: NewPartOk(h, n, p))
    && (forall p: Part, q: Part ::
          p in n.buf.flags.own && q in n.buf.flags.own && n.buf.parts[p].vp == n.buf.parts[q].vp ==> p == q)
  }

  lemma AddedOwners(h: Heap, n: Birth, b: Ptr, p: Part, v: Ptr)
    requires AddOk(h, n)
    ensures OwnsBlock(Added(h, n), b, p, v) <==>
            if b == n.cb then p in n.buf.flags.own && n.buf.parts[p].vp == v else OwnsBlock(h, b, p, v)
  {
    hide NewPartOk;
  }

  lemma AddPreserves(h: Heap, n: Birth)
    requires AddOk(h, n) && AllOk(h)
    ensures Preserves(h, Added(h, n))
  {
    var h' := Added(h, n);
    hide NewPartOk;
    forall c | c in h.bufs ensures c in h'.bufs && SameShape(h.bufs[c], h'.bufs[c]) { assert BufOk(h, c); }
  }

  lemma AddedNewPart(h: Heap, n: Birth, p: Part)
    requires AddOk(h, n) && AllOk(h)
    ensures PartOk(Added(h, n), n.cb, p)
  {
    var h' := Added(h, n);
    var d := n.buf.parts[p];
    assert NewPartOk(h, n, p);
    AddPreserves(h, n);
    if p !in n.buf.flags.own && d.sz > 0 {
      assert BufOk(h, n.buf.ref);
      PartsOf(h, n.buf.ref, p);
      hide AllOk, AddOk, BufOk;
      assert Rooted(h, n.buf.ref, p, d.vp);
      PreservesRooted(h, h', n.buf.ref, p, d.vp);
    } else {
      hide AllOk;
    }
  }

  lemma AddedAllOk(h: Heap, n: Birth)
    requires AddOk(h, n) && AllOk(h)
    ensures AllOk(Added(h, n))
    ensures forall b :: b in h.bufs ==> SameBytes(h, b, Added(h, n), b)
  {
    var h' := Added(h, n);
    AddPreserves(h, n);
    forall p: Part ensures PartOk(h', n.cb, p) { AddedNewPart(h, n, p); }
    assert BufOk(h', n.cb) by { hide PartOk, AllOk, Preserves; }
    forall b | b in h.bufs ensures BufOk(h', b) && SameBytes(h, b, h', b) {
      hide NewPartOk, Preserves, OwnedBlocks;
      assert BufOk(h, b);
      AddedKeepsBytes(h, n, b);
    }
    hide BufOk, SameBytes, NewPartOk;
    assert h'.bufs.Keys == h.bufs.Keys + {n.cb};
    assert NULL !in OwnedBlocks(n.buf);
  }

  lemma AddedKeepsBytes(h: Heap, n: Birth, b: Ptr)
    requires AddOk(h, n) && AllOk(h) && BufOk(h, b)
    ensures BufOk(Added(h, n), b) && SameBytes(h, b, Added(h, n), b)
  {
    var h' := Added(h, n);
    AddPreserves(h, n);
    PreservesBuf(h, h', b);
    forall p: Part
      ensures PartOk(h, b, p) && PartOk(h', b, p) && PartBytes(h', b, p) == PartBytes(h, b, p)
    {
      PartsOf(h, b, p);
      PartsOf(h', b, p);
      hide AllOk, BufOk, NewPartOk, Preserves;
    }
  }

  lemma NobodyRefersTo(h: Heap, cb: Ptr)
    requires AllOk(h) && cb !in h.bufs && cb != NULL
    ensures forall c :: c in h.bufs ==> h.bufs[c].ref != cb
  {
    forall c | c in h.bufs ensures h.bufs[c].ref != cb {
      assert BufOk(h, c);
      hide PartOk;
    }
  }

  lemma AddedClones(h: Heap, n: Birth, b: Ptr)
    requires n.cb !in h.bufs && n.buf.ref != n.cb && (forall c :: c in h.bufs ==> h.bufs[c].ref != n.cb)
    ensures |Clones(Added(h, n), b)| ==
            if b == n.cb then 0 else if b == n.buf.ref then |Clones(h, b)| + 1 else |Clones(h, b)|
  {
    var clones := Clones(Added(h, n), b);
    forall c ensures c in clones <==> (c in Clones(h, b) && b != n.cb) || (c == n.cb && b == n.buf.ref) {}
    hide Added, Clones;
    if b == n.cb {
      assert clones == {};
    } else if b == n.buf.ref {
      assert n.cb !in Clones(h, b) by { NotAClone(h, b, n.cb); }
      assert clones == Clones(h, b) + {n.cb};
    } else {
      assert clones == Clones(h, b);
    }
  }

  lemma NotAClone(h: Heap, b: Ptr, c: Ptr)
    requires c !in h.bufs
    ensures c !in Clones(h, b)
  {
  }

  lemma AddedCounted(h: Heap, tokens: multiset<Ptr>, n: Birth)
    requires AddOk(h, n) && AllOk(h) && Counted(h, tokens)
    ensures Counted(Added(h, n), tokens + multiset{n.cb})
  {
    var h' := Added(h, n);
    var t' := tokens + multiset{n.cb};
    NobodyRefersTo(h, n.cb);
    NullIsFree(h);
    hide AllOk, NewPartOk, Clones;
    forall b | b in h'.bufs ensures h'.bufs[b].flags.refcnt + 1 == t'[b] + |Clones(h', b)| {
      AddedClones(h, n, b);
    }
  }

  lemma AddedUnique(h: Heap, n: Birth)
    requires AddOk(h, n) && AllOk(h) && UniqueOwners(h)
    ensures UniqueOwners(Added(h, n))
  {
    var h' := Added(h, n);
    forall b, q: Part, b', q': Part, v | v != NULL && OwnsBlock(h', b, q, v) && OwnsBlock(h', b', q', v)
      ensures b == b' && q == q'
    {
      AddedOwners(h, n, b, q, v);
      AddedOwners(h, n, b', q', v);
      OwnedIsLive(h, b, q, v);
      OwnedIsLive(h, b', q', v);
      if b == n.cb { assert NewPartOk(h, n, q); }
      if b' == n.cb { assert NewPartOk(h, n, q'); }
      hide AllOk, OwnsBlock;
    }
  }

  lemma AddedNoOrphans(h: Heap, n: Birth)
    requires AddOk(h, n) && NoOrphans(h)
    ensures NoOrphans(Added(h, n))
  {
    var h' := Added(h, n);
    forall v | v in h'.blocks ensures exists b, q: Part :: OwnsBlock(h', b, q, v) {
      if v in n.news {
        var q: Part :| q in n.buf.flags.own && n.buf.parts[q].vp == v;
        assert OwnsBlock(h', n.cb, q, v);
      } else {
        var b, q: Part :| OwnsBlock(h, b, q, v);
        AddedOwners(h, n, b, q, v);
        assert OwnsBlock(h', b, q, v);
      }
    }
  }

  lemma AddKeepsInv(h: Heap, tokens: multiset<Ptr>, n: Birth)
    requires Inv(h, tokens) && AddOk(h, n)
    ensures Inv(Added(h, n), tokens + multiset{n.cb})
    ensures forall b :: b in h.bufs ==> SameBytes(h, b, Added(h, n), b)
  {
    hide AllOk, Counted, UniqueOwners, NoOrphans, AddOk, SameBytes;
    AddedAllOk(h, n);
    AddedCounted(h, tokens, n);
    AddedUnique(h, n);
    AddedNoOrphans(h, n);
  }
}
