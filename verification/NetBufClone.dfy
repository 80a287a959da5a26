/**
 NutNetBufClonePart: copying or sharing the parts of a buffer, and rolling back when memory runs out.
 */
module NetBufClone {
  import opened NetBuf
  import opened NetBufHeap
  import opened NetBufRelease
  import opened NetBufBirth

  /** The allocator hands out distinct addresses that are not in use. */
  ghost predicate FreshAnswers(h: Heap, a: Ptr, answers: seq<Ptr>) {
    && |answers| == 4
    && a !in h.bufs
    && (forall i :: 0 <= i < 4 ==> answers[i] !in h.blocks)
    && (forall i, j :: 0 <= i < j < 4 && answers[i] != NULL ==> answers[i] != answers[j])
  }

  // ---------------------------------------------------------------- the copy loop

  /** Where part p of the copy stands once it has been visited. */
  ghost predicate CopiedPart(h: Heap, src: Buf, acc: Cloning, inserts: set<Part>, answers: seq<Ptr>, p: Part)
    requires |acc.cb.parts| == 4 && |src.parts| == 4 && |answers| == 4
  {
    var d := acc.cb.parts[p];
    if p in acc.cb.flags.own then
      && d == NbData(answers[p], src.parts[p].sz) && d.sz > 0 && d.vp != NULL && p in inserts
      && d.vp in acc.h.blocks && src.parts[p].vp in h.blocks && d.sz <= |h.blocks[src.parts[p].vp]|
      && acc.h.blocks[d.vp] == h.blocks[src.parts[p].vp][..d.sz]
    else if d.sz > 0 then d == src.parts[p] && p !in inserts && acc.referenced
    else d == NbData(NULL, 0) && (src.parts[p].sz == 0 || acc.failed)
  }

  ghost predicate CopyInv(h: Heap, src: Buf, acc: Cloning, inserts: set<Part>, answers: seq<Ptr>, n: nat) {
    && |acc.cb.parts| == 4 && |src.parts| == 4 && |answers| == 4
    && acc.cb == EmptyBuf().(parts := acc.cb.parts, flags := Flags(0, false, acc.cb.flags.own))
    && acc.h.bufs == h.bufs
    && (forall p: Part :: p < n ==> CopiedPart(h, src, acc, inserts, answers, p))
    && (forall p: Part :: p >= n ==> p !in acc.cb.flags.own && acc.cb.parts[p] == NbData(NULL, 0))
    && acc.h.blocks.Keys == h.blocks.Keys + OwnedBlocks(acc.cb)
    && (forall v :: v in h.blocks ==> acc.h.blocks[v] == h.blocks[v])
    && (acc.referenced ==> exists p: Part :: p !in inserts)
  }

  lemma CopyPartStep(h: Heap, src: Buf, acc: Cloning, inserts: set<Part>, answers: seq<Ptr>, n: Part)
    requires CopyInv(h, src, acc, inserts, answers, n) && FreshAnswers(h, NULL, answers)
    requires src.parts[n].sz > 0 ==> src.parts[n].vp in h.blocks && src.parts[n].sz <= |h.blocks[src.parts[n].vp]|
    ensures CopyPart(acc, src, n, inserts, answers[n]).Ok?
    ensures CopyInv(h, src, CopyPart(acc, src, n, inserts, answers[n]).value, inserts, answers, n + 1)
  {
    var acc' := CopyPart(acc, src, n, inserts, answers[n]).value;
    var d := src.parts[n];
    var a := answers[n];
    if d.sz > 0 && !acc.failed && n in inserts && a != NULL {
      forall p: Part | p in acc.cb.flags.own ensures acc.cb.parts[p].vp != a {
        assert CopiedPart(h, src, acc, inserts, answers, p);
      }
      assert a !in acc.h.blocks;
      assert OwnedBlocks(acc'.cb) == OwnedBlocks(acc.cb) + {a} by {
        assert acc'.cb.parts[n].vp == a;
        forall p: Part | p != n ensures acc'.cb.parts[p] == acc.cb.parts[p] {}
      }
    } else {
      assert OwnedBlocks(acc'.cb) == OwnedBlocks(acc.cb);
    }
    forall p: Part | p < n + 1 ensures CopiedPart(h, src, acc', inserts, answers, p) {
      if p < n { assert CopiedPart(h, src, acc, inserts, answers, p); }
    }
  }

  lemma {:induction false} CopyPartsEffect(h: Heap, src: Buf, acc: Cloning, inserts: set<Part>, answers: seq<Ptr>,
                                           n: nat)
    requires n <= 4 && CopyInv(h, src, acc, inserts, answers, n) && FreshAnswers(h, NULL, answers)
    requires forall p: Part :: src.parts[p].sz > 0 ==>
               src.parts[p].vp in h.blocks && src.parts[p].sz <= |h.blocks[src.parts[p].vp]|
    ensures CopyParts(acc, src, n, inserts, answers).Ok?
    ensures CopyInv(h, src, CopyParts(acc, src, n, inserts, answers).value, inserts, answers, 4)
    decreases 4 - n
  {
    if n < 4 {
      CopyPartStep(h, src, acc, inserts, answers, n);
      hide CopyInv, FreshAnswers, CopyPart;
      CopyPartsEffect(h, src, CopyPart(acc, src, n, inserts, answers[n]).value, inserts, answers, n + 1);
    }
  }

  /** The finished copy loop, from the start, on a heap that satisfies the invariant. */
  lemma CopyAll(h: Heap, nb: Ptr, inserts: set<Part>, answers: seq<Ptr>) returns (acc: Cloning)
    requires AllOk(h) && nb in h.bufs && FreshAnswers(h, NULL, answers)
    ensures |h.bufs[nb].parts| == 4
    ensures CopyParts(Cloning(h, EmptyBuf(), false, false), h.bufs[nb], 0, inserts, answers) == Ok(acc)
    ensures CopyInv(h, h.bufs[nb], acc, inserts, answers, 4)
  {
    var src := h.bufs[nb];
    assert BufOk(h, nb);
    hide AllOk;
    forall p: Part | src.parts[p].sz > 0
      ensures src.parts[p].vp in h.blocks && src.parts[p].sz <= |h.blocks[src.parts[p].vp]|
    {
      PartsOf(h, nb, p);
    }
    hide BufOk;
    var start := Cloning(h, EmptyBuf(), false, false);
    assert OwnedBlocks(start.cb) == {};
    assert CopyInv(h, src, start, inserts, answers, 0);
    hide CopyInv, CopyParts;
    CopyPartsEffect(h, src, start, inserts, answers, 0);
    acc := CopyParts(start, src, 0, inserts, answers).value;
  }

  // ---------------------------------------------------------------- rolling back

  /** Releasing the half-built copy gives the heap back exactly as it was. */
  lemma RollbackRestores(h: Heap, src: Buf, acc: Cloning, inserts: set<Part>, answers: seq<Ptr>, a: Ptr)
    requires CopyInv(h, src, acc, inserts, answers, 4) && FreshAnswers(h, a, answers) && a != NULL
    ensures FreeBuf(acc.h.(bufs := acc.h.bufs[a := acc.cb]), a) == Ok(h)
  {
    var g := acc.h.(bufs := acc.h.bufs[a := acc.cb]);
    forall p: Part | p in acc.cb.flags.own
      ensures acc.cb.parts[p].vp == answers[p] && answers[p] != NULL && answers[p] in g.blocks
    {
      assert CopiedPart(h, src, acc, inserts, answers, p);
    }
    FreeAllParts(g, acc.cb);
    FreeUnshared(g, a, g.(blocks := g.blocks - OwnedBlocks(acc.cb)));
    assert OwnedBlocks(acc.cb) !! h.blocks.Keys;
    hide FreeBuf, FreeParts, CopiedPart, OwnedBlocks;
    assert g.blocks - OwnedBlocks(acc.cb) == h.blocks;
    assert g.bufs - {a} == h.bufs;
  }

  // ---------------------------------------------------------------- finishing

  /** The new structure once its origin link is in place, and the blocks made for it. */
  function Finished(h: Heap, nb: Ptr, a: Ptr, acc: Cloning): Birth
    requires nb in h.bufs
  {
    Birth(a, if acc.referenced then acc.cb.(ref := nb, depth := h.bufs[nb].depth + 1) else acc.cb,
          acc.h.blocks - h.blocks.Keys)
  }

  lemma FinishedPart(h: Heap, nb: Ptr, acc: Cloning, ins: set<Part>, answers: seq<Ptr>, a: Ptr, p: Part)
    requires nb in h.bufs && FreshAnswers(h, a, answers) && CopyInv(h, h.bufs[nb], acc, ins, answers, 4) && !acc.failed
    ensures NewPartOk(h, Finished(h, nb, a, acc), p)
    ensures p in acc.cb.flags.own ==> acc.cb.parts[p].vp == answers[p] && answers[p] != NULL
  {
    assert CopiedPart(h, h.bufs[nb], acc, ins, answers, p);
  }

  lemma FinishedAddOk(h: Heap, nb: Ptr, acc: Cloning, inserts: set<Part>, answers: seq<Ptr>, a: Ptr)
    requires AllOk(h) && nb in h.bufs && FreshAnswers(h, a, answers) && a != NULL && |h.bufs[nb].parts| == 4
    requires CopyInv(h, h.bufs[nb], acc, Inserts(h.bufs[nb], inserts), answers, 4) && !acc.failed
    ensures AddOk(h, Finished(h, nb, a, acc))
  {
    hide AllOk, BufOk, CopiedPart, NewPartOk, CopyParts, OwnedBlocks, FreshAnswers;
    var n := Finished(h, nb, a, acc);
    CountFits(h, nb);
    FreshStructure(h, a, answers);
    NullIsFree(h);
    forall p: Part
      ensures NewPartOk(h, n, p) && (p in acc.cb.flags.own ==> acc.cb.parts[p].vp == answers[p] && answers[p] != NULL)
    {
      FinishedPart(h, nb, acc, Inserts(h.bufs[nb], inserts), answers, a, p);
    }
    SameOwned(acc.cb, n.buf);
    OwnedAreNew(h, acc.cb, answers);
    assert n.news.Keys == OwnedBlocks(n.buf);
  }

  lemma CountFits(h: Heap, b: Ptr)
    requires AllOk(h) && b in h.bufs
    ensures h.bufs[b].flags.refcnt <= MAX_REFS
  {
    assert BufOk(h, b);
  }

  lemma FreshStructure(h: Heap, a: Ptr, answers: seq<Ptr>)
    requires FreshAnswers(h, a, answers)
    ensures a !in h.bufs && |answers| == 4
    ensures forall i, j :: 0 <= i < j < 4 && answers[i] != NULL ==> answers[i] != answers[j]
    ensures forall i :: 0 <= i < 4 ==> answers[i] !in h.blocks
  {
  }

  lemma SameOwned(x: Buf, y: Buf)
    requires x.parts == y.parts && x.flags == y.flags && |x.parts| == 4
    ensures OwnedBlocks(x) == OwnedBlocks(y)
  {
  }

  lemma OwnedAreNew(h: Heap, cb: Buf, answers: seq<Ptr>)
    requires |cb.parts| == 4 && |answers| == 4 && forall i :: 0 <= i < 4 ==> answers[i] !in h.blocks
    requires forall p: Part :: p in cb.flags.own ==> cb.parts[p].vp == answers[p]
    ensures OwnedBlocks(cb) !! h.blocks.Keys
  {
  }

  lemma FinishedIsAdded(h: Heap, nb: Ptr, acc: Cloning, ins: set<Part>, answers: seq<Ptr>, a: Ptr)
    requires nb in h.bufs && NULL !in h.bufs && a !in h.bufs && CopyInv(h, h.bufs[nb], acc, ins, answers, 4)
    ensures Added(h, Finished(h, nb, a, acc)) ==
            if acc.referenced then
              acc.h.(bufs := acc.h.bufs[nb := OneMore(h.bufs[nb])][a := Finished(h, nb, a, acc).buf])
            else acc.h.(bufs := acc.h.bufs[a := acc.cb])
  {
    hide CopiedPart;
    assert h.blocks + (acc.h.blocks - h.blocks.Keys) == acc.h.blocks;
  }

  /** What a clone does: nothing at all when memory runs out, otherwise it adds one buffer. */
  lemma CloneOutcome(h: Heap, nb: Ptr, inserts: set<Part>, a: Ptr, answers: seq<Ptr>) returns (acc: Cloning)
    requires AllOk(h) && nb in h.bufs && FreshAnswers(h, a, answers) && a != NULL
    ensures |h.bufs[nb].parts| == 4
    ensures CopyInv(h, h.bufs[nb], acc, Inserts(h.bufs[nb], inserts), answers, 4)
    ensures ClonePart(h, nb, inserts, a, answers) ==
            if acc.failed then Ok((h, NULL)) else Ok((Added(h, Finished(h, nb, a, acc)), a))
  {
    NullIsFree(h);
    assert FreshAnswers(h, NULL, answers);
    hide AllOk, CopyInv, FreeBuf, CopyParts, Added, FreshAnswers;
    var ins := Inserts(h.bufs[nb], inserts);
    acc := CopyAll(h, nb, ins, answers);
    if acc.failed {
      RollbackRestores(h, h.bufs[nb], acc, ins, answers, a);
    } else {
      FinishedIsAdded(h, nb, acc, ins, answers, a);
    }
  }

  function CloneTokens(tokens: multiset<Ptr>, result: Ptr): multiset<Ptr> {
    if result == NULL then tokens else tokens + multiset{result}
  }

  /** No fault, the invariant, every older buffer shows what it showed; a clone that fails changes nothing. */
  ghost predicate CloneDone(h: Heap, tokens: multiset<Ptr>, a: Ptr, r: Outcome<(Heap, Ptr)>) {
    && r.Ok?
    && Inv(r.value.0, CloneTokens(tokens, r.value.1))
    && (r.value.1 == NULL ==> r.value.0 == h)
    && (r.value.1 != NULL ==> r.value.1 == a && forall b :: b in h.bufs ==> SameBytes(h, b, r.value.0, b))
  }

  lemma CloneKeepsInv(h: Heap, tokens: multiset<Ptr>, nb: Ptr, inserts: set<Part>, a: Ptr, answers: seq<Ptr>)
    requires Inv(h, tokens) && nb in tokens && FreshAnswers(h, a, answers)
    ensures CloneDone(h, tokens, a, ClonePart(h, nb, inserts, a, answers))
  {
    InvTokens(h, tokens);
    PartsOf(h, nb, 0);
    if a != NULL {
      hide BufOk, SameBytes, AllOk, CopyInv, Added, AddOk, ClonePart, FreshAnswers;
      var acc := CloneOutcome(h, nb, inserts, a, answers);
      if !acc.failed {
        FinishedAddOk(h, nb, acc, inserts, answers, a);
        hide Inv;
        AddKeepsInv(h, tokens, Finished(h, nb, a, acc));
      }
    }
  }

  // ---------------------------------------------------------------- what the clone shows

  lemma CopiedBytes(h: Heap, nb: Ptr, acc: Cloning, ins: set<Part>, answers: seq<Ptr>, a: Ptr, p: Part)
    requires nb in h.bufs && CopyInv(h, h.bufs[nb], acc, ins, answers, 4) && !acc.failed && a !in h.bufs &&
             NULL !in h.bufs
    requires PartOk(h, nb, p) && PartOk(Added(h, Finished(h, nb, a, acc)), a, p)
    ensures PartBytes(Added(h, Finished(h, nb, a, acc)), a, p) == PartBytes(h, nb, p)
    ensures p in Added(h, Finished(h, nb, a, acc)).bufs[a].flags.own <==> h.bufs[nb].parts[p].sz > 0 && p in ins
  {
    assert CopiedPart(h, h.bufs[nb], acc, ins, answers, p);
    FinishedIsAdded(h, nb, acc, ins, answers, a);
    hide Rooted;
  }

  /** The part was asked to be copied, or the source has no reference left to give. */
  predicate Asked(src: Buf, inserts: set<Part>, p: Part) {
    p in inserts || src.flags.refcnt == MAX_REFS
  }

  /** The clone shows exactly the bytes of its source, and owns exactly the non-empty parts it was asked to copy. */
  lemma CloneCopiesBytes(h: Heap, tokens: multiset<Ptr>, nb: Ptr, inserts: set<Part>, a: Ptr, answers: seq<Ptr>)
    requires Inv(h, tokens) && nb in tokens && FreshAnswers(h, a, answers)
    requires ClonePart(h, nb, inserts, a, answers).Ok? && ClonePart(h, nb, inserts, a, answers).value.1 != NULL
    ensures var h' := ClonePart(h, nb, inserts, a, answers).value.0;
            && SameBytes(h, nb, h', a) && a in h'.bufs && nb in h.bufs && |h.bufs[nb].parts| == 4
            && forall p: Part ::
                 p in h'.bufs[a].flags.own <==> h.bufs[nb].parts[p].sz > 0 && Asked(h.bufs[nb], inserts, p)
  {
    hide Inv, CopyInv, BufOk, PartOk, ClonePart, CloneDone, Added, Inserts;
    CloneKeepsInv(h, tokens, nb, inserts, a, answers);
    InvTokens(h, tokens);
    InvAllOk(h, tokens);
    PartsOf(h, nb, 0);
    CloneAddress(h, nb, inserts, a, answers);
    var acc := CloneOutcome(h, nb, inserts, a, answers);
    var h' := Added(h, Finished(h, nb, a, acc));
    AddedIsThere(h, Finished(h, nb, a, acc));
    CloneDoneKeeps(h, tokens, a, ClonePart(h, nb, inserts, a, answers));
    InvOk(h', tokens + multiset{a});
    forall p: Part
      ensures PartOk(h, nb, p) && PartOk(h', a, p) && PartBytes(h', a, p) == PartBytes(h, nb, p)
      ensures p in h'.bufs[a].flags.own <==> h.bufs[nb].parts[p].sz > 0 && Asked(h.bufs[nb], inserts, p)
    {
      PartsOf(h, nb, p);
      PartsOf(h', a, p);
      CopiedBytes(h, nb, acc, Inserts(h.bufs[nb], inserts), answers, a, p);
      AskedIsInserted(h.bufs[nb], inserts, p);
    }
  }

  lemma InvAllOk(h: Heap, tokens: multiset<Ptr>)
    requires Inv(h, tokens)
    ensures AllOk(h) && NULL !in h.bufs
  {
    hide Counted, UniqueOwners, NoOrphans, BufOk;
  }

  lemma CloneAddress(h: Heap, nb: Ptr, inserts: set<Part>, a: Ptr, answers: seq<Ptr>)
    requires FreshAnswers(h, a, answers) && ClonePart(h, nb, inserts, a, answers).Ok?
    requires ClonePart(h, nb, inserts, a, answers).value.1 != NULL
    ensures a != NULL && a !in h.bufs
  {
    hide CopyParts, FreeBuf, Inserts;
  }

  lemma AddedIsThere(h: Heap, n: Birth)
    ensures n.cb in Added(h, n).bufs
  {
  }

  lemma CloneDoneKeeps(h: Heap, tokens: multiset<Ptr>, a: Ptr, r: Outcome<(Heap, Ptr)>)
    requires CloneDone(h, tokens, a, r) && r.value.1 != NULL
    ensures r.value.1 == a && Inv(r.value.0, tokens + multiset{a})
  {
    hide Inv;
  }

  lemma AskedIsInserted(src: Buf, inserts: set<Part>, p: Part)
    ensures Asked(src, inserts, p) <==> p in Inserts(src, inserts)
  {
  }
}
