/**
 NutNetBufCollect: merging the front of a queue of network buffers into its head.
 */
module NetBufQueue {
  import opened Machine
  import opened NetBuf
  import opened NetBufHeap
  import opened NetBufRelease
  import opened NetBufResize

  function ApSize(h: Heap, b: Ptr): nat {
    if b in h.bufs && |h.bufs[b].parts| == 4 then h.bufs[b].parts[APPLICATION].sz else 0
  }

  function TotalSize(h: Heap, q: seq<Ptr>): nat {
    if q == [] then 0 else ApSize(h, q[0]) + TotalSize(h, q[1..])
  }

  /** Application bytes of one buffer, as memcpy would fetch them. */
  function ApBytes(h: Heap, b: Ptr): Outcome<seq<Byte>> {
    if b !in h.bufs || |h.bufs[b].parts| != 4 then Fault
    else
      var d := h.bufs[b].parts[APPLICATION];
      if d.sz == 0 then Ok([])
      else if d.vp in h.blocks && d.sz <= |h.blocks[d.vp]| then Ok(h.blocks[d.vp][..d.sz])
      else Fault
  }

  /** The application bytes of a whole queue, front to back. */
  function QueueBytes(h: Heap, q: seq<Ptr>): seq<Byte> {
    if q == [] then []
    else ApBytes(h, q[0]).GetOr([]) + QueueBytes(h, q[1..])
  }

  /** Following nb_next from first visits exactly q. */
  predicate Linked(h: Heap, first: Ptr, q: seq<Ptr>)
    decreases |q|
  {
    if q == [] then first == NULL
    else first == q[0] && first != NULL && first in h.bufs && Linked(h, h.bufs[first].next, q[1..])
  }

  function First(q: seq<Ptr>): Ptr {
    if q == [] then NULL else q[0]
  }

  /** Progress of NutNetBufCollect: buffers not reached yet, bytes gathered, buffers released. */
  datatype Gather = Gather(h: Heap, rest: seq<Ptr>, bytes: seq<Byte>, released: nat)

  /** The loop of NutNetBufCollect. */
  function CollectLoop(g: Gather, total: nat): (r: Outcome<Gather>)
    ensures r.Ok? ==> r.value.released + |r.value.rest| == g.released + |g.rest|
    decreases |g.rest|
  {
    if g.rest == [] || |g.bytes| + ApSize(g.h, g.rest[0]) > total then Ok(g)
    else
      var bytes :- ApBytes(g.h, g.rest[0]);
      var h1 :- FreeBuf(g.h, g.rest[0]);
      CollectLoop(Gather(h1, g.rest[1..], g.bytes + bytes, g.released + 1), total)
  }

  function Relinked(h: Heap, n: Ptr, next: Ptr): Heap
    requires n in h.bufs
  {
    h.(bufs := h.bufs[n := h.bufs[n].(next := next)])
  }

  /** The head's application part becomes block a, which holds the gathered bytes and then leftovers. */
  function HeadEdit(h: Heap, nbq: Ptr, a: Ptr, bytes: seq<Byte>, total: nat, fill: Byte): Edit
    requires nbq in h.bufs && |bytes| <= total
  {
    Edit(nbq, APPLICATION, NbData(a, |bytes|), h.bufs[nbq].flags.own + {APPLICATION},
         bytes + FreshBlock(total - |bytes|, fill))
  }

  /**
   NutNetBufCollect(nbq, total) for the queue [nbq] + rest; a is the allocator's answer and fill what
   the fresh block contained.  Gives the new heap and the number of buffers released.
   */
  function Collect(h: Heap, nbq: Ptr, rest: seq<Ptr>, total: nat, a: Ptr, fill: Byte): (r: Outcome<(Heap, nat)>)
    ensures r.Ok? ==> r.value.1 <= |rest|
  {
    if a == NULL then Ok((h, 0))
    else
      var bytes :- ApBytes(h, nbq);
      if |bytes| > total then Fault
      else
        var g :- CollectLoop(Gather(h, rest, bytes, 0), total);
        if nbq !in g.h.bufs || |g.h.bufs[nbq].parts| != 4 || |g.bytes| > total then Fault
        else if APPLICATION in g.h.bufs[nbq].flags.own &&
                FreeBlock(g.h, g.h.bufs[nbq].parts[APPLICATION].vp).Fault? then Fault
        else
          var h1 := Relinked(g.h, nbq, First(g.rest));
          Ok((Replaced(h1, HeadEdit(h1, nbq, a, g.bytes, total, fill)), g.released))
  }

  // ---------------------------------------------------------------- releasing the buffers of the queue

  /** Only the count may differ. */
  predicate Untouched(h: Heap, h': Heap, c: Ptr) {
    c in h.bufs && c in h'.bufs &&
    h'.bufs[c] == h.bufs[c].(flags := h.bufs[c].flags.(refcnt := h'.bufs[c].flags.refcnt))
  }

  /** From h to h' buffers only disappear; the survivors are untouched and show the same bytes. */
  ghost predicate Fewer(h: Heap, h': Heap) {
    h'.blocks.Keys <= h.blocks.Keys &&
    forall c :: c in h'.bufs ==> SameBytes(h, c, h', c) && Untouched(h, h', c)
  }

  lemma ApBytesOfOk(h: Heap, b: Ptr)
    requires BufOk(h, b)
    ensures PartOk(h, b, APPLICATION) && ApBytes(h, b) == Ok(PartBytes(h, b, APPLICATION))
    ensures |ApBytes(h, b).value| == ApSize(h, b)
  {
    PartsOf(h, b, APPLICATION);
    hide BufOk, Rooted;
  }

  lemma ReleaseNext(h: Heap, tokens: multiset<Ptr>, b: Ptr)
    requires Inv(h, tokens) && b in tokens
    ensures FreeBuf(h, b).Ok?
    ensures Inv(FreeBuf(h, b).value, tokens - multiset{b}) && Fewer(h, FreeBuf(h, b).value)
  {
    hide Inv, SameBytes;
    FreeKeepsInv(h, tokens, b);
    FreeFrame(h, b, map[], map[]);
    forall c | c in FreeBuf(h, b).value.bufs ensures Untouched(h, FreeBuf(h, b).value, c) {
      FreeOnlyLowersCounts(h, b, c);
    }
  }

  lemma FewerTransitive(h: Heap, h1: Heap, h2: Heap)
    requires Fewer(h, h1) && Fewer(h1, h2)
    ensures Fewer(h, h2)
  {
    forall c | c in h2.bufs ensures SameBytes(h, c, h2, c) && Untouched(h, h2, c) {
      assert SameBytes(h1, c, h2, c) && Untouched(h1, h2, c);
      assert SameBytes(h, c, h1, c) && Untouched(h, h1, c);
      hide Fewer, SameBytes;
      SameBytesTransitive(h, h1, h2, c);
    }
  }

  lemma FewerKeepsAp(h: Heap, h': Heap, b: Ptr)
    requires Fewer(h, h') && BufOk(h', b)
    ensures ApBytes(h', b) == ApBytes(h, b) && ApSize(h', b) == ApSize(h, b)
  {
    assert SameBytes(h, b, h', b) && Untouched(h, h', b);
    ApBytesOfOk(h', b);
    hide BufOk, Fewer;
    assert PartOk(h, b, APPLICATION) && PartBytes(h', b, APPLICATION) == PartBytes(h, b, APPLICATION);
    hide SameBytes, Rooted;
  }

  lemma {:induction false} FewerKeepsQueue(h: Heap, h': Heap, q: seq<Ptr>)
    requires Fewer(h, h') && forall b :: b in q ==> BufOk(h', b)
    ensures QueueBytes(h', q) == QueueBytes(h, q) && TotalSize(h', q) == TotalSize(h, q)
  {
    if q != [] {
      hide Fewer, BufOk, ApBytes, ApSize;
      assert q[0] in q;
      FewerKeepsAp(h, h', q[0]);
      FewerKeepsQueue(h, h', q[1..]);
    }
  }

  lemma HeldAreAlive(h: Heap, tokens: multiset<Ptr>, q: seq<Ptr>)
    requires Inv(h, tokens) && multiset(q) <= tokens
    ensures forall b :: b in q ==> b in h.bufs && b in tokens && BufOk(h, b)
  {
    InvTokens(h, tokens);
    hide Inv, BufOk;
    forall b | b in q ensures b in tokens { assert b in multiset(q); }
  }

  lemma SplitFirst(q: seq<Ptr>, k: nat)
    requires q != [] && k <= |q[1..]|
    ensures q[..k + 1] == [q[0]] + q[1..][..k] && multiset(q[..k + 1]) == multiset{q[0]} + multiset(q[1..][..k])
    ensures q[k + 1..] == q[1..][k..]
    ensures multiset(q) == multiset{q[0]} + multiset(q[1..])
  {
    assert q == [q[0]] + q[1..];
  }

  // ---------------------------------------------------------------- the loop

  /** k is the largest number of buffers at the front of q whose bytes still fit behind the used ones. */
  ghost predicate LongestFit(h: Heap, q: seq<Ptr>, used: nat, total: nat, k: nat) {
    k <= |q| && used + TotalSize(h, q[..k]) <= total &&
    (k < |q| ==> used + TotalSize(h, q[..k + 1]) > total)
  }

  /** The first k buffers of q have been released and their bytes gathered; the others are as before. */
  ghost predicate Gathered(h: Heap, tokens: multiset<Ptr>, q: seq<Ptr>, bytes: seq<Byte>, g: Gather, k: nat) {
    && k <= |q| && g.rest == q[k..]
    && Inv(g.h, tokens - multiset(q[..k]))
    && g.bytes == bytes + QueueBytes(h, q[..k])
    && Fewer(h, g.h)
  }

  /** Sizes and bytes of a prefix, taken apart after its first buffer has been released. */
  lemma PrefixSplit(h: Heap, h1: Heap, tokens: multiset<Ptr>, q: seq<Ptr>, j: nat)
    requires q != [] && j <= |q[1..]| && Inv(h1, tokens) && multiset(q[1..]) <= tokens && Fewer(h, h1)
    ensures QueueBytes(h, q[..j + 1]) == ApBytes(h, q[0]).GetOr([]) + QueueBytes(h1, q[1..][..j])
    ensures TotalSize(h, q[..j + 1]) == ApSize(h, q[0]) + TotalSize(h1, q[1..][..j])
  {
    HeldAreAlive(h1, tokens, q[1..]);
    hide Inv, BufOk, Fewer, ApBytes, ApSize;
    SplitFirst(q, j);
    forall b | b in q[1..][..j] ensures BufOk(h1, b) { assert b in q[1..]; }
    FewerKeepsQueue(h, h1, q[1..][..j]);
    assert q[..j + 1][1..] == q[1..][..j];
  }

  /** Composing the first release with what the rest of the loop does. */
  lemma GatherCompose(h: Heap, h1: Heap, tokens: multiset<Ptr>, q: seq<Ptr>, bytes: seq<Byte>, first: seq<Byte>,
                      g: Gather, k: nat)
    requires q != [] && multiset(q) <= tokens && Inv(h1, tokens - multiset{q[0]}) && Fewer(h, h1)
    requires ApBytes(h, q[0]) == Ok(first)
    requires Gathered(h1, tokens - multiset{q[0]}, q[1..], bytes + first, g, k)
    ensures Gathered(h, tokens, q, bytes, g, k + 1)
  {
    hide Inv, Fewer, QueueBytes, ApBytes;
    SplitFirst(q, k);
    PrefixSplit(h, h1, tokens - multiset{q[0]}, q, k);
    FewerTransitive(h, h1, g.h);
    assert bytes + first + QueueBytes(h1, q[1..][..k]) == bytes + (first + QueueBytes(h1, q[1..][..k]));
    assert tokens - multiset{q[0]} - multiset(q[1..][..k]) == tokens - multiset(q[..k + 1]);
  }

  lemma FitCompose(h: Heap, h1: Heap, tokens: multiset<Ptr>, q: seq<Ptr>, used: nat, total: nat, k: nat)
    requires q != [] && Inv(h1, tokens) && multiset(q[1..]) <= tokens && Fewer(h, h1)
    requires LongestFit(h1, q[1..], used + ApSize(h, q[0]), total, k)
    ensures LongestFit(h, q, used, total, k + 1)
  {
    hide Inv, Fewer, TotalSize, ApSize;
    PrefixSplit(h, h1, tokens, q, k);
    if k < |q[1..]| { PrefixSplit(h, h1, tokens, q, k + 1); }
  }

  lemma FewerReflexive(h: Heap, tokens: multiset<Ptr>)
    requires Inv(h, tokens)
    ensures Fewer(h, h)
  {
    InvOk(h, tokens);
    hide Inv, BufOk;
    forall b, p: Part | b in h.bufs ensures PartOk(h, b, p) { PartsOf(h, b, p); }
  }

  lemma NothingGathered(h: Heap, tokens: multiset<Ptr>, q: seq<Ptr>, bytes: seq<Byte>, released: nat, total: nat)
    requires Inv(h, tokens) && |bytes| <= total && (q == [] || |bytes| + ApSize(h, q[0]) > total)
    ensures Gathered(h, tokens, q, bytes, Gather(h, q, bytes, released), 0)
    ensures LongestFit(h, q, |bytes|, total, 0)
  {
    FewerReflexive(h, tokens);
    hide Inv, ApSize, Fewer, ApBytes;
    assert q[..0] == [] && q[0..] == q;
    assert tokens - multiset(q[..0]) == tokens;
    assert bytes + QueueBytes(h, q[..0]) == bytes;
    if q != [] { assert q[..1] == [q[0]] && q[..1][1..] == []; }
  }

  /** The loop releases exactly the longest prefix that fits, in order, and gathers exactly its bytes. */
  lemma {:induction false} LoopGathers(h: Heap, tokens: multiset<Ptr>, q: seq<Ptr>, bytes: seq<Byte>, released: nat,
                                       total: nat)
    returns (k: nat)
    requires Inv(h, tokens) && multiset(q) <= tokens && |bytes| <= total
    ensures CollectLoop(Gather(h, q, bytes, released), total).Ok?
    ensures var g := CollectLoop(Gather(h, q, bytes, released), total).value;
            && Gathered(h, tokens, q, bytes, g, k) && g.released == released + k
            && LongestFit(h, q, |bytes|, total, k)
    decreases |q|
  {
    hide Inv, Gathered, BufOk, FreeBuf, ApBytes, LongestFit, Fewer, CollectLoop;
    LoopUnfolds(h, q, bytes, released, total);
    if q == [] || |bytes| + ApSize(h, q[0]) > total {
      k := 0;
      NothingGathered(h, tokens, q, bytes, released, total);
    } else {
      var h1, first := LoopStep(h, tokens, q);
      var k1 := LoopGathers(h1, tokens - multiset{q[0]}, q[1..], bytes + first, released + 1, total);
      k := k1 + 1;
      var g := CollectLoop(Gather(h1, q[1..], bytes + first, released + 1), total).value;
      GatherCompose(h, h1, tokens, q, bytes, first, g, k1);
      FitCompose(h, h1, tokens - multiset{q[0]}, q, |bytes|, total, k1);
    }
  }

  lemma LoopUnfolds(h: Heap, q: seq<Ptr>, bytes: seq<Byte>, released: nat, total: nat)
    ensures CollectLoop(Gather(h, q, bytes, released), total) ==
            if q == [] || |bytes| + ApSize(h, q[0]) > total then Ok(Gather(h, q, bytes, released))
            else if ApBytes(h, q[0]).Fault? || FreeBuf(h, q[0]).Fault? then Fault
            else CollectLoop(Gather(FreeBuf(h, q[0]).value, q[1..], bytes + ApBytes(h, q[0]).value, released + 1),
                             total)
  {
    hide FreeBuf, ApBytes, ApSize;
  }

  /** Fetching the bytes of the first buffer and releasing it. */
  lemma LoopStep(h: Heap, tokens: multiset<Ptr>, q: seq<Ptr>) returns (h1: Heap, first: seq<Byte>)
    requires Inv(h, tokens) && q != [] && multiset(q) <= tokens
    ensures ApBytes(h, q[0]) == Ok(first) && |first| == ApSize(h, q[0]) && FreeBuf(h, q[0]) == Ok(h1)
    ensures Inv(h1, tokens - multiset{q[0]}) && Fewer(h, h1) && multiset(q[1..]) <= tokens - multiset{q[0]}
  {
    hide Inv, BufOk, FreeBuf, ApBytes, Fewer, ApSize;
    HeldAreAlive(h, tokens, q);
    assert q[0] in q;
    ApBytesOfOk(h, q[0]);
    ReleaseNext(h, tokens, q[0]);
    SplitFirst(q, 0);
    h1 := FreeBuf(h, q[0]).value;
    first := ApBytes(h, q[0]).value;
  }

  // ---------------------------------------------------------------- installing the merged block

  lemma RelinkKeepsInv(h: Heap, tokens: multiset<Ptr>, n: Ptr, next: Ptr)
    requires Inv(h, tokens) && n in h.bufs
    ensures Inv(Relinked(h, n, next), tokens)
  {
    hide Counted, Preserves, AllOk, UniqueOwners, NoOrphans, BufOk;
    RelinkCounted(h, tokens, n, next);
    InvOk(h, tokens);
    RelinkPreserves(h, n, next);
    RetouchKeepsInv(h, tokens, Relinked(h, n, next), tokens);
  }

  lemma RelinkCounted(h: Heap, tokens: multiset<Ptr>, n: Ptr, next: Ptr)
    requires Counted(h, tokens) && n in h.bufs
    ensures Counted(Relinked(h, n, next), tokens)
  {
    hide Clones;
    var h' := Relinked(h, n, next);
    forall b | b in h'.bufs ensures h'.bufs[b].flags.refcnt + 1 == tokens[b] + |Clones(h', b)| {
      SameLinksSameClones(h, h', b);
    }
  }

  lemma RelinkPreserves(h: Heap, n: Ptr, next: Ptr)
    requires n in h.bufs && forall b :: b in h.bufs ==> BufOk(h, b)
    ensures Preserves(h, Relinked(h, n, next))
  {
    hide PartOk;
    forall b | b in h.bufs ensures SameShape(h.bufs[b], Relinked(h, n, next).bufs[b]) { assert BufOk(h, b); }
  }

  /** The edit that gives the head its merged block is sound as long as nobody else lives on the old one. */
  lemma HeadEditOk(h: Heap, tokens: multiset<Ptr>, nbq: Ptr, next: Ptr, a: Ptr, bytes: seq<Byte>, total: nat,
                   fill: Byte)
    requires Inv(h, tokens) && nbq in h.bufs && SoleUser(h, nbq, APPLICATION) && |bytes| <= total && a != NULL &&
             a !in h.blocks
    ensures var h1 := Relinked(h, nbq, next);
            ReplaceOk(h1, HeadEdit(h1, nbq, a, bytes, total, fill)) && Inv(h1, tokens)
  {
    hide AllOk, Counted, UniqueOwners, NoOrphans, SoleUser, OwnsBlock;
    RelinkKeepsInv(h, tokens, nbq, next);
    RelinkSoleUser(h, nbq, next);
  }

  lemma RelinkSoleUser(h: Heap, nbq: Ptr, next: Ptr)
    requires nbq in h.bufs && SoleUser(h, nbq, APPLICATION)
    ensures SoleUser(Relinked(h, nbq, next), nbq, APPLICATION) && |h.bufs[nbq].parts| == 4
  {
    var v := h.bufs[nbq].parts[APPLICATION].vp;
    forall c | c != nbq && APPLICATION in h.bufs[nbq].flags.own
      ensures !Borrows(Relinked(h, nbq, next), c, APPLICATION, v)
    {
      assert !Borrows(h, c, APPLICATION, v);
    }
  }

  /** Nobody else lived on the head's block before, and releasing other buffers adds no users. */
  lemma FewerKeepsSoleUser(h: Heap, h': Heap, n: Ptr, p: Part)
    requires Fewer(h, h') && SoleUser(h, n, p) && n in h'.bufs
    ensures SoleUser(h', n, p)
  {
    assert Untouched(h, h', n);
    forall c | c != n && p in h'.bufs[n].flags.own ensures !Borrows(h', c, p, h'.bufs[n].parts[p].vp) {
      assert !Borrows(h, c, p, h.bufs[n].parts[p].vp);
      if c in h'.bufs { assert Untouched(h, h', c); }
      hide Fewer;
    }
  }

  // ---------------------------------------------------------------- NutNetBufCollect

  lemma {:induction false} LinkedSuffix(h: Heap, first: Ptr, q: seq<Ptr>, k: nat)
    requires Linked(h, first, q) && k <= |q|
    ensures Linked(h, First(q[k..]), q[k..])
    decreases |q|
  {
    if k > 0 {
      LinkedSuffix(h, h.bufs[first].next, q[1..], k - 1);
      assert q[1..][k - 1..] == q[k..];
    } else {
      assert q[k..] == q;
    }
  }

  lemma {:induction false} LinkedSame(h: Heap, h': Heap, first: Ptr, q: seq<Ptr>)
    requires Linked(h, first, q)
    requires forall b :: b in q && b in h.bufs ==> b in h'.bufs && h'.bufs[b].next == h.bufs[b].next
    ensures Linked(h', first, q)
    decreases |q|
  {
    if q != [] {
      assert first in q;
      LinkedSame(h, h', h.bufs[first].next, q[1..]);
    }
  }

  /** The bytes of a queue do not depend on buffers outside it. */
  lemma {:induction false} QueueSame(h: Heap, h': Heap, q: seq<Ptr>)
    requires forall b :: b in q ==> SameBytes(h, b, h', b) && BufOk(h, b) && BufOk(h', b)
    ensures QueueBytes(h', q) == QueueBytes(h, q)
  {
    if q != [] {
      var b := q[0];
      assert b in q;
      ApBytesOfOk(h, b);
      ApBytesOfOk(h', b);
      assert PartBytes(h', b, APPLICATION) == PartBytes(h, b, APPLICATION);
      hide SameBytes, BufOk, ApBytes;
      QueueSame(h, h', q[1..]);
    }
  }

  lemma {:induction false} QueueConcat(h: Heap, q1: seq<Ptr>, q2: seq<Ptr>)
    ensures QueueBytes(h, q1 + q2) == QueueBytes(h, q1) + QueueBytes(h, q2)
  {
    if q1 == [] {
      assert q1 + q2 == q2;
    } else {
      hide ApBytes;
      assert (q1 + q2)[1..] == q1[1..] + q2;
      QueueConcat(h, q1[1..], q2);
    }
  }

  /** Held buffers, and an allocator that does not hand out what is in use. */
  ghost predicate Queued(h: Heap, tokens: multiset<Ptr>, nbq: Ptr, rest: seq<Ptr>, a: Ptr) {
    Inv(h, tokens) && multiset([nbq] + rest) <= tokens && nbq !in rest && a !in h.blocks
  }

  /** A queue of handles that can be collected into its head within total bytes, and an allocator answer. */
  ghost predicate Collectable(h: Heap, tokens: multiset<Ptr>, nbq: Ptr, rest: seq<Ptr>, total: nat, a: Ptr) {
    Queued(h, tokens, nbq, rest, a) && ApSize(h, nbq) <= total
  }

  /** The heap when the loop has released what it merges. */
  function AfterLoop(h: Heap, nbq: Ptr, rest: seq<Ptr>, total: nat): Heap {
    var r := CollectLoop(Gather(h, rest, ApBytes(h, nbq).GetOr([]), 0), total);
    if r.Ok? then r.value.h else h
  }

  /** Nobody but the head lives on its application part then. */
  ghost predicate SafeCollect(h: Heap, nbq: Ptr, rest: seq<Ptr>, total: nat) {
    SoleUser(AfterLoop(h, nbq, rest, total), nbq, APPLICATION)
  }

  /** Up to the point where the loop has finished. */
  lemma CollectGathers(h: Heap, tokens: multiset<Ptr>, nbq: Ptr, rest: seq<Ptr>, total: nat, a: Ptr)
    returns (bytes: seq<Byte>, g: Gather, k: nat)
    requires Collectable(h, tokens, nbq, rest, total, a)
    ensures ApBytes(h, nbq) == Ok(bytes) && |bytes| == ApSize(h, nbq)
    ensures CollectLoop(Gather(h, rest, bytes, 0), total) == Ok(g) && g.released == k
    ensures Gathered(h, tokens, rest, bytes, g, k) && LongestFit(h, rest, |bytes|, total, k)
    ensures nbq in g.h.bufs && a !in g.h.blocks && g.h == AfterLoop(h, nbq, rest, total)
    ensures SoleUser(h, nbq, APPLICATION) ==> SoleUser(g.h, nbq, APPLICATION)
    ensures multiset([nbq] + rest[k..]) <= tokens - multiset(rest[..k])
  {
    hide Collectable, Inv, BufOk, SoleUser, ApBytes, ApSize, Fewer, CollectLoop, LongestFit, Gathered;
    HeadLive(h, tokens, nbq, rest, total, a);
    ApBytesOfOk(h, nbq);
    bytes := ApBytes(h, nbq).value;
    k := LoopGathers(h, tokens, rest, bytes, 0, total);
    g := CollectLoop(Gather(h, rest, bytes, 0), total).value;
    GatheredKeeps(h, tokens, rest, bytes, g, k);
    PrefixTaken(tokens, nbq, rest, k);
    FirstAlive(g.h, tokens - multiset(rest[..k]), nbq, rest[k..]);
    if SoleUser(h, nbq, APPLICATION) { FewerKeepsSoleUser(h, g.h, nbq, APPLICATION); }
    FewerBlocks(h, g.h);
  }

  /** The head of a queue that can be collected. */
  lemma HeadLive(h: Heap, tokens: multiset<Ptr>, nbq: Ptr, rest: seq<Ptr>, total: nat, a: Ptr)
    requires Collectable(h, tokens, nbq, rest, total, a)
    ensures Inv(h, tokens) && multiset([nbq] + rest) <= tokens && multiset(rest) <= tokens && a !in h.blocks
    ensures BufOk(h, nbq) && ApSize(h, nbq) <= total
  {
    hide Inv, BufOk, ApSize;
    assert multiset([nbq] + rest) == multiset{nbq} + multiset(rest);
    FirstAlive(h, tokens, nbq, rest);
  }

  lemma FirstAlive(h: Heap, tokens: multiset<Ptr>, nbq: Ptr, q: seq<Ptr>)
    requires Inv(h, tokens) && multiset([nbq] + q) <= tokens
    ensures nbq in h.bufs && BufOk(h, nbq)
  {
    hide Inv, BufOk;
    HeldAreAlive(h, tokens, [nbq] + q);
    assert nbq in [nbq] + q;
  }

  lemma GatheredKeeps(h: Heap, tokens: multiset<Ptr>, q: seq<Ptr>, bytes: seq<Byte>, g: Gather, k: nat)
    requires Gathered(h, tokens, q, bytes, g, k)
    ensures k <= |q| && Inv(g.h, tokens - multiset(q[..k])) && Fewer(h, g.h)
  {
    hide Inv, Fewer;
  }

  lemma PrefixTaken(tokens: multiset<Ptr>, nbq: Ptr, rest: seq<Ptr>, k: nat)
    requires multiset([nbq] + rest) <= tokens && k <= |rest|
    ensures multiset([nbq] + rest[k..]) <= tokens - multiset(rest[..k])
  {
    assert [nbq] + rest == [nbq] + (rest[..k] + rest[k..]);
    assert multiset([nbq] + (rest[..k] + rest[k..])) == multiset{nbq} + (multiset(rest[..k]) + multiset(rest[k..]));
    assert multiset([nbq] + rest[k..]) == multiset{nbq} + multiset(rest[k..]);
  }

  lemma FewerBlocks(h: Heap, h': Heap)
    requires Fewer(h, h')
    ensures h'.blocks.Keys <= h.blocks.Keys
  {
  }

  /** What the merged heap looks like, in terms of the heap at the end of the loop. */
  lemma MergedHeap(h: Heap, tokens: multiset<Ptr>, nbq: Ptr, next: Ptr, a: Ptr, bytes: seq<Byte>, total: nat,
                   fill: Byte)
    requires Inv(h, tokens) && nbq in h.bufs && SoleUser(h, nbq, APPLICATION) && |bytes| <= total && a != NULL &&
             a !in h.blocks
    ensures var h1 := Relinked(h, nbq, next);
            var h2 := Replaced(h1, HeadEdit(h1, nbq, a, bytes, total, fill));
            && Inv(h2, tokens) && nbq in h2.bufs && BufOk(h2, nbq)
            && ApBytes(h2, nbq) == Ok(bytes) && h2.bufs[nbq].next == next
            && h2.bufs.Keys == h.bufs.Keys
            && forall b :: b in h.bufs && b != nbq ==> b in h2.bufs && h2.bufs[b] == h.bufs[b] && SameBytes(h, b, h2, b)
  {
    hide Inv, ReplaceOk, SoleUser, BufOk, PartOk, ApBytes;
    HeadEditOk(h, tokens, nbq, next, a, bytes, total, fill);
    var h1 := Relinked(h, nbq, next);
    var e := HeadEdit(h1, nbq, a, bytes, total, fill);
    InvOk(h1, tokens);
    PartsOf(h1, nbq, APPLICATION);
    var h2 := Replaced(h1, e);
    ReplaceKeepsInv(h1, tokens, e);
    InvOk(h2, tokens);
    ReplacedPart(h1, e);
    ApBytesOfOk(h2, nbq);
    assert e.content[..e.d.sz] == bytes;
    InvOk(h, tokens);
    forall b | b in h.bufs && b != nbq ensures b in h2.bufs && h2.bufs[b] == h.bufs[b] && SameBytes(h, b, h2, b) {
      assert SameBytes(h1, b, h2, b);
      RelinkShows(h, nbq, next, b);
    }
  }

  lemma RelinkShows(h: Heap, n: Ptr, next: Ptr, b: Ptr)
    requires n in h.bufs && BufOk(h, b) && BufOk(Relinked(h, n, next), b)
    ensures forall p: Part :: PartOk(h, b, p) && PartOk(Relinked(h, n, next), b, p)
    ensures forall p: Part :: PartBytes(h, b, p) == PartBytes(Relinked(h, n, next), b, p)
  {
    forall p: Part ensures PartOk(h, b, p) && PartOk(Relinked(h, n, next), b, p) {
      PartsOf(h, b, p);
      PartsOf(Relinked(h, n, next), b, p);
    }
  }

  /** Collecting a linked queue into its head: what came of the heap and how many buffers were released. */
  ghost predicate CollectDone(h: Heap, tokens: multiset<Ptr>, nbq: Ptr, rest: seq<Ptr>, total: nat, h': Heap, k: nat) {
    && LongestFit(h, rest, ApSize(h, nbq), total, k)
    && Inv(h', tokens - multiset(rest[..k]))
    && Linked(h', nbq, [nbq] + rest[k..])
    && ApBytes(h', nbq) == Ok(QueueBytes(h, [nbq] + rest[..k]))
    && QueueBytes(h', [nbq] + rest[k..]) == QueueBytes(h, [nbq] + rest)
    && forall c :: c in h'.bufs && c != nbq ==> SameBytes(h, c, h', c)
  }

  lemma MergedLinked(h: Heap, g: Heap, h': Heap, nbq: Ptr, rest: seq<Ptr>, k: nat)
    requires Linked(h, nbq, [nbq] + rest) && k <= |rest| && nbq !in rest && Fewer(h, g)
    requires forall b :: b in rest[k..] ==> b in g.bufs
    requires forall b :: b in g.bufs && b != nbq ==> b in h'.bufs && h'.bufs[b] == g.bufs[b]
    requires nbq in h'.bufs && h'.bufs[nbq].next == First(rest[k..])
    ensures Linked(h', nbq, [nbq] + rest[k..])
  {
    assert ([nbq] + rest)[1..] == rest && ([nbq] + rest[k..])[1..] == rest[k..];
    LinkedSuffix(h, h.bufs[nbq].next, rest, k);
    forall b | b in rest[k..] ensures b in h'.bufs && h'.bufs[b].next == h.bufs[b].next {
      assert b in rest && Untouched(h, g, b);
    }
    hide Fewer;
    LinkedSame(h, h', First(rest[k..]), rest[k..]);
  }

  lemma RestBytes(h: Heap, g: Heap, h': Heap, nbq: Ptr, q: seq<Ptr>)
    requires nbq !in q && Fewer(h, g)
    requires forall b :: b in q ==> BufOk(g, b) && BufOk(h', b)
    requires forall b :: b in g.bufs && b != nbq ==> SameBytes(g, b, h', b)
    ensures QueueBytes(h', q) == QueueBytes(h, q)
  {
    forall b | b in q ensures b in g.bufs { PartsOf(g, b, APPLICATION); }
    hide BufOk, SameBytes, Fewer, QueueBytes;
    QueueSame(g, h', q);
    FewerKeepsQueue(h, g, q);
  }

  /** Buffers outside the queue, and those of it that live on for their clones, show what they showed. */
  lemma OthersShow(h: Heap, g: Heap, h': Heap, nbq: Ptr)
    requires Fewer(h, g) && h'.bufs.Keys == g.bufs.Keys
    requires forall b :: b in g.bufs && b != nbq ==> SameBytes(g, b, h', b)
    ensures forall c :: c in h'.bufs && c != nbq ==> SameBytes(h, c, h', c)
  {
    hide SameBytes;
    forall c | c in h'.bufs && c != nbq ensures SameBytes(h, c, h', c) {
      assert SameBytes(h, c, g, c) && SameBytes(g, c, h', c);
      SameBytesTransitive(h, g, h', c);
    }
  }

  lemma MergedBytes(h: Heap, h': Heap, nbq: Ptr, rest: seq<Ptr>, bytes: seq<Byte>, k: nat)
    requires k <= |rest| && QueueBytes(h', rest[k..]) == QueueBytes(h, rest[k..])
    requires ApBytes(h, nbq) == Ok(bytes) && ApBytes(h', nbq) == Ok(bytes + QueueBytes(h, rest[..k]))
    ensures ApBytes(h', nbq) == Ok(QueueBytes(h, [nbq] + rest[..k]))
    ensures QueueBytes(h', [nbq] + rest[k..]) == QueueBytes(h, [nbq] + rest)
  {
    hide ApBytes, QueueBytes;
    QueueCons(h, nbq, rest[..k]);
    QueueCons(h, nbq, rest);
    QueueCons(h', nbq, rest[k..]);
    assert rest == rest[..k] + rest[k..];
    QueueConcat(h, rest[..k], rest[k..]);
  }

  lemma QueueCons(h: Heap, b: Ptr, q: seq<Ptr>)
    ensures QueueBytes(h, [b] + q) == ApBytes(h, b).GetOr([]) + QueueBytes(h, q)
  {
    hide ApBytes;
    assert ([b] + q)[1..] == q;
  }

  /**
   NutNetBufCollect loses no byte and reorders none: the head ends up with exactly the longest prefix of
   the queue that fits, the rest of the queue follows it, and the count of released buffers is returned.
   */
  lemma CollectKeepsBytes(h: Heap, tokens: multiset<Ptr>, nbq: Ptr, rest: seq<Ptr>, total: nat, a: Ptr, fill: Byte)
    requires Collectable(h, tokens, nbq, rest, total, a) && Linked(h, nbq, [nbq] + rest)
    requires a != NULL ==> SafeCollect(h, nbq, rest, total)
    ensures Collect(h, nbq, rest, total, a, fill).Ok?
    ensures var r := Collect(h, nbq, rest, total, a, fill).value;
            if a == NULL then r == (h, 0) else CollectDone(h, tokens, nbq, rest, total, r.0, r.1)
  {
    if a != NULL {
      var bytes, g, k := CollectGathers(h, tokens, nbq, rest, total, a);
      var t := tokens - multiset(rest[..k]);
      GatheredFits(h, tokens, rest, bytes, total, g, k);
      MergedHeap(g.h, t, nbq, First(g.rest), a, g.bytes, total, fill);
      CollectUnfolds(h, t, nbq, rest, total, a, fill, bytes, g);
      hide Collect, CollectLoop, Inv, BufOk, SoleUser, Fewer, SameBytes, ApBytes, Linked, LongestFit, Relinked,
           Replaced, HeadEdit;
      var h' := Collect(h, nbq, rest, total, a, fill).value.0;
      RestAlive(g.h, h', t, nbq, rest, k);
      MergedLinked(h, g.h, h', nbq, rest, k);
      RestBytes(h, g.h, h', nbq, rest[k..]);
      MergedBytes(h, h', nbq, rest, bytes, k);
      OthersShow(h, g.h, h', nbq);
    }
  }

  lemma RestAlive(h: Heap, h': Heap, tokens: multiset<Ptr>, nbq: Ptr, rest: seq<Ptr>, k: nat)
    requires Inv(h, tokens) && Inv(h', tokens) && k <= |rest| && multiset([nbq] + rest[k..]) <= tokens
    ensures forall b :: b in rest[k..] ==> b in h.bufs && BufOk(h, b) && BufOk(h', b)
  {
    hide Inv, BufOk;
    HeldAreAlive(h, tokens, [nbq] + rest[k..]);
    HeldAreAlive(h', tokens, [nbq] + rest[k..]);
    forall b | b in rest[k..] ensures b in [nbq] + rest[k..] {}
  }

  lemma GatheredFits(h: Heap, tokens: multiset<Ptr>, rest: seq<Ptr>, bytes: seq<Byte>, total: nat, g: Gather, k: nat)
    requires Inv(h, tokens) && multiset(rest) <= tokens
    requires Gathered(h, tokens, rest, bytes, g, k) && LongestFit(h, rest, |bytes|, total, k)
    ensures |g.bytes| <= total
  {
    hide Inv, Fewer;
    HeldAreAlive(h, tokens, rest);
    forall b | b in rest[..k] ensures BufOk(h, b) { assert b in rest; }
    QueueLength(h, rest[..k]);
  }

  lemma {:induction false} QueueLength(h: Heap, q: seq<Ptr>)
    requires forall b :: b in q ==> BufOk(h, b)
    ensures |QueueBytes(h, q)| == TotalSize(h, q)
  {
    if q != [] {
      ApBytesOfOk(h, q[0]);
      hide BufOk, ApBytes, ApSize;
      QueueLength(h, q[1..]);
    }
  }

  lemma CollectUnfolds(h: Heap, t: multiset<Ptr>, nbq: Ptr, rest: seq<Ptr>, total: nat, a: Ptr, fill: Byte,
                       bytes: seq<Byte>, g: Gather)
    requires a != NULL && ApBytes(h, nbq) == Ok(bytes) && |bytes| <= total && |g.bytes| <= total
    requires CollectLoop(Gather(h, rest, bytes, 0), total) == Ok(g) && Inv(g.h, t) && nbq in g.h.bufs
    ensures Collect(h, nbq, rest, total, a, fill) ==
            (var h1 := Relinked(g.h, nbq, First(g.rest));
             Ok((Replaced(h1, HeadEdit(h1, nbq, a, g.bytes, total, fill)), g.released)))
  {
    InvOk(g.h, t);
    PartsOf(g.h, nbq, APPLICATION);
    hide CollectLoop, Inv, BufOk, Replaced, HeadEdit, ApBytes;
  }

  // ---------------------------------------------------------------- when that is safe

  /** It is if nobody else lives on the head's application part in the first place. */
  lemma SoleUserSuffices(h: Heap, tokens: multiset<Ptr>, nbq: Ptr, rest: seq<Ptr>, total: nat, a: Ptr)
    requires Collectable(h, tokens, nbq, rest, total, a) && SoleUser(h, nbq, APPLICATION)
    ensures SafeCollect(h, nbq, rest, total)
  {
    var bytes, g, k := CollectGathers(h, tokens, nbq, rest, total, a);
  }

  /** Otherwise some buffer that is left shows a block that is gone. */
  lemma UnsafeCollectHarms(h: Heap, tokens: multiset<Ptr>, nbq: Ptr, rest: seq<Ptr>, total: nat, a: Ptr, fill: Byte)
    returns (c: Ptr)
    requires Collectable(h, tokens, nbq, rest, total, a) && a != NULL && !SafeCollect(h, nbq, rest, total)
    ensures var r := Collect(h, nbq, rest, total, a, fill);
            r.Ok? && c != nbq && c in r.value.0.bufs && PartOk(h, c, APPLICATION) &&
            !PartOk(r.value.0, c, APPLICATION)
  {
    var bytes, g, k := CollectGathers(h, tokens, nbq, rest, total, a);
    var t := tokens - multiset(rest[..k]);
    LoopFits(h, tokens, nbq, rest, total, a, bytes, g, k);
    CollectUnfolds(h, t, nbq, rest, total, a, fill, bytes, g);
    GatheredKeeps(h, tokens, rest, bytes, g, k);
    hide Collect, CollectLoop, Inv, Collectable, Gathered, LongestFit, Fewer, ApBytes;
    c := Remaining(g.h, t, nbq);
    FewerShows(h, g.h, c);
    LeftDangling(g.h, nbq, First(g.rest), a, g.bytes, total, fill, c);
  }

  lemma LoopFits(h: Heap, tokens: multiset<Ptr>, nbq: Ptr, rest: seq<Ptr>, total: nat, a: Ptr, bytes: seq<Byte>,
                 g: Gather, k: nat)
    requires Collectable(h, tokens, nbq, rest, total, a) && |bytes| == ApSize(h, nbq)
    requires Gathered(h, tokens, rest, bytes, g, k) && LongestFit(h, rest, |bytes|, total, k)
    ensures |g.bytes| <= total
  {
    hide Inv, Gathered, LongestFit, ApSize, BufOk;
    HeadLive(h, tokens, nbq, rest, total, a);
    GatheredFits(h, tokens, rest, bytes, total, g, k);
  }

  lemma FewerShows(h: Heap, h': Heap, c: Ptr)
    requires Fewer(h, h') && c in h'.bufs
    ensures PartOk(h, c, APPLICATION)
  {
    assert SameBytes(h, c, h', c);
  }

  /** Whoever still lives on the head's block. */
  lemma Remaining(h: Heap, tokens: multiset<Ptr>, nbq: Ptr) returns (c: Ptr)
    requires Inv(h, tokens) && nbq in h.bufs && !SoleUser(h, nbq, APPLICATION)
    ensures |h.bufs[nbq].parts| == 4 && APPLICATION in h.bufs[nbq].flags.own && c != nbq
    ensures Borrows(h, c, APPLICATION, h.bufs[nbq].parts[APPLICATION].vp) && c in h.bufs
    ensures h.bufs[nbq].parts[APPLICATION].vp in h.blocks
  {
    InvOk(h, tokens);
    PartsOf(h, nbq, APPLICATION);
    hide Inv, BufOk;
    c :| c != nbq && Borrows(h, c, APPLICATION, h.bufs[nbq].parts[APPLICATION].vp);
    PartsOf(h, c, APPLICATION);
  }

  lemma LeftDangling(h: Heap, nbq: Ptr, next: Ptr, a: Ptr, bytes: seq<Byte>, total: nat, fill: Byte, c: Ptr)
    requires nbq in h.bufs && |h.bufs[nbq].parts| == 4 && APPLICATION in h.bufs[nbq].flags.own && |bytes| <= total
    requires c != nbq && Borrows(h, c, APPLICATION, h.bufs[nbq].parts[APPLICATION].vp)
    requires a != h.bufs[nbq].parts[APPLICATION].vp
    ensures var h1 := Relinked(h, nbq, next);
            var h2 := Replaced(h1, HeadEdit(h1, nbq, a, bytes, total, fill));
            c in h2.bufs && !PartOk(h2, c, APPLICATION)
  {
    hide FreshBlock, Rooted;
  }

  /**
   The exact condition: a queue is merged without touching memory that is not its own, and without harm to any other
   buffer, if and only if the bytes of the head fit the new block and nobody else lives on them after the loop.
   */
  lemma CollectIff(h: Heap, tokens: multiset<Ptr>, nbq: Ptr, rest: seq<Ptr>, total: nat, a: Ptr, fill: Byte)
    requires Queued(h, tokens, nbq, rest, a) && Linked(h, nbq, [nbq] + rest) && a != NULL
    ensures var r := Collect(h, nbq, rest, total, a, fill);
            r.Ok? && CollectDone(h, tokens, nbq, rest, total, r.value.0, r.value.1) <==>
            ApSize(h, nbq) <= total && SafeCollect(h, nbq, rest, total)
  {
    hide Collect, CollectLoop, Inv, BufOk, SafeCollect, PartOk, Linked, LongestFit, QueueBytes, ApSize, ApBytes, Queued;
    if ApSize(h, nbq) > total {
      TooLarge(h, tokens, nbq, rest, total, a, fill);
    } else if SafeCollect(h, nbq, rest, total) {
      CollectKeepsBytes(h, tokens, nbq, rest, total, a, fill);
    } else {
      var c := UnsafeCollectHarms(h, tokens, nbq, rest, total, a, fill);
      assert !SameBytes(h, c, Collect(h, nbq, rest, total, a, fill).value.0, c);
    }
  }

  lemma TooLarge(h: Heap, tokens: multiset<Ptr>, nbq: Ptr, rest: seq<Ptr>, total: nat, a: Ptr, fill: Byte)
    requires Queued(h, tokens, nbq, rest, a) && a != NULL && ApSize(h, nbq) > total
    ensures Collect(h, nbq, rest, total, a, fill) == Fault
  {
    hide Inv, BufOk, ApSize, CollectLoop;
    FirstAlive(h, tokens, nbq, rest);
    ApBytesOfOk(h, nbq);
  }
}
