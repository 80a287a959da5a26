/**
 Whole runs of allocations, clones, releases, links and collects over the network buffer heap.
 */
module NetBufRuns {
  import opened Machine
  import opened NetBuf
  import opened NetBufAlloc
  import opened NetBufClone
  import opened NetBufHeap
  import opened NetBufQueue
  import opened NetBufRelease
  import opened NetBufResize

  datatype Op =
    | Allocate(nb: Ptr, part: Part, size: nat, struct: Ptr, block: Ptr, fill: Byte)
    | Clone(nb: Ptr, inserts: set<Part>, struct: Ptr, answers: seq<Ptr>)
    | Release(nb: Ptr)
    | Link(nb: Ptr, next: Ptr)  // a client stores into nb_next
    | Collect(nb: Ptr, rest: seq<Ptr>, total: nat, block: Ptr, fill: Byte)  // rest is the queue behind nb

  /** The heap, and the buffers whose handle some client still holds. */
  datatype State = State(heap: Heap, held: multiset<Ptr>)

  const START := State(Heap(map[], map[]), multiset{})

  /**
   What callers and allocator promise: operations name handles that are held, a payload others live on
   is not outgrown or merged into, its own bytes fit the new block, and memory handed out was not in use.
   */
  ghost predicate Legal(s: State, op: Op) {
    match op
    case Allocate(nb, part, size, struct, block, _) =>
      && size > 0 && (nb == NULL || nb in s.held) && SafeResize(s.heap, nb, part, size)
      && struct !in s.heap.bufs
      && (block in s.heap.blocks ==> nb != NULL && OwnsBlock(s.heap, nb, part, block))
    case Clone(nb, _, struct, answers) => nb in s.held && FreshAnswers(s.heap, struct, answers)
    case Release(nb) => nb in s.held
    case Link(nb, _) => nb in s.held
    case Collect(nb, rest, total, block, _) =>
      && Collectable(s.heap, s.held, nb, rest, total, block) && Linked(s.heap, nb, [nb] + rest)
      && (block != NULL ==> SafeCollect(s.heap, nb, rest, total))
  }

  function Step(s: State, op: Op): Outcome<State>
    requires op.Clone? ==> |op.answers| == 4
  {
    match op
    case Allocate(nb, part, size, struct, block, fill) =>
      var r :- Alloc(s.heap, nb, part, size, struct, block, fill);
      Ok(State(r.0, AllocTokens(s.held, nb, r.1)))
    case Clone(nb, inserts, struct, answers) =>
      var r :- ClonePart(s.heap, nb, inserts, struct, answers);
      Ok(State(r.0, CloneTokens(s.held, r.1)))
    case Release(nb) =>
      var h :- FreeBuf(s.heap, nb);
      Ok(State(h, s.held - multiset{nb}))
    case Link(nb, next) =>
      if nb in s.heap.bufs then Ok(s.(heap := Relinked(s.heap, nb, next))) else Fault
    case Collect(nb, rest, total, block, fill) =>
      var r :- NetBufQueue.Collect(s.heap, nb, rest, total, block, fill);
      Ok(State(r.0, s.held - multiset(rest[..r.1])))
  }

  /** Every operation is legal in the state it meets; whether it faults is not presumed. */
  ghost predicate LegalRun(s: State, ops: seq<Op>)
    decreases |ops|
  {
    ops == [] ||
    (Legal(s, ops[0]) && (Step(s, ops[0]).Ok? ==> LegalRun(Step(s, ops[0]).value, ops[1..])))
  }

  ghost function Run(s: State, ops: seq<Op>): Outcome<State>
    requires LegalRun(s, ops)
    decreases |ops|
  {
    if ops == [] then Ok(s)
    else
      var s1 :- Step(s, ops[0]);
      Run(s1, ops[1..])
  }

  /** The heap invariant, with every handle held at most once. */
  ghost predicate Good(s: State) {
    Inv(s.heap, s.held) && forall b :: s.held[b] <= 1
  }

  lemma StepKeepsInv(s: State, op: Op)
    requires Inv(s.heap, s.held) && Legal(s, op)
    ensures Step(s, op).Ok? && Inv(Step(s, op).value.heap, Step(s, op).value.held)
  {
    hide Inv, Alloc, ClonePart, FreeBuf, SafeResize, FreshAnswers, SameBytes, NetBufQueue.Collect, Collectable,
         SafeCollect, Linked, Relinked;
    match op {
      case Allocate(nb, part, size, struct, block, fill) =>
        AllocKeepsInv(s.heap, s.held, nb, part, size, struct, block, fill);
      case Clone(nb, inserts, struct, answers) =>
        CloneKeepsInv(s.heap, s.held, nb, inserts, struct, answers);
      case Release(nb) =>
        FreeKeepsInv(s.heap, s.held, nb);
      case Link(nb, next) =>
        InvTokens(s.heap, s.held);
        RelinkKeepsInv(s.heap, s.held, nb, next);
      case Collect(nb, rest, total, block, fill) =>
        CollectStep(s, nb, rest, total, block, fill);
    }
  }

  /** A collect releases the handles of the buffers it merges, or does nothing at all. */
  lemma CollectStep(s: State, nb: Ptr, rest: seq<Ptr>, total: nat, block: Ptr, fill: Byte)
    requires Collectable(s.heap, s.held, nb, rest, total, block) && Linked(s.heap, nb, [nb] + rest)
    requires block != NULL ==> SafeCollect(s.heap, nb, rest, total)
    ensures var r := NetBufQueue.Collect(s.heap, nb, rest, total, block, fill);
            r.Ok? && r.value.1 <= |rest| && Inv(r.value.0, s.held - multiset(rest[..r.value.1])) &&
            forall c :: c in r.value.0.bufs && c != nb ==> SameBytes(s.heap, c, r.value.0, c)
  {
    hide NetBufQueue.Collect, Inv, Linked, LongestFit, QueueBytes, ApBytes, SameBytes, Collectable;
    CollectKeepsBytes(s.heap, s.held, nb, rest, total, block, fill);
    var r := NetBufQueue.Collect(s.heap, nb, rest, total, block, fill);
    if block == NULL {
      CollectableHeap(s.heap, s.held, nb, rest, total, block);
      assert s.held - multiset(rest[..0]) == s.held;
      forall c | c in s.heap.bufs ensures SameBytes(s.heap, c, s.heap, c) {
        InvOk(s.heap, s.held);
        ShowsItself(s.heap, c);
      }
    }
  }

  lemma CollectableHeap(h: Heap, tokens: multiset<Ptr>, nbq: Ptr, rest: seq<Ptr>, total: nat, a: Ptr)
    requires Collectable(h, tokens, nbq, rest, total, a)
    ensures Inv(h, tokens)
  {
  }

  lemma ShowsItself(h: Heap, b: Ptr)
    requires BufOk(h, b)
    ensures b in h.bufs && SameBytes(h, b, h, b)
  {
    forall p: Part ensures PartOk(h, b, p) { PartsOf(h, b, p); }
  }

  lemma AllocResult(h: Heap, nb: Ptr, p: Part, size: nat, a1: Ptr, a2: Ptr, fill: Byte)
    requires Alloc(h, nb, p, size, a1, a2, fill).Ok?
    ensures var r := Alloc(h, nb, p, size, a1, a2, fill).value.1;
            r == NULL || r == if nb == NULL then a1 else nb
  {
  }

  lemma CloneResult(h: Heap, nb: Ptr, inserts: set<Part>, a: Ptr, answers: seq<Ptr>)
    requires |answers| == 4 && ClonePart(h, nb, inserts, a, answers).Ok?
    ensures var r := ClonePart(h, nb, inserts, a, answers).value.1; r == NULL || r == a
  {
  }

  /** A handle comes into being only for a structure that did not exist before. */
  lemma StepKeepsHandlesSingle(s: State, op: Op)
    requires Good(s) && Legal(s, op) && Step(s, op).Ok?
    ensures forall b :: Step(s, op).value.held[b] <= 1
  {
    hide Inv, Alloc, ClonePart, FreeBuf, SafeResize, BufOk, OwnsBlock, NetBufQueue.Collect, Collectable,
         SafeCollect, Linked, Relinked;
    InvTokens(s.heap, s.held);
    match op {
      case Allocate(nb, part, size, struct, block, fill) =>
        AllocResult(s.heap, nb, part, size, struct, block, fill);
      case Clone(nb, inserts, struct, answers) =>
        CloneResult(s.heap, nb, inserts, struct, answers);
      case Release(nb) =>
      case Link(_, _) =>
      case Collect(_, _, _, _, _) =>
    }
  }

  lemma StepKeepsGood(s: State, op: Op)
    requires Good(s) && Legal(s, op)
    ensures Step(s, op).Ok? && Good(Step(s, op).value)
  {
    hide Inv, Legal, Step;
    StepKeepsInv(s, op);
    StepKeepsHandlesSingle(s, op);
  }

  /** No run of legal operations ever touches memory it does not own, and all of them keep the invariant. */
  lemma {:induction false} RunsAreSafe(s: State, ops: seq<Op>)
    requires Good(s) && LegalRun(s, ops)
    ensures Run(s, ops).Ok? && Good(Run(s, ops).value)
    decreases |ops|
  {
    hide Good, Step;
    if ops != [] {
      StepKeepsGood(s, ops[0]);
      RunsAreSafe(Step(s, ops[0]).value, ops[1..]);
    }
  }

  lemma StartIsGood()
    ensures Good(START)
  {
  }

  /**
   In every reachable state the count field is one less than the handle plus the live clones, and fits its three
   bits.
   */
  lemma CountsAlwaysMatch(ops: seq<Op>, b: Ptr)
    requires LegalRun(START, ops)
    ensures Run(START, ops).Ok?
    ensures var s := Run(START, ops).value;
            b in s.heap.bufs ==>
              && s.heap.bufs[b].flags.refcnt + 1 == (if b in s.held then 1 else 0) + |Clones(s.heap, b)|
              && s.heap.bufs[b].flags.refcnt <= MAX_REFS
  {
    StartIsGood();
    RunsAreSafe(START, ops);
    var s := Run(START, ops).value;
    InvOk(s.heap, s.held);
    hide Run, Clones, UniqueOwners, NoOrphans, PartOk, LegalRun;
  }

  // ---------------------------------------------------------------- a promise that can be broken

  /** One buffer with a payload of ten bytes, before and after it has been cloned. */
  function OneBuffer(refcnt: nat): Buf {
    EmptyBuf().(parts := EmptyBuf().parts[APPLICATION := NbData(1, 10)], flags := Flags(refcnt, false, {APPLICATION}))
  }

  function ItsClone(): Buf {
    EmptyBuf().(parts := EmptyBuf().parts[APPLICATION := NbData(1, 10)], ref := 1, depth := 1)
  }

  const FIRST := Allocate(NULL, APPLICATION, 10, 1, 1, 0)
  const SECOND := Clone(1, {}, 2, [NULL, NULL, NULL, NULL])
  const ALONE := State(Heap(map[1 := OneBuffer(0)], map[1 := FreshBlock(10, 0)]), multiset{1})
  const SHARED := State(Heap(map[1 := OneBuffer(1), 2 := ItsClone()], map[1 := FreshBlock(10, 0)]), multiset{1, 2})

  lemma FirstBuffer()
    ensures Legal(START, FIRST) && Step(START, FIRST) == Ok(ALONE)
  {
    hide FreshBlock, FreeBuf;
    var r := Alloc(START.heap, NULL, APPLICATION, 10, 1, 1, 0).value;
    assert r.0.bufs == ALONE.heap.bufs by { assert {} + {APPLICATION} == {APPLICATION}; }
    assert r.0.blocks == ALONE.heap.blocks;
    assert AllocTokens(multiset{}, NULL, 1) == multiset{1};
  }

  lemma ThenClone()
    ensures Legal(ALONE, SECOND) && Step(ALONE, SECOND) == Ok(SHARED)
  {
    hide FreshBlock, FreeBuf, CopyParts;
    ClonedParts();
    var r := ClonePart(ALONE.heap, 1, {}, 2, SECOND.answers).value;
    assert r.0.bufs == SHARED.heap.bufs;
    assert CloneTokens(multiset{1}, 2) == multiset{1, 2};
  }

  lemma ClonedParts()
    ensures CopyParts(Cloning(ALONE.heap, EmptyBuf(), false, false), OneBuffer(0), 0, {}, SECOND.answers) ==
            Ok(Cloning(ALONE.heap, EmptyBuf().(parts := EmptyBuf().parts[APPLICATION := NbData(1, 10)]), false, true))
  {
    hide FreshBlock;
    var acc := Cloning(ALONE.heap, EmptyBuf(), false, false);
    assert CopyParts(acc, OneBuffer(0), 2, {}, SECOND.answers) == CopyParts(acc, OneBuffer(0), 0, {}, SECOND.answers);
  }

  lemma CloneBlocksResize()
    ensures !SafeResize(SHARED.heap, 1, APPLICATION, 20)
  {
    hide FreshBlock;
    assert Borrows(SHARED.heap, 2, APPLICATION, 1);
  }

  lemma TwoOps(s: State, op: Op, op': Op)
    requires Legal(s, op) && Step(s, op).Ok? && Legal(Step(s, op).value, op') && Step(Step(s, op).value, op').Ok?
    ensures LegalRun(s, [op, op']) && Run(s, [op, op']) == Step(Step(s, op).value, op')
  {
    hide Step, SafeResize, OwnsBlock;
    OneOp(Step(s, op).value, op');
    assert [op, op'][1..] == [op'];
  }

  lemma OneOp(s: State, op: Op)
    requires Legal(s, op) && Step(s, op).Ok?
    ensures LegalRun(s, [op]) && Run(s, [op]) == Step(s, op)
  {
    hide Step, SafeResize, OwnsBlock;
    assert [op][1..] == [];
    var s1 := Step(s, op).value;
    assert LegalRun(s1, []) && Run(s1, []) == Ok(s1);
  }

  /** A client that clones its buffer may no longer outgrow it: states where growing is unsafe are reachable. */
  lemma UnsafeResizeIsReachable()
    ensures LegalRun(START, [FIRST, SECOND]) && Run(START, [FIRST, SECOND]).Ok?
    ensures var s := Run(START, [FIRST, SECOND]).value; 1 in s.held && !SafeResize(s.heap, 1, APPLICATION, 20)
  {
    hide Legal, Step, SafeResize, LegalRun, Run;
    FirstBuffer();
    ThenClone();
    TwoOps(START, FIRST, SECOND);
    CloneBlocksResize();
  }

  // ---------------------------------------------------------------- contents

  /** The operation neither resizes, merges nor releases b. */
  predicate Spares(op: Op, b: Ptr) {
    op.Clone? || op.Link? || (op.nb != b && (op.Collect? ==> b !in op.rest))
  }

  lemma StepKeepsHandle(s: State, op: Op, b: Ptr)
    requires Legal(s, op) && b in s.held && Spares(op, b) && Step(s, op).Ok?
    ensures b in Step(s, op).value.held
  {
    hide Inv, Alloc, ClonePart, FreeBuf, SafeResize, FreshAnswers, NetBufQueue.Collect, Collectable,
         SafeCollect, Linked, Relinked;
    if op.Collect? {
      var r := NetBufQueue.Collect(s.heap, op.nb, op.rest, op.total, op.block, op.fill).value;
      assert b !in multiset(op.rest[..r.1]);
    }
  }

  lemma StepKeepsBytes(s: State, op: Op, b: Ptr)
    requires Good(s) && Legal(s, op) && b in s.held && Spares(op, b)
    ensures Step(s, op).Ok? && b in Step(s, op).value.held
    ensures SameBytes(s.heap, b, Step(s, op).value.heap, b)
  {
    hide Inv, Step, Legal, SameBytes, BufOk;
    LegalAnswers(s, op);
    StepKeepsInv(s, op);
    StepKeepsHandle(s, op, b);
    InvTokens(s.heap, s.held);
    InvTokens(Step(s, op).value.heap, Step(s, op).value.held);
    assert b in s.heap.bufs && b in Step(s, op).value.heap.bufs;
    StepShows(s, op, b);
  }

  lemma LegalAnswers(s: State, op: Op)
    requires Legal(s, op)
    ensures op.Clone? ==> |op.answers| == 4
  {
  }

  lemma StepShows(s: State, op: Op, b: Ptr)
    requires Inv(s.heap, s.held) && Legal(s, op) && Step(s, op).Ok? && Spares(op, b)
    requires BufOk(s.heap, b) && b in Step(s, op).value.heap.bufs
    ensures SameBytes(s.heap, b, Step(s, op).value.heap, b)
  {
    hide Inv, Alloc, ClonePart, FreeBuf, SafeResize, FreshAnswers, BufOk, SameBytes, AllocTokens, CloneTokens,
         NetBufQueue.Collect, Collectable, SafeCollect, Linked;
    match op {
      case Allocate(nb, part, size, struct, block, fill) =>
        assert b in s.heap.bufs by { ShowsItself(s.heap, b); }
        AllocKeepsInv(s.heap, s.held, nb, part, size, struct, block, fill);
      case Clone(nb, inserts, struct, answers) =>
        CloneKeepsInv(s.heap, s.held, nb, inserts, struct, answers);
        ShowsItself(s.heap, b);
      case Release(nb) =>
        FreeKeepsInv(s.heap, s.held, nb);
      case Link(nb, next) =>
        RelinkKeepsInv(s.heap, s.held, nb, next);
        InvOk(Relinked(s.heap, nb, next), s.held);
        LinkShows(s.heap, nb, next, b);
      case Collect(nb, rest, total, block, fill) =>
        CollectStep(s, nb, rest, total, block, fill);
    }
  }

  lemma LinkShows(h: Heap, nb: Ptr, next: Ptr, b: Ptr)
    requires nb in h.bufs && BufOk(h, b) && BufOk(Relinked(h, nb, next), b)
    ensures SameBytes(h, b, Relinked(h, nb, next), b)
  {
    hide BufOk, PartOk;
    RelinkShows(h, nb, next, b);
  }

  /** Whatever clients do with other buffers, and with clones and origins of b, b goes on showing the same bytes. */
  lemma {:induction false} RunsKeepBytes(s: State, ops: seq<Op>, b: Ptr)
    requires Good(s) && LegalRun(s, ops) && b in s.held && (forall i :: 0 <= i < |ops| ==> Spares(ops[i], b))
    ensures Run(s, ops).Ok? && b in Run(s, ops).value.held
    ensures SameBytes(s.heap, b, Run(s, ops).value.heap, b)
    decreases |ops|
  {
    if ops == [] {
      InvTokens(s.heap, s.held);
      hide Inv, BufOk;
      ShowsItself(s.heap, b);
    } else {
      hide Good, Step, SameBytes;
      assert Spares(ops[0], b);
      StepKeepsGood(s, ops[0]);
      StepKeepsBytes(s, ops[0], b);
      var s1 := Step(s, ops[0]).value;
      RunsKeepBytes(s1, ops[1..], b);
      SameBytesTransitive(s.heap, s1.heap, Run(s1, ops[1..]).value.heap, b);
    }
  }

  // ---------------------------------------------------------------- building a queue and collecting it

  /** Chaining held buffers, the last one first. */
  function Links(q: seq<Ptr>): seq<Op> {
    if q == [] then [] else Links(q[1..]) + [Link(q[0], First(q[1..]))]
  }

  /** The heaps differ in links only. */
  ghost predicate OnlyLinks(h: Heap, h': Heap) {
    h'.blocks == h.blocks && h'.bufs.Keys == h.bufs.Keys &&
    forall b :: b in h.bufs ==> h'.bufs[b] == h.bufs[b].(next := h'.bufs[b].next)
  }

  lemma {:induction false} RunThen(s: State, ops: seq<Op>, op: Op)
    requires LegalRun(s, ops) && Run(s, ops).Ok? && Legal(Run(s, ops).value, op) && Step(Run(s, ops).value, op).Ok?
    ensures LegalRun(s, ops + [op]) && Run(s, ops + [op]) == Step(Run(s, ops).value, op)
    decreases |ops|
  {
    hide Legal, Step;
    if ops == [] {
      assert [] + [op] == [op];
      OneOp(s, op);
    } else {
      LegalAnswers(s, ops[0]);
      RunThen(Step(s, ops[0]).value, ops[1..], op);
      assert (ops + [op])[1..] == ops[1..] + [op];
    }
  }

  lemma EmptyIsLinked(h: Heap)
    ensures Linked(h, NULL, [])
  {
  }

  lemma HeadIsAlone(q: seq<Ptr>, held: multiset<Ptr>)
    requires q != [] && multiset(q) <= held && forall b :: held[b] <= 1
    ensures q[0] !in q[1..]
  {
    SplitFirst(q, 0);
    assert multiset(q)[q[0]] <= 1;
    assert multiset(q[1..])[q[0]] == 0;
  }

  lemma ChainGrows(h: Heap, q: seq<Ptr>, held: multiset<Ptr>)
    requires q != [] && q[0] in h.bufs && q[0] != NULL && Linked(h, First(q[1..]), q[1..])
    requires multiset(q) <= held && forall b :: held[b] <= 1
    ensures Linked(Relinked(h, q[0], First(q[1..])), q[0], q)
  {
    HeadIsAlone(q, held);
    LinkedSame(h, Relinked(h, q[0], First(q[1..])), First(q[1..]), q[1..]);
  }

  /** Putting one more held buffer in front of a chain. */
  lemma LinkInFront(s: State, r: State, q: seq<Ptr>)
    requires Good(s) && Good(r) && r.held == s.held && OnlyLinks(s.heap, r.heap)
    requires q != [] && multiset(q) <= s.held && Linked(r.heap, First(q[1..]), q[1..])
    ensures var op := Link(q[0], First(q[1..]));
            Legal(r, op) && Step(r, op).Ok? &&
            var r' := Step(r, op).value;
            Good(r') && r'.held == s.held && OnlyLinks(s.heap, r'.heap) && Linked(r'.heap, q[0], q)
  {
    hide Inv, Linked, BufOk;
    var op := Link(q[0], First(q[1..]));
    assert q[0] in multiset(q);
    InvTokens(r.heap, r.held);
    assert q[0] in r.held && q[0] in r.heap.bufs;
    RelinkKeepsInv(r.heap, r.held, q[0], First(q[1..]));
    ChainGrows(r.heap, q, s.held);
  }

  lemma {:induction false} LinksChain(s: State, q: seq<Ptr>)
    requires Good(s) && multiset(q) <= s.held
    ensures LegalRun(s, Links(q)) && Run(s, Links(q)).Ok?
    ensures var r := Run(s, Links(q)).value;
            Good(r) && r.held == s.held && Linked(r.heap, First(q), q) && OnlyLinks(s.heap, r.heap)
    decreases |q|
  {
    hide Good, Linked, OnlyLinks, Legal, Step;
    if q == [] {
      EmptyIsLinked(s.heap);
      LinksReflexive(s.heap);
    } else {
      SplitFirst(q, 0);
      LinksChain(s, q[1..]);
      var r := Run(s, Links(q[1..])).value;
      LinkInFront(s, r, q);
      RunThen(s, Links(q[1..]), Link(q[0], First(q[1..])));
    }
  }

  lemma LinksReflexive(h: Heap)
    ensures OnlyLinks(h, h)
  {
  }

  lemma LinksKeepAp(h: Heap, h': Heap, b: Ptr)
    requires OnlyLinks(h, h')
    ensures ApBytes(h', b) == ApBytes(h, b) && ApSize(h', b) == ApSize(h, b)
  {
    if b in h.bufs { assert h'.bufs[b].parts == h.bufs[b].parts; }
  }

  lemma {:induction false} LinksKeepQueue(h: Heap, h': Heap, q: seq<Ptr>)
    requires OnlyLinks(h, h')
    ensures QueueBytes(h', q) == QueueBytes(h, q) && TotalSize(h', q) == TotalSize(h, q)
    decreases |q|
  {
    hide ApBytes, ApSize, OnlyLinks;
    if q != [] {
      LinksKeepAp(h, h', q[0]);
      LinksKeepQueue(h, h', q[1..]);
    }
  }

  lemma LinksKeepUsers(h: Heap, h': Heap, n: Ptr)
    requires OnlyLinks(h, h') && SoleUser(h, n, APPLICATION)
    ensures SoleUser(h', n, APPLICATION)
  {
    forall c | c != n && APPLICATION in h'.bufs[n].flags.own
      ensures !Borrows(h', c, APPLICATION, h'.bufs[n].parts[APPLICATION].vp)
    {
      assert !Borrows(h, c, APPLICATION, h.bufs[n].parts[APPLICATION].vp);
    }
  }

  lemma LinksKeepFit(h: Heap, h': Heap, q: seq<Ptr>, used: nat, total: nat, k: nat)
    requires OnlyLinks(h, h') && LongestFit(h', q, used, total, k)
    ensures LongestFit(h, q, used, total, k)
  {
    hide TotalSize, OnlyLinks;
    LinksKeepQueue(h, h', q[..k]);
    if k < |q| { LinksKeepQueue(h, h', q[..k + 1]); }
  }

  /** The buffers of q, linked one to the next, and merged into the first. */
  function LinkAndCollect(q: seq<Ptr>, total: nat, block: Ptr, fill: Byte): seq<Op>
    requires q != []
  {
    Links(q) + [Collect(q[0], q[1..], total, block, fill)]
  }

  /**
   Any held buffers can be linked and collected, as long as no clone lives on the payload of the first and the block
   is large enough for it: then the first one holds, in order, the bytes of as many as fit, and none is lost.
   */
  lemma HeldBuffersCollect(s: State, q: seq<Ptr>, total: nat, block: Ptr, fill: Byte) returns (k: nat)
    requires Good(s) && q != [] && multiset(q) <= s.held
    requires SoleUser(s.heap, q[0], APPLICATION) && ApSize(s.heap, q[0]) <= total
    requires block != NULL && block !in s.heap.blocks
    ensures LegalRun(s, LinkAndCollect(q, total, block, fill)) && Run(s, LinkAndCollect(q, total, block, fill)).Ok?
    ensures LongestFit(s.heap, q[1..], ApSize(s.heap, q[0]), total, k)
    ensures var r := Run(s, LinkAndCollect(q, total, block, fill)).value;
            r.held == s.held - multiset(q[1..][..k]) &&
            ApBytes(r.heap, q[0]) == Ok(QueueBytes(s.heap, q[..k + 1])) &&
            Linked(r.heap, q[0], [q[0]] + q[k + 1..]) &&
            QueueBytes(r.heap, [q[0]] + q[k + 1..]) == QueueBytes(s.heap, q)
  {
    hide Inv, Linked, SoleUser, ApSize, ApBytes, QueueBytes, LongestFit, OnlyLinks, Run, LegalRun, NetBufQueue.Collect;
    var nb, rest := q[0], q[1..];
    LinksChain(s, q);
    var m := Run(s, Links(q)).value;
    LinksKeepAp(s.heap, m.heap, nb);
    LinksKeepUsers(s.heap, m.heap, nb);
    assert q == [nb] + rest;
    HeadIsAlone(q, s.held);
    SameBlocks(s.heap, m.heap);
    SoleUserSuffices(m.heap, m.held, nb, rest, total, block);
    CollectKeepsBytes(m.heap, m.held, nb, rest, total, block, fill);
    var r := NetBufQueue.Collect(m.heap, nb, rest, total, block, fill).value;
    k := r.1;
    RunThen(s, Links(q), Collect(nb, rest, total, block, fill));
    LinksKeepFit(s.heap, m.heap, rest, ApSize(s.heap, nb), total, k);
    SplitFirst(q, k);
    LinksKeepQueue(s.heap, m.heap, [nb] + rest[..k]);
    LinksKeepQueue(s.heap, m.heap, q);
  }

  lemma SameBlocks(h: Heap, h': Heap)
    requires OnlyLinks(h, h')
    ensures h'.blocks == h.blocks
  {
  }

  // ---------------------------------------------------------------- nothing is lost

  /** The buffers further from their origin than b. */
  ghost function Deeper(h: Heap, b: Ptr): set<Ptr>
    requires b in h.bufs
  {
    set c | c in h.bufs && h.bufs[c].depth > h.bufs[b].depth
  }

  /** A live buffer nobody holds is held up by a deeper clone, without end. */
  lemma NothingLivesUnheld(h: Heap, b: Ptr)
    requires Inv(h, multiset{}) && b in h.bufs
    ensures false
    decreases |Deeper(h, b)|
  {
    assert |Clones(h, b)| > 0 by { hide AllOk, UniqueOwners, NoOrphans; }
    var c :| c in Clones(h, b);
    InvOk(h, multiset{});
    assert BufOk(h, c);
    hide Inv, PartOk;
    ProperSubsetIsSmaller(Deeper(h, c), Deeper(h, b), c);
    NothingLivesUnheld(h, c);
  }

  lemma ProperSubsetIsSmaller(a: set<Ptr>, b: set<Ptr>, x: Ptr)
    requires a <= b && x in b && x !in a
    ensures |a| < |b|
  {
    assert a <= b - {x};
    SubsetIsNotLarger(a, b - {x});
  }

  lemma SubsetIsNotLarger(a: set<Ptr>, b: set<Ptr>)
    requires a <= b
    ensures |a| <= |b|
  {
    assert b == a + (b - a);
  }

  /** Once every handle has been released, every structure and every payload has been given back. */
  lemma NoLeak(ops: seq<Op>)
    requires LegalRun(START, ops)
    ensures Run(START, ops).Ok?
    ensures Run(START, ops).value.held == multiset{} ==> Run(START, ops).value.heap == Heap(map[], map[])
  {
    StartIsGood();
    RunsAreSafe(START, ops);
    var s := Run(START, ops).value;
    hide Run, LegalRun;
    if s.held == multiset{} {
      forall b | b in s.heap.bufs ensures false {
        NothingLivesUnheld(s.heap, b);
      }
      assert s.heap.bufs.Keys == {};
      assert s.heap.blocks.Keys == {};
    }
  }
}
