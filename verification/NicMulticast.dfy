/**
 The multicast list and hash filter of DmIOCtl in dev/dm9000.c.
 */
module NicMulticast {
  import opened NicCrc

  /** An IP multicast address as its four octets in memory order. */
  type Group = g: seq<Octet> | |g| == 4 witness [0, 0, 0, 0]

  /** Section 6.4 of RFC 1112: the low 23 bits of the group go into 01-00-5E-00-00-00. */
  function MacOf(g: Group): seq<Octet> {
    [0x01, 0x00, 0x5E, g[1] & 0x7f, g[2], g[3]]
  }

  function HashOf(g: Group): (index: nat)
    ensures index < 64
  {
    (Checksum(MacOf(g)) & 0x3f) as bv6 as nat
  }

  /** 1 << k */
  function Mask(k: nat): Octet
    requires k < 8
  {
    if k == 0 then 0x01 else if k == 1 then 0x02 else if k == 2 then 0x04 else if k == 3 then 0x08
    else if k == 4 then 0x10 else if k == 5 then 0x20 else if k == 6 then 0x40 else 0x80
  }

  /** The eight bytes of the multicast address register. */
  type Mar = m: seq<Octet> | |m| == 8 witness [0, 0, 0, 0, 0, 0, 0, 0]

  predicate Accepts(mar: Mar, index: nat)
    requires index < 64
  {
    BitSet(mar[index / 8], Mask(index % 8))
  }

  function Marked(mar: Mar, index: nat): Mar
    requires index < 64
  {
    mar[index / 8 := mar[index / 8] | Mask(index % 8)]
  }

  lemma MasksDiffer(k: nat, j: nat)
    requires k < 8 && j < 8
    ensures Mask(k) != 0 && (k != j ==> Mask(k) & Mask(j) == 0)
  {
  }

  lemma OrSets(b: Octet, k: nat, j: nat)
    requires k < 8 && j < 8
    ensures BitSet(b | Mask(k), Mask(j)) <==> BitSet(b, Mask(j)) || j == k
  {
    hide Mask, BitSet;
    MasksDiffer(k, j);
    if k == j {
      OrSetsSame(b, Mask(k));
    } else {
      OrSetsOther(b, Mask(k), Mask(j));
    }
  }

  lemma OrSetsSame(b: Octet, m: Octet)
    requires m != 0
    ensures BitSet(b | m, m)
  {
    assert (b | m) & m == m;
  }

  lemma OrSetsOther(b: Octet, m: Octet, n: Octet)
    requires m & n == 0
    ensures BitSet(b | m, n) <==> BitSet(b, n)
  {
    assert (b | m) & n == (b & n) | (m & n);
  }

  lemma MarkedAccepts(mar: Mar, i: nat, j: nat)
    requires i < 64 && j < 64
    ensures Accepts(Marked(mar, i), j) <==> Accepts(mar, j) || i == j
  {
    hide BitSet, Mask;
    if i / 8 == j / 8 { OrSets(mar[i / 8], i % 8, j % 8); }
  }

  /** The rebuild loop: the bits of all listed groups. */
  function MarkedAll(mar: Mar, list: seq<Group>): Mar {
    if list == [] then mar else Marked(MarkedAll(mar, list[..|list| - 1]), HashOf(list[|list| - 1]))
  }

  /** The clearing loop stops before the last byte. */
  function Cleared(mar: Mar): Mar {
    [0, 0, 0, 0, 0, 0, 0, mar[7]]
  }

  /** The list, latest group first, the shadow register, and the registers of the chip. */
  datatype Filter = Filter(list: seq<Group>, mar: Mar, regs: Mar)

  /** NicUpdateMCHardware: sets the broadcast bit; the last byte is not written to the chip. */
  function Updated(list: seq<Group>, mar: Mar, regs: Mar): Filter {
    var mar := mar[7 := mar[7] | 0x80];
    Filter(list, mar, mar[..7] + [regs[7]])
  }

  function Find(list: seq<Group>, g: Group): (i: nat)
    ensures i <= |list| && (i < |list| ==> list[i] == g) && forall k :: 0 <= k < i ==> list[k] != g
  {
    if list == [] || list[0] == g then 0 else 1 + Find(list[1..], g)
  }

  function Add(f: Filter, g: Group, memory: bool): Filter {
    if Find(f.list, g) < |f.list| || !memory then f
    else Updated([g] + f.list, Marked(f.mar, HashOf(g)), f.regs)
  }

  function Delete(f: Filter, g: Group): Filter {
    var i := Find(f.list, g);
    if i == |f.list| then f
    else
      var list := f.list[..i] + f.list[i + 1..];
      Updated(list, MarkedAll(Cleared(f.mar), list), f.regs)
  }

  function Hashes(list: seq<Group>): set<nat> {
    set g | g in list :: HashOf(g)
  }

  predicate Distinct(list: seq<Group>) {
    forall i, j :: 0 <= i < j < |list| ==> list[i] != list[j]
  }

  /**
   The listed groups are distinct; below byte 7 the filter accepts exactly their hashes, in byte 7 exactly
   those in seen; the chip has the first seven bytes.
   */
  ghost predicate Inv(f: Filter, seen: set<nat>) {
    Distinct(f.list) && Hashes(f.list) <= seen && f.regs[..7] == f.mar[..7] &&
    forall j: nat :: j < 64 ==> (Accepts(f.mar, j) <==> j in if j < 56 then Hashes(f.list) else seen)
  }

  lemma {:induction false} MarkedAllAccepts(mar: Mar, list: seq<Group>, j: nat)
    requires j < 64
    ensures Accepts(MarkedAll(mar, list), j) <==> Accepts(mar, j) || j in Hashes(list)
    decreases |list|
  {
    hide Accepts, Marked, HashOf;
    if list != [] {
      var rest, g := list[..|list| - 1], list[|list| - 1];
      MarkedAllAccepts(mar, rest, j);
      MarkedAccepts(MarkedAll(mar, rest), HashOf(g), j);
      assert list == rest + [g];
    }
  }

  lemma UpdatedAccepts(list: seq<Group>, mar: Mar, regs: Mar, j: nat)
    requires j < 64
    ensures Accepts(Updated(list, mar, regs).mar, j) <==> Accepts(mar, j) || j == 63
    ensures Updated(list, mar, regs).regs[..7] == Updated(list, mar, regs).mar[..7]
    ensures Updated(list, mar, regs).regs[7] == regs[7]
  {
    assert Marked(mar, 63) == Updated(list, mar, regs).mar;
    MarkedAccepts(mar, 63, j);
  }

  lemma ClearedAccepts(mar: Mar, j: nat)
    requires j < 64
    ensures Accepts(Cleared(mar), j) <==> j >= 56 && Accepts(mar, j)
  {
  }

  lemma AddKeepsInv(f: Filter, seen: set<nat>, g: Group)
    requires Inv(f, seen) && Find(f.list, g) == |f.list|
    ensures Inv(Add(f, g, true), seen + {HashOf(g), 63})
    ensures Add(f, g, true).list == [g] + f.list
  {
    hide Accepts, Marked, HashOf;
    var r := Add(f, g, true);
    assert Hashes(r.list) == Hashes(f.list) + {HashOf(g)} by {
      forall h | h in f.list ensures h in r.list {
        var k :| 0 <= k < |f.list| && f.list[k] == h;
        assert r.list[k + 1] == h;
      }
      assert r.list[0] == g;
    }
    forall j: nat | j < 64
      ensures Accepts(r.mar, j) <==> j in if j < 56 then Hashes(r.list) else seen + {HashOf(g), 63}
    {
      MarkedAccepts(f.mar, HashOf(g), j);
      UpdatedAccepts(r.list, Marked(f.mar, HashOf(g)), f.regs, j);
    }
    UpdatedAccepts(r.list, Marked(f.mar, HashOf(g)), f.regs, 0);
  }

  lemma WithoutOne(list: seq<Group>, i: nat)
    requires Distinct(list) && i < |list|
    ensures var r := list[..i] + list[i + 1..];
            Distinct(r) && list[i] !in r && Hashes(r) <= Hashes(list) &&
            forall h :: h != list[i] ==> (h in r <==> h in list)
  {
    hide HashOf;
    var r := list[..i] + list[i + 1..];
    assert forall k :: 0 <= k < |r| ==> r[k] == list[if k < i then k else k + 1];
    forall h | h in list && h != list[i] ensures h in r {
      var k :| 0 <= k < |list| && list[k] == h;
      assert r[if k < i then k else k - 1] == h;
    }
  }

  lemma DeleteKeepsInv(f: Filter, seen: set<nat>, g: Group)
    requires Inv(f, seen) && Find(f.list, g) < |f.list|
    ensures Inv(Delete(f, g), seen + {63})
    ensures g !in Delete(f, g).list && forall h :: h != g ==> (h in Delete(f, g).list <==> h in f.list)
  {
    hide Accepts, Marked, HashOf, Hashes, Distinct, Cleared, Updated;
    var i := Find(f.list, g);
    var list := f.list[..i] + f.list[i + 1..];
    var r := Delete(f, g);
    WithoutOne(f.list, i);
    UpdatedList(list, MarkedAll(Cleared(f.mar), list), f.regs);
    forall j: nat | j < 64
      ensures Accepts(r.mar, j) <==> j in if j < 56 then Hashes(r.list) else seen + {63}
    {
      ClearedAccepts(f.mar, j);
      MarkedAllAccepts(Cleared(f.mar), list, j);
      UpdatedAccepts(list, MarkedAll(Cleared(f.mar), list), f.regs, j);
    }
    UpdatedAccepts(list, MarkedAll(Cleared(f.mar), list), f.regs, 0);
  }

  lemma UpdatedList(list: seq<Group>, mar: Mar, regs: Mar)
    ensures Updated(list, mar, regs).list == list
  {
  }

  // --- Runs ---

  /** Reset is NicUpdateMCHardware in a restart of the chip, whose registers may hold anything then. */
  datatype Op = Join(group: Group, memory: bool) | Leave(group: Group) | Reset(regs: Mar)

  function Step(f: Filter, op: Op): Filter {
    match op
    case Join(g, memory) => Add(f, g, memory)
    case Leave(g) => Delete(f, g)
    case Reset(regs) => Updated(f.list, f.mar, regs)
  }

  function Run(f: Filter, ops: seq<Op>): Filter {
    if ops == [] then f else Step(Run(f, ops[..|ops| - 1]), ops[|ops| - 1])
  }

  function StepSeen(f: Filter, seen: set<nat>, op: Op): set<nat> {
    match op
    case Join(g, memory) => if Find(f.list, g) < |f.list| || !memory then seen else seen + {HashOf(g), 63}
    case Leave(g) => if Find(f.list, g) == |f.list| then seen else seen + {63}
    case Reset(_) => seen + {63}
  }

  /** The hashes ever added in a run, and the broadcast bit once the register has been updated. */
  function Seen(f: Filter, seen: set<nat>, ops: seq<Op>): set<nat> {
    if ops == [] then seen
    else StepSeen(Run(f, ops[..|ops| - 1]), Seen(f, seen, ops[..|ops| - 1]), ops[|ops| - 1])
  }

  lemma ResetKeepsInv(f: Filter, seen: set<nat>, regs: Mar)
    requires Inv(f, seen)
    ensures Inv(Updated(f.list, f.mar, regs), seen + {63})
  {
    hide Accepts, HashOf, Hashes, Distinct, Updated;
    UpdatedList(f.list, f.mar, regs);
    UpdatedAccepts(f.list, f.mar, regs, 0);
    forall j: nat | j < 64
      ensures Accepts(Updated(f.list, f.mar, regs).mar, j) <==> j in if j < 56 then Hashes(f.list) else seen + {63}
    {
      UpdatedAccepts(f.list, f.mar, regs, j);
    }
  }

  lemma StepKeepsInv(f: Filter, seen: set<nat>, op: Op)
    requires Inv(f, seen)
    ensures Inv(Step(f, op), StepSeen(f, seen, op))
  {
    hide Accepts, HashOf, Updated, Inv;
    match op {
      case Join(g, memory) => if Find(f.list, g) == |f.list| && memory { AddKeepsInv(f, seen, g); }
      case Leave(g) => if Find(f.list, g) < |f.list| { DeleteKeepsInv(f, seen, g); }
      case Reset(regs) => ResetKeepsInv(f, seen, regs);
    }
  }

  /** After every run the filter accepts what it should: too much, if anything, in byte 7 only. */
  lemma {:induction false} RunKeepsInv(f: Filter, seen: set<nat>, ops: seq<Op>)
    requires Inv(f, seen)
    ensures Inv(Run(f, ops), Seen(f, seen, ops))
    ensures forall g :: g in Run(f, ops).list ==> Accepts(Run(f, ops).mar, HashOf(g))
    decreases |ops|
  {
    hide Accepts, HashOf, Step, StepSeen;
    if ops != [] {
      var rest, op := ops[..|ops| - 1], ops[|ops| - 1];
      RunKeepsInv(f, seen, rest);
      StepKeepsInv(Run(f, rest), Seen(f, seen, rest), op);
    }
    forall g | g in Run(f, ops).list ensures Accepts(Run(f, ops).mar, HashOf(g)) {
      assert HashOf(g) in Hashes(Run(f, ops).list);
    }
  }

  const ZEROS: Mar := [0, 0, 0, 0, 0, 0, 0, 0]

  /** After the first start of the chip, whose registers held regs. */
  function Started(regs: Mar): Filter {
    Updated([], ZEROS, regs)
  }

  lemma EmptyFilter()
    ensures Inv(Filter([], ZEROS, ZEROS), {})
  {
  }

  /** Byte 7 of the registers: what the chip held at its last start. */
  function LastByte(regs: Mar, ops: seq<Op>): Octet {
    if ops == [] then regs[7]
    else if ops[|ops| - 1].Reset? then ops[|ops| - 1].regs[7]
    else LastByte(regs, ops[..|ops| - 1])
  }

  lemma {:induction false} LastByteStays(f: Filter, ops: seq<Op>)
    ensures Run(f, ops).regs[7] == LastByte(f.regs, ops)
    decreases |ops|
  {
    hide Marked, MarkedAll, HashOf;
    if ops != [] { LastByteStays(f, ops[..|ops| - 1]); }
  }

  /**
   In every run from the start the first seven bytes of the chip accept exactly the hashes of the listed groups; a
   listed group whose hash is in byte 7, which is never written, is accepted only if the chip happened to hold its
   bit when it was started.
   */
  lemma ChipAcceptsIff(regs: Mar, ops: seq<Op>)
    ensures var r := Run(Started(regs), ops);
            Distinct(r.list) && (forall j: nat :: j < 56 ==> (Accepts(r.regs, j) <==> j in Hashes(r.list))) &&
            forall g :: g in r.list ==>
              (Accepts(r.regs, HashOf(g)) <==>
               HashOf(g) < 56 || BitSet(LastByte(regs, ops), Mask(HashOf(g) % 8)))
  {
    hide HashOf, Hashes, Distinct, Run, LastByte, BitSet, Mask;
    EmptyFilter();
    ResetKeepsInv(Filter([], ZEROS, ZEROS), {}, regs);
    var r, seen := Run(Started(regs), ops), Seen(Started(regs), {63}, ops);
    assert {} + {63} == {63};
    RunKeepsInv(Started(regs), {63}, ops);
    LastByteStays(Started(regs), ops);
    StartedByte(regs, ops);
    forall j: nat | j < 56 ensures Accepts(r.regs, j) <==> j in Hashes(r.list) {
      SameBelow(r.mar, r.regs, j);
      assert Accepts(r.mar, j) <==> j in Hashes(r.list);
    }
    forall g | g in r.list
      ensures Accepts(r.regs, HashOf(g)) <==> HashOf(g) < 56 || BitSet(LastByte(regs, ops), Mask(HashOf(g) % 8))
    {
      ListedHash(r.list, g);
    }
  }

  lemma {:induction false} StartedByte(regs: Mar, ops: seq<Op>)
    ensures LastByte(Started(regs).regs, ops) == LastByte(regs, ops)
    decreases |ops|
  {
    if ops != [] { StartedByte(regs, ops[..|ops| - 1]); }
  }

  lemma SameBelow(mar: Mar, regs: Mar, j: nat)
    requires regs[..7] == mar[..7] && j < 56
    ensures Accepts(regs, j) <==> Accepts(mar, j)
  {
    hide BitSet, Mask;
    assert regs[j / 8] == regs[..7][j / 8] == mar[..7][j / 8];
  }

  lemma ListedHash(list: seq<Group>, g: Group)
    requires g in list
    ensures HashOf(g) in Hashes(list)
  {
  }

  lemma FindIs(list: seq<Group>, g: Group, i: nat)
    requires i <= |list| && (i < |list| ==> list[i] == g) && forall k :: 0 <= k < i ==> list[k] != g
    ensures Find(list, g) == i
  {
  }

  // --- The driver's code ---

  class Interface {
    /** if_mcast, with mca_ha always MacOf of mca_ip */
    var if_mcast: seq<Group>
    const ni_mar: array<Octet>
    /** The multicast registers of the chip. */
    const regs: array<Octet>

    ghost predicate Valid() {
      ni_mar.Length == 8 && regs.Length == 8 && ni_mar != regs
    }

    ghost function State(): Filter
      requires Valid()
      reads this, ni_mar, regs
    {
      Filter(if_mcast, ni_mar[..], regs[..])
    }

    constructor (registers: Mar)
      ensures Valid() && State() == Filter([], [0, 0, 0, 0, 0, 0, 0, 0], registers)
      ensures fresh(ni_mar) && fresh(regs)
    {
      ni_mar := new Octet[8](_ => 0);
      regs := new Octet[8](i requires 0 <= i < 8 => registers[i]);
      if_mcast := [];
    }

    method UpdateMCHardware()
      requires Valid()
      modifies ni_mar, regs
      ensures State() == Updated(if_mcast, old(ni_mar[..]), old(regs[..]))
    {
      ni_mar[7] := ni_mar[7] | 0x80;
      ghost var mar, was := ni_mar[..], regs[..];
      var i := 0;
      while i < 7
        invariant i <= 7 && ni_mar[..] == mar && regs[..] == mar[..i] + was[i..]
      {
        regs[i] := ni_mar[i];
        i := i + 1;
      }
      assert was[7..] == [was[7]];
    }

    method SetBit(index: nat)
      requires Valid() && index < 64
      modifies ni_mar
      ensures ni_mar[..] == Marked(old(ni_mar[..]), index)
    {
      ni_mar[index / 8] := ni_mar[index / 8] | Mask(index % 8);
    }

    method AddMulti(conf: Group, memory: bool) returns (rc: int)
      requires Valid()
      modifies this, ni_mar, regs
      ensures State() == Add(old(State()), conf, memory)
      ensures rc == if memory && conf !in old(if_mcast) then 0 else -1
    {
      hide HashOf, Marked, Updated;
      var mcast := 0;
      while mcast < |if_mcast|
        invariant mcast <= |if_mcast| && forall k :: 0 <= k < mcast ==> if_mcast[k] != conf
      {
        if if_mcast[mcast] == conf {
          FindIs(if_mcast, conf, mcast);
          return -1;
        }
        mcast := mcast + 1;
      }
      FindIs(if_mcast, conf, mcast);
      if !memory { return -1; }
      SetBit(HashOf(conf));
      if_mcast := [conf] + if_mcast;
      UpdateMCHardware();
      rc := 0;
    }

    method ClearMar()
      requires Valid()
      modifies ni_mar
      ensures ni_mar[..] == Cleared(old(ni_mar[..]))
    {
      ghost var was := ni_mar[..];
      var i := 0;
      while i < 7
        invariant i <= 7 && ni_mar[7] == was[7] && forall k :: 0 <= k < i ==> ni_mar[k] == 0
      {
        ni_mar[i] := 0;
        i := i + 1;
      }
    }

    method Rebuild()
      requires Valid()
      modifies ni_mar
      ensures ni_mar[..] == MarkedAll(old(ni_mar[..]), if_mcast)
    {
      hide HashOf, Marked;
      ghost var was := ni_mar[..];
      var mcast := 0;
      while mcast < |if_mcast|
        invariant mcast <= |if_mcast| && ni_mar[..] == MarkedAll(was, if_mcast[..mcast])
      {
        SetBit(HashOf(if_mcast[mcast]));
        mcast := mcast + 1;
        assert if_mcast[..mcast][..mcast - 1] == if_mcast[..mcast - 1];
      }
      assert if_mcast[..mcast] == if_mcast;
    }

    method DelMulti(conf: Group) returns (rc: int)
      requires Valid()
      modifies this, ni_mar, regs
      ensures State() == Delete(old(State()), conf)
      ensures rc == if conf in old(if_mcast) then 0 else -1
    {
      hide HashOf, Marked, Updated, Cleared;
      var mcast := 0;
      while mcast < |if_mcast| && if_mcast[mcast] != conf
        invariant mcast <= |if_mcast| && forall k :: 0 <= k < mcast ==> if_mcast[k] != conf
      {
        mcast := mcast + 1;
      }
      FindIs(if_mcast, conf, mcast);
      if mcast == |if_mcast| { return -1; }
      if_mcast := if_mcast[..mcast] + if_mcast[mcast + 1..];
      ClearMar();
      Rebuild();
      UpdateMCHardware();
      rc := 0;
    }
  }
}
