/**
 The doubly linked list of crt/environ.c, relinked in place by crt/setenv.c, and the memory it is saved to.
 */
module EnvironList {
  import opened Environ
  import opened EnvironImage
  import opened EnvironRuns
  import opened Machine

  /** NUTENVIRONMENT */
  class Node {
    var env_next: Node?
    var env_prev: Node?
    var env_name: Str
    var env_value: Value

    constructor (name: Str, value: Value)
      ensures env_next == null && env_prev == null && env_name == name && env_value == value
    {
      env_next, env_prev := null, null;
      env_name, env_value := name, value;
    }
  }

  ghost function NextOf(ns: seq<Node>, i: nat): Node?
    requires i < |ns|
  {
    if i + 1 < |ns| then ns[i + 1] else null
  }

  ghost function PrevOf(ns: seq<Node>, i: nat): Node?
    requires i < |ns|
  {
    if i > 0 then ns[i - 1] else null
  }

  ghost predicate Tied(ns: seq<Node>, i: nat)
    requires i < |ns|
    reads ns
  {
    ns[i].env_next == NextOf(ns, i) && ns[i].env_prev == PrevOf(ns, i)
  }

  ghost predicate Distinct(ns: seq<Node>) {
    forall i, j :: 0 <= i < j < |ns| ==> ns[i] != ns[j]
  }

  /** The nodes in list order: no node twice, next and prev inverse to each other. */
  ghost predicate Linked(ns: seq<Node>)
    reads ns
  {
    Distinct(ns) && forall i :: 0 <= i < |ns| ==> Tied(ns, i)
  }

  ghost function EntriesOf(ns: seq<Node>): (es: seq<Entry>)
    reads ns
    ensures |es| == |ns|
  {
    seq(|ns|, i requires 0 <= i < |ns| reads ns => Entry(ns[i].env_name, ns[i].env_value))
  }

  lemma Differ(ns: seq<Node>, i: int, j: int)
    requires Distinct(ns)
    ensures 0 <= i < |ns| && 0 <= j < |ns| && i != j ==> ns[i] != ns[j]
  {
  }

  /** The neighbours after a node has been put in at p. */
  lemma NeighboursInserted(ns: seq<Node>, n: Node, p: nat, i: nat)
    requires p <= |ns| && i <= |ns|
    ensures var ms := ns[..p] + [n] + ns[p..];
            i < |ms| &&
            ms[i] == (if i < p then ns[i] else if i == p then n else ns[i - 1]) &&
            NextOf(ms, i) == (if i == p then (if p < |ns| then ns[p] else null)
                              else if i + 1 == p then n
                              else NextOf(ns, if i < p then i else i - 1)) &&
            PrevOf(ms, i) == (if i == p then (if p > 0 then ns[p - 1] else null)
                              else if i == p + 1 then n
                              else PrevOf(ns, if i < p then i else i - 1))
  {
  }

  /** The neighbours after the node at p has been taken out. */
  lemma NeighboursRemoved(ns: seq<Node>, p: nat, i: nat)
    requires p < |ns| && i < |ns| - 1
    ensures var ms := ns[..p] + ns[p + 1..];
            i < |ms| &&
            ms[i] == ns[if i < p then i else i + 1] &&
            NextOf(ms, i) == (if i + 1 == p then NextOf(ns, p) else NextOf(ns, if i < p then i else i + 1)) &&
            PrevOf(ms, i) == (if i == p then PrevOf(ns, p) else PrevOf(ns, if i < p then i else i + 1))
  {
  }

  /** Node i keeps its neighbours, except that p is skipped. */
  ghost predicate Bridged(ns: seq<Node>, p: nat, i: nat)
    requires p < |ns| && i < |ns|
    reads ns
  {
    ns[i].env_next == (if i + 1 == p then NextOf(ns, p) else NextOf(ns, i)) &&
    ns[i].env_prev == (if i == p + 1 then PrevOf(ns, p) else PrevOf(ns, i))
  }

  lemma BridgedLinks(ns: seq<Node>, p: nat)
    requires Distinct(ns) && p < |ns| && forall i :: 0 <= i < |ns| && i != p ==> Bridged(ns, p, i)
    ensures Linked(ns[..p] + ns[p + 1..])
  {
    var ms := ns[..p] + ns[p + 1..];
    RemovedDistinct(ns, p);
    forall i | 0 <= i < |ms| ensures Tied(ms, i) {
      NeighboursRemoved(ns, p, i);
      assert Bridged(ns, p, if i < p then i else i + 1);
    }
  }

  lemma EntriesOfAt(ns: seq<Node>, es: seq<Entry>)
    requires es == EntriesOf(ns)
    ensures forall i :: 0 <= i < |ns| ==> es[i] == Entry(ns[i].env_name, ns[i].env_value)
  {
  }

  lemma SpliceEntries(ns: seq<Node>, es: seq<Entry>, n: Node, p: nat)
    requires |es| == |ns| && p <= |ns|
    requires forall i :: 0 <= i < |ns| ==> es[i] == Entry(ns[i].env_name, ns[i].env_value)
    ensures EntriesOf(ns[..p] + [n] + ns[p..]) == Inserted(es, Entry(n.env_name, n.env_value), p)
    ensures (ns[..p] + [n] + ns[p..])[p] == n
  {
  }

  lemma CutEntries(ns: seq<Node>, es: seq<Entry>, p: nat)
    requires |es| == |ns| && p < |ns|
    requires forall i :: 0 <= i < |ns| ==> es[i] == Entry(ns[i].env_name, ns[i].env_value)
    ensures EntriesOf(ns[..p] + ns[p + 1..]) == Removed(es, p)
  {
  }

  lemma InsertedDistinct(ns: seq<Node>, n: Node, p: nat)
    requires Distinct(ns) && n !in ns && p <= |ns|
    ensures Distinct(ns[..p] + [n] + ns[p..])
  {
    forall i, j | 0 <= i < j < |ns| + 1 ensures (ns[..p] + [n] + ns[p..])[i] != (ns[..p] + [n] + ns[p..])[j] {
      NeighboursInserted(ns, n, p, i);
      NeighboursInserted(ns, n, p, j);
    }
  }

  lemma RemovedDistinct(ns: seq<Node>, p: nat)
    requires Distinct(ns) && p < |ns|
    ensures Distinct(ns[..p] + ns[p + 1..])
  {
  }

  lemma IndexIs(es: seq<Entry>, name: Str, i: nat)
    requires i <= |es| && forall k :: 0 <= k < i ==> es[k].name != name
    requires i < |es| ==> es[i].name == name
    ensures IndexOf(es, name) == i
  {
  }

  lemma PlaceIs(es: seq<Entry>, name: Str, i: nat)
    requires i <= |es| && forall k :: 0 <= k < i ==> !Less(name, es[k].name)
    requires i < |es| ==> Less(name, es[i].name)
    ensures Place(es, name) == i
  {
  }

  /** The buffer starts with the text, as far as there is a buffer and it is long enough. */
  ghost predicate Kept(buf: array?<Byte>, text: seq<Byte>)
    reads buf
  {
    buf == null || |text| > buf.Length || buf[..|text|] == text
  }

  /** read_string has read the text and goes on. */
  predicate Reading(mem: Memory, addr: nat, siz: nat, text: Str) {
    |text| <= siz + 1 && addr + |text| <= |mem| && text == mem[addr..addr + |text|] &&
    Stop(mem, addr + |text|, siz + 1 - |text|) == Stop(mem, addr, siz + 1)
  }

  lemma ReadingStarts(mem: Memory, addr: nat, siz: nat)
    requires addr <= |mem|
    ensures Reading(mem, addr, siz, [])
  {
  }

  /** It ends at its limit, at the end of the memory, or at a zero, and takes any other byte. */
  lemma ReadingGoes(mem: Memory, addr: nat, siz: nat, text: Str)
    requires Reading(mem, addr, siz, text)
    ensures var next := addr + |text|;
            if |text| == siz + 1 then ReadString(mem, addr, siz) == Read(text, |text|, next)
            else if next >= |mem| then next == |mem| && ReadString(mem, addr, siz) == Read(text, 0, next)
            else if mem[next] == 0 then ReadString(mem, addr, siz) == Read(text, |text|, next + 1)
            else Reading(mem, addr, siz, text + [mem[next]])
  {
    hide Stop;
    var next := addr + |text|;
    StopMoves(mem, next, siz + 1 - |text|);
    if |text| <= siz && next < |mem| { OneByteMore(mem, addr, next); }
  }

  lemma OneByteMore(mem: Memory, addr: nat, next: nat)
    requires addr <= next < |mem|
    ensures mem[addr..next + 1] == mem[addr..next] + [mem[next]]
  {
  }

  class Environment {
    var nut_environ: Node?
    var mem: Memory
    ghost var nodes: seq<Node>

    ghost predicate Valid()
      reads this, nodes
    {
      Linked(nodes) && nut_environ == if nodes == [] then null else nodes[0]
    }

    ghost function Contents(): State
      reads this, nodes
    {
      State(EntriesOf(nodes), mem)
    }

    constructor (mem: Memory)
      ensures Valid() && Contents() == State([], mem)
    {
      this.mem := mem;
      nut_environ, nodes := null, [];
    }

    /** `*buf++ = ch` behind text, if there is a buffer; a write behind its end is not carried out, but reported. */
    method StoreChar(buf: array?<Byte>, text: seq<Byte>, ch: Byte) returns (fits: bool)
      requires Kept(buf, text)
      modifies buf
      ensures Kept(buf, text + [ch]) && (fits <==> buf == null || |text| < buf.Length)
    {
      fits := buf == null || |text| < buf.Length;
      if buf != null && fits {
        buf[|text|] := ch;
      }
    }

    /** read_string: text is what is written to the buffer, if there is one, followed by a zero. */
    method Fetch(addr: nat, buf: array?<Byte>, siz: nat) returns (text: Str, len: nat, next: nat, fits: bool)
      requires addr <= |mem|
      modifies buf
      ensures Read(text, len, next) == ReadString(mem, addr, siz)
      ensures Kept(buf, text + [0]) && (fits <==> buf == null || |text| < buf.Length)
    {
      hide ReadString, Kept, Reading;
      text, len, next := [], 0, addr;
      var going := true;
      NothingKept(buf);
      ReadingStarts(mem, addr, siz);
      while going && len <= siz
        invariant addr <= next <= |mem| && Kept(buf, text)
        invariant going ==> len == |text| <= siz + 1 && next == addr + |text| && Reading(mem, addr, siz, text)
        invariant !going ==> Read(text, len, next) == ReadString(mem, addr, siz)
        modifies buf
        decreases going, siz + 1 - len
      {
        ReadingGoes(mem, addr, siz, text);
        if next >= |mem| {
          len := 0;
          going := false;
        } else {
          var ch := mem[next];
          next := next + 1;
          if ch == 0 {
            going := false;
          } else {
            var _ := StoreChar(buf, text, ch);
            text := text + [ch];
            len := len + 1;
          }
        }
      }
      if going { ReadingGoes(mem, addr, siz, text); }
      fits := StoreChar(buf, text, 0);
    }

    lemma NothingKept(buf: array?<Byte>)
      ensures Kept(buf, [])
    {
    }

    /**
     The two passes over the memory; builds the list while the heap has room for another entry, and tells whether
     all its writes stay in bounds.
     */
    method LoadEnv(loads: nat) returns (ok: bool)
      requires Valid() && nodes == []
      modifies this`nut_environ, this`nodes
      ensures Valid() && fresh(nodes) && EntriesOf(nodes) == Load(mem, loads)
      ensures ok <==> InBounds(mem, loads)
    {
      hide MaxLength, Loaded, StaysIn;
      ok := true;
      if OFFSET + |MAGIC| > |mem| || mem[OFFSET..OFFSET + |MAGIC|] != MAGIC {
        return;
      }
      var addr := OFFSET + |MAGIC|;
      var max := FirstPass(addr);
      if max != 0 {
        ok := SecondPass(addr, max, loads);
      }
    }

    method FirstPass(start: nat) returns (max: nat)
      requires start <= |mem|
      ensures max == MaxLength(mem, start, 0)
    {
      hide ReadString;
      max := 0;
      var text, len, addr, fits := Fetch(start, null, MAX_ITEM);
      ghost var from := start;
      while len > 0
        invariant from <= |mem| && addr <= |mem|
        invariant len == ReadString(mem, from, MAX_ITEM).len && addr == ReadString(mem, from, MAX_ITEM).next
        invariant MaxLength(mem, from, max) == MaxLength(mem, start, 0)
        decreases |mem| - from
      {
        if len > max { max := len; }
        text, len, addr, fits := Fetch(addr, null, MAX_ITEM);
        if len > max { max := len; }
        from := addr;
        text, len, addr, fits := Fetch(addr, null, MAX_ITEM);
      }
    }

    /** One round of the second pass: the value behind a name, and the entry of both. */
    method LoadEntry(prvp: Node?, name: Str, addr: nat, buf: array<Byte>, max: nat, ghost from: nat, ghost left: nat)
      returns (envp: Node, fine: bool, next: nat)
      requires Valid() && prvp == (if nodes == [] then null else nodes[|nodes| - 1]) && buf.Length == max + 1
      requires from <= |mem| && left > 0 && Read(name, |name|, addr) == ReadString(mem, from, max) && name != []
      modifies this`nut_environ, this`nodes, prvp, buf
      ensures Valid() && fresh(envp) && nodes == old(nodes) + [envp] && from < next <= |mem|
      ensures EntriesOf(nodes) + Loaded(mem, next, max, left - 1) ==
              old(EntriesOf(nodes)) + Loaded(mem, from, max, left)
      ensures |name| <= max && fine && StaysIn(mem, next, max, left - 1) <==> StaysIn(mem, from, max, left)
    {
      hide ReadString, Loaded, StaysIn, Linked, EntriesOf;
      StaysStep(from, max, left);
      SecondPassGrows(EntriesOf(nodes), from, max, left);
      var text, len, fits;
      text, len, next, fits := Fetch(addr, buf, max);
      fine := fits && |text| == len;
      envp := AddEntry(prvp, name, text);
    }

    method SecondPass(start: nat, max: nat, loads: nat) returns (ok: bool)
      requires start <= |mem| && Valid() && nodes == []
      modifies this`nut_environ, this`nodes
      ensures Valid() && fresh(nodes) && EntriesOf(nodes) == Loaded(mem, start, max, loads)
      ensures ok <==> StaysIn(mem, start, max, loads)
    {
      hide ReadString, Loaded, StaysIn, Linked, EntriesOf;
      var buf := new Byte[max + 1];
      var prvp: Node? := null;
      var left := loads;
      var name, len, addr, fits := Fetch(start, buf, max);
      ok := true;
      ghost var from := start;
      NothingYet(Loaded(mem, start, max, loads));
      while len > 0 && left > 0
        invariant Valid() && fresh(nodes) && from <= |mem|
        invariant Read(name, len, addr) == ReadString(mem, from, max) && (fits <==> |name| <= max)
        invariant prvp == if nodes == [] then null else nodes[|nodes| - 1]
        invariant EntriesOf(nodes) + Loaded(mem, from, max, left) == Loaded(mem, start, max, loads)
        invariant ok && StaysIn(mem, from, max, left) <==> StaysIn(mem, start, max, loads)
        decreases |mem| - from
      {
        var fine;
        prvp, fine, addr := LoadEntry(prvp, name, addr, buf, max, from, left);
        ok := ok && fits && fine;
        from := addr;
        left := left - 1;
        name, len, addr, fits := Fetch(addr, buf, max);
      }
      SecondPassStops(EntriesOf(nodes), from, max, left);
      StaysStep(from, max, left);
      ok := ok && fits;
    }

    lemma StaysStep(addr: nat, siz: nat, left: nat)
      requires addr <= |mem|
      ensures var name := ReadString(mem, addr, siz);
              StaysIn(mem, addr, siz, left) <==>
              |name.text| <= siz &&
              (name.len == 0 || left == 0 ||
               (var text := ReadString(mem, name.next, siz);
                |text.text| <= siz && |text.text| == text.len && StaysIn(mem, text.next, siz, left - 1)))
    {
      hide ReadString;
    }

    lemma SecondPassStops(es: seq<Entry>, from: nat, max: nat, left: nat)
      requires from <= |mem| && (left == 0 || ReadString(mem, from, max).len == 0)
      ensures es + Loaded(mem, from, max, left) == es
    {
    }

    lemma NothingYet(es: seq<Entry>)
      requires nodes == []
      ensures EntriesOf(nodes) + es == es
    {
    }

    /** One entry read moves from the memory to the list. */
    lemma SecondPassGrows(es: seq<Entry>, from: nat, max: nat, left: nat)
      requires from <= |mem| && left > 0 && ReadString(mem, from, max).len > 0
      ensures var name := ReadString(mem, from, max);
              var text := ReadString(mem, name.next, max);
              es + Loaded(mem, from, max, left) ==
              es + [Entry(name.text, Present(text.text))] + Loaded(mem, text.next, max, left - 1)
    {
    }

    /** A new entry at the end of the list. */
    method AddEntry(last: Node?, name: Str, value: Str) returns (envp: Node)
      requires Valid() && last == if nodes == [] then null else nodes[|nodes| - 1]
      modifies this`nut_environ, this`nodes, last
      ensures Valid() && fresh(envp) && nodes == old(nodes) + [envp]
      ensures EntriesOf(nodes) == old(EntriesOf(nodes)) + [Entry(name, Present(value))]
    {
      hide Linked, EntriesOf;
      envp := new Node(name, Present(value));
      Append(last, envp);
    }

    /** Links a new node behind the last one. */
    method Append(last: Node?, envp: Node)
      requires Valid() && envp !in nodes && envp.env_next == null && envp.env_prev == null
      requires last == if nodes == [] then null else nodes[|nodes| - 1]
      modifies this`nut_environ, this`nodes, envp, last
      ensures Valid() && nodes == old(nodes) + [envp]
      ensures EntriesOf(nodes) == old(EntriesOf(nodes)) + [Entry(old(envp.env_name), old(envp.env_value))]
    {
      if last != null {
        last.env_next := envp;
        envp.env_prev := last;
      } else {
        nut_environ := envp;
      }
      ghost var was := nodes;
      nodes := was + [envp];
      assert nodes == was[..|was|] + [envp] + was[|was|..];
      InsertedDistinct(was, envp, |was|);
      forall i | 0 <= i < |nodes| ensures Tied(nodes, i) {
        NeighboursInserted(was, envp, |was|, i);
        assert i < |was| ==> old(Tied(was, i));
      }
    }

    /** findenv */
    method FindEnv(name: Str, loads: nat) returns (envp: Node?, ghost at: nat)
      requires Valid()
      modifies this`nut_environ, this`nodes
      ensures Valid() && Contents() == Refreshed(old(Contents()), loads)
      ensures at == IndexOf(Contents().list, name) && envp == if at < |nodes| then nodes[at] else null
      ensures nodes == old(nodes) || fresh(nodes)
    {
      if nut_environ == null {
        var _ := LoadEnv(loads);
      }
      envp, at := nut_environ, 0;
      while envp != null && envp.env_name != name
        invariant at <= |nodes| && envp == if at < |nodes| then nodes[at] else null
        invariant forall k :: 0 <= k < at ==> Contents().list[k].name != name
        decreases |nodes| - at
      {
        assert Tied(nodes, at);
        envp := envp.env_next;
        at := at + 1;
      }
      IndexIs(Contents().list, name, at);
    }

    /** The loop of setenv that links a new node in before the first greater name. */
    method LinkIn(envp: Node)
      requires Valid() && envp !in nodes && envp.env_next == null && envp.env_prev == null
      modifies this`nut_environ, this`nodes, envp`env_next, envp`env_prev, nodes`env_next, nodes`env_prev
      ensures Valid()
      ensures var p := Place(old(EntriesOf(nodes)), envp.env_name); nodes == old(nodes[..p] + [envp] + nodes[p..])
      ensures forall n :: n in nodes ==> n.env_name == old(n.env_name) && n.env_value == old(n.env_value)
    {
      var nxtp: Node? := nut_environ;
      var prvp: Node? := null;
      ghost var p := 0;
      while nxtp != null && !Less(envp.env_name, nxtp.env_name)
        invariant p <= |nodes| && nxtp == if p < |nodes| then nodes[p] else null
        invariant prvp == if p > 0 then nodes[p - 1] else null
        invariant forall k :: 0 <= k < p ==> !Less(envp.env_name, EntriesOf(nodes)[k].name)
        decreases |nodes| - p
      {
        assert Tied(nodes, p);
        prvp := nxtp;
        nxtp := nxtp.env_next;
        p := p + 1;
      }
      PlaceIs(EntriesOf(nodes), envp.env_name, p);
      LinkBetween(prvp, envp, nxtp, p);
    }

    /** Relinks the neighbours of a new node at position p; either of them may be missing. */
    method LinkBetween(prvp: Node?, envp: Node, nxtp: Node?, ghost p: nat)
      requires Valid() && p <= |nodes| && envp !in nodes && envp.env_next == null && envp.env_prev == null
      requires nxtp == (if p < |nodes| then nodes[p] else null) && prvp == if p > 0 then nodes[p - 1] else null
      modifies this`nut_environ, this`nodes, envp`env_next, envp`env_prev, nodes`env_next, nodes`env_prev
      ensures Valid() && nodes == old(nodes[..p] + [envp] + nodes[p..])
    {
      assert p < |nodes| ==> Tied(nodes, p);
      if nxtp != null {
        if nxtp.env_prev != null {
          nxtp.env_prev.env_next := envp;
        } else {
          nut_environ := envp;
        }
        envp.env_next := nxtp;
        envp.env_prev := nxtp.env_prev;
        nxtp.env_prev := envp;
      } else if prvp != null {
        prvp.env_next := envp;
        envp.env_prev := prvp;
      } else {
        nut_environ := envp;
      }
      ghost var was := nodes;
      nodes := was[..p] + [envp] + was[p..];
      InsertedDistinct(was, envp, p);
      forall i | 0 <= i < |nodes| ensures Tied(nodes, i) {
        NeighboursInserted(was, envp, p, i);
        if i != p {
          ghost var k := if i < p then i else i - 1;
          assert old(Tied(was, k));
          if k != p { Differ(was, k, p); }
          if k + 1 != p { Differ(was, k, p - 1); }
        }
      }
    }

    /** save_env */
    method Save(writes: nat) returns (rc: int)
      requires Valid()
      modifies this`mem
      ensures Stored(mem, rc) == EnvironImage.SaveEnv(old(mem), EntriesOf(nodes), writes)
    {
      rc := 0;
      if nut_environ != null {
        var addr := OFFSET;
        var left := writes;
        var ok := Write(addr, MAGIC, left);
        if ok {
          addr := addr + |MAGIC|;
          left := left - 1;
          rc := SaveEntries(addr, left);
        }
      }
    }

    /** NutNvMemSave, as long as writes go through. */
    method Write(addr: nat, data: seq<Byte>, left: nat) returns (ok: bool)
      modifies this`mem
      ensures ok <==> left > 0 && addr + |data| <= |old(mem)|
      ensures mem == if ok then WriteAt(old(mem), addr, data) else old(mem)
    {
      ok := left > 0 && addr + |data| <= |mem|;
      if ok {
        mem := mem[..addr] + data + mem[addr + |data|..];
      }
    }

    method SaveEntries(start: nat, writes: nat) returns (rc: int)
      requires Valid()
      modifies this`mem
      ensures Stored(mem, rc) == StoreChunks(old(mem), start, EntryChunks(EntriesOf(nodes)), writes)
    {
      hide StoreChunks, EntryChunks, WriteAt, Cell, Distinct;
      ghost var es := EntriesOf(nodes);
      assert es[0..] == es;
      var addr: nat, left: nat := start, writes;
      var envp := nut_environ;
      ghost var p := 0;
      rc := 0;
      while envp != null
        invariant p <= |nodes| && envp == if p < |nodes| then nodes[p] else null
        invariant StoreChunks(mem, addr, EntryChunks(es[p..]), left) ==
                  StoreChunks(old(mem), start, EntryChunks(es), writes)
        decreases |nodes| - p
      {
        SaveStep(mem, addr, es[p..], left);
        assert es[p..][1..] == es[p + 1..];
        var ok := Write(addr, Cell(envp.env_name), left);
        if !ok { return -1; }
        addr, left := addr + |Cell(envp.env_name)|, left - 1;
        ok := Write(addr, Cell(TextOf(envp.env_value)), left);
        if !ok { return -1; }
        addr, left := addr + |Cell(TextOf(envp.env_value))|, left - 1;
        assert Tied(nodes, p);
        envp := envp.env_next;
        p := p + 1;
      }
      assert es[p..] == [];
      SaveEnds(mem, addr, left);
      var ok := Write(addr, Cell([]), left);
      rc := if ok then 0 else -1;
    }

    /** getenv; null is Absent. */
    method GetEnv(name: Str, loads: nat) returns (value: Value)
      requires Valid()
      modifies this`nut_environ, this`nodes
      ensures Valid() && Contents() == Refreshed(old(Contents()), loads)
      ensures value == GetIn(Contents().list, name)
    {
      var envp, at := FindEnv(name, loads);
      if envp == null { return Absent; }
      value := if envp.env_value.Present? then envp.env_value else Present([]);
    }

    /** nextenv; an empty name asks for the first one, without loading. */
    method NextEnv(name: Str, loads: nat) returns (next: Value)
      requires Valid()
      modifies this`nut_environ, this`nodes
      ensures Valid() && Contents() == if name == [] then old(Contents()) else Refreshed(old(Contents()), loads)
      ensures next == NextName(Contents().list, name)
    {
      hide IndexOf, Load, Distinct;
      if name != [] {
        var envp, at := FindEnv(name, loads);
        assert envp != null ==> Tied(nodes, at);
        if envp != null && envp.env_next != null {
          return Present(envp.env_next.env_name);
        }
      } else if nut_environ != null {
        return Present(nut_environ.env_name);
      }
      next := Absent;
    }

    /** The forced update in setenv, saved if it changes anything. */
    method Assign(envp: Node, ghost at: nat, value: Str, luck: Luck) returns (rc: int)
      requires Valid() && at < |nodes| && envp == nodes[at]
      modifies this`mem, envp`env_value
      ensures Valid()
      ensures var r := Assigned(old(EntriesOf(nodes)), at, value, luck.room);
              var stored := EnvironImage.SaveEnv(old(mem), r.list, luck.writes);
              EntriesOf(nodes) == r.list &&
              Stored(mem, rc) == if r.Changed? then stored else Stored(old(mem), if r.Failed? then -1 else 0)
    {
      hide EnvironImage.SaveEnv;
      if envp.env_value == Present(value) {
        return 0;
      }
      envp.env_value := if luck.room.text then Present(value) else Absent;
      forall i | 0 <= i < |nodes| ensures Tied(nodes, i) { assert old(Tied(nodes, i)); }
      EntryAssigned(old(EntriesOf(nodes)), at, envp.env_value);
      if !luck.room.text { return -1; }
      rc := Save(luck.writes);
    }

    /** The list differs from es in one value. */
    lemma EntryAssigned(es: seq<Entry>, at: nat, value: Value)
      requires at < |nodes| == |es| && nodes[at].env_value == value && nodes[at].env_name == es[at].name
      requires Distinct(nodes)
      requires forall i :: 0 <= i < |nodes| && i != at ==> Entry(nodes[i].env_name, nodes[i].env_value) == es[i]
      ensures EntriesOf(nodes) == es[at := es[at].(value := value)]
    {
    }

    /** setenv */
    method SetEnv(name: Str, value: Str, force: bool, luck: Luck) returns (rc: int)
      requires Valid()
      modifies this, nodes
      ensures Valid() && Result(Contents(), rc) == EnvironRuns.SetEnv(old(Contents()), name, value, force, luck)
    {
      hide EnvironImage.SaveEnv, Linked, EntriesOf, Inserted, Load;
      var envp, at := FindEnv(name, luck.loads);
      var force := force;
      if envp == null {
        if !luck.room.node || !luck.room.name { return -1; }
        envp, at := Create(name);
        force := true;
      }
      if force {
        rc := Assign(envp, at, value, luck);
        return;
      }
      rc := 0;
    }

    /** A new entry without a value, at its place. */
    method Create(name: Str) returns (envp: Node, ghost at: nat)
      requires Valid()
      modifies this`nut_environ, this`nodes, nodes`env_next, nodes`env_prev
      ensures Valid() && fresh(envp) && at == Place(old(EntriesOf(nodes)), name)
      ensures at < |nodes| && nodes[at] == envp
      ensures EntriesOf(nodes) == Inserted(old(EntriesOf(nodes)), Entry(name, Absent), at)
    {
      hide Linked, Inserted, EntriesOf, Place;
      ghost var was, es := nodes, EntriesOf(nodes);
      at := Place(es, name);
      envp := new Node(name, Absent);
      EntriesOfAt(was, es);
      LinkIn(envp);
      SpliceEntries(was, es, envp, at);
    }

    /** unsetenv */
    method UnsetEnv(name: Str, luck: Luck) returns (rc: int)
      requires Valid()
      modifies this, nodes
      ensures Valid() && Result(Contents(), rc) == EnvironRuns.UnsetEnv(old(Contents()), name, luck)
    {
      hide EnvironImage.SaveEnv, Linked, EntriesOf, Removed, Load;
      var envp, at := FindEnv(name, luck.loads);
      if envp == null { return -1; }
      Unlink(envp, at);
      var _ := Save(luck.writes);
      rc := 0;
    }

    /** Takes a node out of the list. */
    method Unlink(envp: Node, ghost p: nat)
      requires Valid() && p < |nodes| && envp == nodes[p]
      modifies this`nut_environ, this`nodes, nodes`env_next, nodes`env_prev
      ensures Valid() && nodes == old(nodes[..p] + nodes[p + 1..])
      ensures EntriesOf(nodes) == Removed(old(EntriesOf(nodes)), p)
    {
      hide EntriesOf, Removed, Distinct, IndexOf, Load;
      EntriesOfAt(nodes, EntriesOf(nodes));
      Differ(nodes, 0, p);
      assert Tied(nodes, p);
      if envp.env_prev != null {
        envp.env_prev.env_next := envp.env_next;
      }
      if envp.env_next != null {
        envp.env_next.env_prev := envp.env_prev;
      }
      if nut_environ == envp {
        nut_environ := envp.env_next;
      }
      ghost var was := nodes;
      nodes := was[..p] + was[p + 1..];
      forall i | 0 <= i < |was| && i != p ensures Bridged(was, p, i) {
        assert old(Tied(was, i));
        if i != p + 1 { Differ(was, i, p + 1); }
        if i + 1 != p { Differ(was, i, p - 1); }
      }
      BridgedLinks(was, p);
      CutEntries(was, old(EntriesOf(nodes)), p);
    }
  }

  /** One entry's two chunks. */
  lemma SaveStep(mem: Memory, addr: nat, es: seq<Entry>, left: nat)
    requires es != []
    ensures var a, b := Cell(es[0].name), Cell(TextOf(es[0].value));
            var r := StoreChunks(mem, addr, EntryChunks(es), left);
            if left == 0 || addr + |a| > |mem| then r == Stored(mem, -1)
            else
              var mem1 := WriteAt(mem, addr, a);
              if left == 1 || addr + |a| + |b| > |mem1| then r == Stored(mem1, -1)
              else r == StoreChunks(WriteAt(mem1, addr + |a|, b), addr + |a| + |b|, EntryChunks(es[1..]), left - 2)
  {
    hide StoreChunks, WriteAt, Cell;
    var a, b := Cell(es[0].name), Cell(TextOf(es[0].value));
    assert EntryChunks(es) == [a] + ([b] + EntryChunks(es[1..]));
    StoreOne(mem, addr, a, [b] + EntryChunks(es[1..]), left);
    if left > 0 && addr + |a| <= |mem| {
      StoreOne(WriteAt(mem, addr, a), addr + |a|, b, EntryChunks(es[1..]), left - 1);
    }
  }

  lemma SaveEnds(mem: Memory, addr: nat, left: nat)
    ensures |Cell([])| == 1
    ensures StoreChunks(mem, addr, EntryChunks([]), left) ==
            if left == 0 || addr + 1 > |mem| then Stored(mem, -1) else Stored(WriteAt(mem, addr, Cell([])), 0)
  {
    EmptyChunks(mem, addr, left);
  }
}
