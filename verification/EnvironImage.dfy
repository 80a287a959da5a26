/**
 The environment in non-volatile memory: what save_env of crt/setenv.c writes and what the two passes of
 findenv in crt/environ.c read back.
 */
module EnvironImage {
  import opened Environ
  import opened Machine

  const OFFSET := 256
  const MAX_ITEM := 64

  /** ENVIRON_MAGIC, low byte first. */
  const MAGIC: seq<Byte> := [0x45, 0x4E, 0x56, 0x00]

  type Memory = seq<Byte>

  function TextOf(v: Value): Str {
    if v.Absent? then [] else v.text
  }

  // --- Saving ---

  /** A string with its terminating zero. */
  function Cell(s: Str): seq<Byte> {
    s + [0]
  }

  function EntryChunks(es: seq<Entry>): seq<seq<Byte>> {
    if es == [] then [[0]] else [Cell(es[0].name), Cell(TextOf(es[0].value))] + EntryChunks(es[1..])
  }

  function WriteAt(mem: Memory, addr: nat, data: seq<Byte>): Memory
    requires addr + |data| <= |mem|
  {
    mem[..addr] + data + mem[addr + |data|..]
  }

  datatype Stored = Stored(mem: Memory, rc: int)

  /** Writes one chunk after the other until a write fails: after so many, or past the end. */
  function StoreChunks(mem: Memory, addr: nat, chunks: seq<seq<Byte>>, writes: nat): Stored
    decreases |chunks|
  {
    if chunks == [] then Stored(mem, 0)
    else if writes == 0 || addr + |chunks[0]| > |mem| then Stored(mem, -1)
    else StoreChunks(WriteAt(mem, addr, chunks[0]), addr + |chunks[0]|, chunks[1..], writes - 1)
  }

  /** save_env: a failure to write the magic number goes unreported. */
  function SaveEnv(mem: Memory, es: seq<Entry>, writes: nat): Stored {
    if es == [] || writes == 0 || OFFSET + |MAGIC| > |mem| then Stored(mem, 0)
    else StoreChunks(WriteAt(mem, OFFSET, MAGIC), OFFSET + |MAGIC|, EntryChunks(es), writes - 1)
  }

  /** The entries one after the other, and the empty name that ends them. */
  function Body(es: seq<Entry>): seq<Byte> {
    if es == [] then Cell([]) else Cell(es[0].name) + (Cell(TextOf(es[0].value)) + Body(es[1..]))
  }

  function Image(es: seq<Entry>): seq<Byte> {
    MAGIC + Body(es)
  }

  predicate HoldsAt(mem: Memory, addr: nat, data: seq<Byte>) {
    addr + |data| <= |mem| && mem[addr..addr + |data|] == data
  }

  predicate Saved(mem: Memory, es: seq<Entry>) {
    HoldsAt(mem, OFFSET, Image(es))
  }

  lemma WriteTwice(mem: Memory, addr: nat, a: seq<Byte>, b: seq<Byte>)
    requires addr + |a| + |b| <= |mem|
    ensures WriteAt(WriteAt(mem, addr, a), addr + |a|, b) == WriteAt(mem, addr, a + b)
  {
    var x, y := WriteAt(WriteAt(mem, addr, a), addr + |a|, b), WriteAt(mem, addr, a + b);
    assert |x| == |y| == |mem|;
  }

  lemma StoreOne(mem: Memory, addr: nat, a: seq<Byte>, rest: seq<seq<Byte>>, writes: nat)
    ensures StoreChunks(mem, addr, [a] + rest, writes) ==
            if writes == 0 || addr + |a| > |mem| then Stored(mem, -1)
            else StoreChunks(WriteAt(mem, addr, a), addr + |a|, rest, writes - 1)
    ensures addr + |a| <= |mem| ==> |WriteAt(mem, addr, a)| == |mem|
  {
    assert ([a] + rest)[1..] == rest;
  }

  lemma {:induction false} StoreMeets(mem: Memory, addr: nat, es: seq<Entry>, writes: nat)
    ensures var r := StoreChunks(mem, addr, EntryChunks(es), writes);
            if writes > 2 * |es| && addr + |Body(es)| <= |mem|
            then r == Stored(WriteAt(mem, addr, Body(es)), 0)
            else r.rc == -1
    decreases |es|
  {
    hide Cell, WriteAt, StoreChunks;
    if es == [] {
      EmptyChunks(mem, addr, writes);
    } else {
      var a, b := Cell(es[0].name), Cell(TextOf(es[0].value));
      assert EntryChunks(es) == [a] + ([b] + EntryChunks(es[1..]));
      StoreOne(mem, addr, a, [b] + EntryChunks(es[1..]), writes);
      if writes >= 1 && addr + |a| <= |mem| {
        var mem1 := WriteAt(mem, addr, a);
        StoreOne(mem1, addr + |a|, b, EntryChunks(es[1..]), writes - 1);
        if writes >= 2 && addr + |a| + |b| <= |mem| {
          StoreMeets(WriteAt(mem1, addr + |a|, b), addr + |a| + |b|, es[1..], writes - 2);
          if addr + |Body(es)| <= |mem| {
            WriteTwice(mem1, addr + |a|, b, Body(es[1..]));
            WriteTwice(mem, addr, a, b + Body(es[1..]));
          }
        }
      }
    }
  }

  lemma EmptyChunks(mem: Memory, addr: nat, writes: nat)
    ensures StoreChunks(mem, addr, EntryChunks([]), writes) ==
            if writes > 0 && addr + 1 <= |mem| then Stored(WriteAt(mem, addr, Cell([])), 0) else Stored(mem, -1)
    ensures |Cell([])| == 1
  {
    var chunks := EntryChunks([]);
    assert Cell([]) == [0];
    assert chunks[1..] == [];
  }

  /** The whole image is written if and only if save_env reports success and got its first write through. */
  lemma SaveMeans(mem: Memory, es: seq<Entry>, writes: nat)
    requires es != []
    ensures var r := SaveEnv(mem, es, writes);
            r.rc == 0 && writes > 0 && OFFSET + |MAGIC| <= |mem|
            <==> writes >= 2 * |es| + 2 && OFFSET + |Image(es)| <= |mem|
    ensures writes >= 2 * |es| + 2 && OFFSET + |Image(es)| <= |mem| ==>
            SaveEnv(mem, es, writes) == Stored(WriteAt(mem, OFFSET, Image(es)), 0)
    ensures |SaveEnv(mem, es, writes).mem| == |mem|
  {
    if writes > 0 && OFFSET + |MAGIC| <= |mem| {
      StoreMeets(WriteAt(mem, OFFSET, MAGIC), OFFSET + |MAGIC|, es, writes - 1);
      StoreKeepsSize(WriteAt(mem, OFFSET, MAGIC), OFFSET + |MAGIC|, EntryChunks(es), writes - 1);
      if OFFSET + |Image(es)| <= |mem| {
        WriteTwice(mem, OFFSET, MAGIC, Body(es));
      }
    }
  }

  lemma {:induction false} StoreKeepsSize(mem: Memory, addr: nat, chunks: seq<seq<Byte>>, writes: nat)
    ensures |StoreChunks(mem, addr, chunks, writes).mem| == |mem|
    decreases |chunks|
  {
    if chunks != [] && writes > 0 && addr + |chunks[0]| <= |mem| {
      StoreKeepsSize(WriteAt(mem, addr, chunks[0]), addr + |chunks[0]|, chunks[1..], writes - 1);
    }
  }

  // --- Loading ---

  /** Where read_string stops: at a zero, at the end of the memory, or after so many bytes. */
  function Stop(mem: Memory, addr: nat, budget: nat): (stop: nat)
    requires addr <= |mem|
    ensures addr <= stop <= |mem| && stop - addr <= budget && 0 !in mem[addr..stop]
    ensures stop - addr < budget && stop < |mem| ==> mem[stop] == 0
    decreases budget
  {
    if budget == 0 || addr == |mem| || mem[addr] == 0 then addr
    else
      var stop := Stop(mem, addr + 1, budget - 1);
      assert mem[addr..stop] == [mem[addr]] + mem[addr + 1..stop];
      stop
  }

  lemma StopMoves(mem: Memory, addr: nat, budget: nat)
    requires addr <= |mem|
    ensures Stop(mem, addr, budget) == if budget == 0 || addr == |mem| || mem[addr] == 0 then addr
                                       else Stop(mem, addr + 1, budget - 1)
  {
  }

  datatype Read = Read(text: Str, len: nat, next: nat)

  /** read_string: reads up to siz + 1 bytes; running out of memory leaves the text but returns no length. */
  function ReadString(mem: Memory, addr: nat, siz: nat): (r: Read)
    requires addr <= |mem|
    ensures addr <= r.next <= |mem| && (r.len > 0 ==> r.next > addr && r.len == |r.text|)
  {
    var stop := Stop(mem, addr, siz + 1);
    if stop - addr == siz + 1 then Read(mem[addr..stop], siz + 1, stop)
    else if stop == |mem| then Read(mem[addr..stop], 0, stop)
    else Read(mem[addr..stop], stop - addr, stop + 1)
  }

  function Max(a: nat, b: nat): nat {
    if b > a then b else a
  }

  /** The first pass of findenv. */
  function MaxLength(mem: Memory, addr: nat, max: nat): nat
    requires addr <= |mem|
    decreases |mem| - addr
  {
    var name := ReadString(mem, addr, MAX_ITEM);
    if name.len == 0 then max
    else
      var text := ReadString(mem, name.next, MAX_ITEM);
      MaxLength(mem, text.next, Max(Max(max, name.len), text.len))
  }

  /** The second pass of findenv; loads is how many entries the heap has room for. */
  function Loaded(mem: Memory, addr: nat, siz: nat, loads: nat): seq<Entry>
    requires addr <= |mem|
    decreases |mem| - addr
  {
    var name := ReadString(mem, addr, siz);
    if name.len == 0 || loads == 0 then []
    else
      var text := ReadString(mem, name.next, siz);
      [Entry(name.text, Present(text.text))] + Loaded(mem, text.next, siz, loads - 1)
  }

  predicate HasMagic(mem: Memory) {
    OFFSET + |MAGIC| <= |mem| && mem[OFFSET..OFFSET + |MAGIC|] == MAGIC
  }

  function Load(mem: Memory, loads: nat): seq<Entry> {
    if !HasMagic(mem) then []
    else
      var max := MaxLength(mem, OFFSET + |MAGIC|, 0);
      if max == 0 then [] else Loaded(mem, OFFSET + |MAGIC|, max, loads)
  }

  // --- The round trip ---

  /** What a saved list comes back as: an absent value is read as an empty string. */
  function Normal(es: seq<Entry>): seq<Entry> {
    seq(|es|, i requires 0 <= i < |es| => es[i].(value := Present(TextOf(es[i].value))))
  }

  predicate Within(es: seq<Entry>, n: nat) {
    forall i :: 0 <= i < |es| ==> |es[i].name| <= n && |TextOf(es[i].value)| <= n
  }

  predicate Named(es: seq<Entry>) {
    forall i :: 0 <= i < |es| ==> es[i].name != []
  }

  lemma HoldsParts(mem: Memory, addr: nat, a: seq<Byte>, b: seq<Byte>)
    requires HoldsAt(mem, addr, a + b)
    ensures HoldsAt(mem, addr, a) && HoldsAt(mem, addr + |a|, b)
  {
    var m := mem[addr..addr + |a + b|];
    assert m[..|a|] == a && m[|a|..] == b;
    assert mem[addr..addr + |a|] == m[..|a|] && mem[addr + |a|..addr + |a| + |b|] == m[|a|..];
  }

  lemma {:induction false} StopsAt(mem: Memory, addr: nat, s: Str, budget: nat)
    requires HoldsAt(mem, addr, Cell(s))
    ensures Stop(mem, addr, budget) == addr + if |s| < budget then |s| else budget
    decreases budget
  {
    hide Stop, HoldsAt, Cell;
    CellStarts(mem, addr, s);
    StopMoves(mem, addr, budget);
    if s != [] && budget > 0 {
      StopsAt(mem, addr + 1, s[1..], budget - 1);
    }
  }

  /** The first byte of a stored string. */
  lemma CellStarts(mem: Memory, addr: nat, s: Str)
    requires HoldsAt(mem, addr, Cell(s))
    ensures addr < |mem| && mem[addr] == (if s == [] then 0 else s[0])
    ensures s != [] ==> s[0] != 0 && HoldsAt(mem, addr + 1, Cell(s[1..]))
  {
    if s == [] {
      assert mem[addr] == mem[addr..addr + 1][0];
    } else {
      assert s[0] in s;
      assert Cell(s) == [s[0]] + Cell(s[1..]);
      HoldsParts(mem, addr, [s[0]], Cell(s[1..]));
      assert mem[addr] == mem[addr..addr + 1][0];
    }
  }

  /** A stored string that fits is read back; one byte longer and its zero is left behind. */
  lemma ReadsBack(mem: Memory, addr: nat, s: Str, siz: nat)
    requires HoldsAt(mem, addr, Cell(s))
    ensures |s| <= siz ==> ReadString(mem, addr, siz) == Read(s, |s|, addr + |s| + 1)
    ensures |s| == siz + 1 ==> ReadString(mem, addr, siz) == Read(s, |s|, addr + |s|)
  {
    StopsAt(mem, addr, s, siz + 1);
    HoldsParts(mem, addr, s, [0]);
    assert mem[addr + |s|] == mem[addr + |s|..addr + |s| + 1][0] == 0;
  }

  lemma {:induction false} MaxGrows(mem: Memory, addr: nat, max: nat)
    requires addr <= |mem|
    ensures MaxLength(mem, addr, max) >= max
    decreases |mem| - addr
  {
    var name := ReadString(mem, addr, MAX_ITEM);
    if name.len > 0 {
      var text := ReadString(mem, name.next, MAX_ITEM);
      MaxGrows(mem, text.next, Max(Max(max, name.len), text.len));
    }
  }

  lemma BodyHolds(mem: Memory, addr: nat, es: seq<Entry>)
    requires es != [] && HoldsAt(mem, addr, Body(es))
    ensures HoldsAt(mem, addr, Cell(es[0].name))
    ensures HoldsAt(mem, addr + |es[0].name| + 1, Cell(TextOf(es[0].value)))
    ensures HoldsAt(mem, addr + |es[0].name| + 1 + |TextOf(es[0].value)| + 1, Body(es[1..]))
  {
    var a, b := Cell(es[0].name), Cell(TextOf(es[0].value));
    HoldsParts(mem, addr, a, b + Body(es[1..]));
    HoldsParts(mem, addr + |a|, b, Body(es[1..]));
  }

  lemma HoldsFits(mem: Memory, addr: nat, data: seq<Byte>)
    requires HoldsAt(mem, addr, data)
    ensures addr + |data| <= |mem|
  {
  }

  /** One step of the first pass over a saved list: either an item is too long, or the rest follows. */
  lemma FirstPassStep(mem: Memory, addr: nat, es: seq<Entry>, max: nat)
    requires es != [] && HoldsAt(mem, addr, Body(es)) && es[0].name != []
    requires |es[0].name| <= MAX_ITEM + 1 && |TextOf(es[0].value)| <= MAX_ITEM + 1
    ensures max <= MaxLength(mem, addr, max)
    ensures var name, text := es[0].name, TextOf(es[0].value);
            if |name| <= MAX_ITEM && |text| <= MAX_ITEM then
              var next := addr + |name| + 1 + |text| + 1;
              HoldsAt(mem, next, Body(es[1..])) && next <= |mem| &&
              MaxLength(mem, addr, max) == MaxLength(mem, next, Max(Max(max, |name|), |text|))
            else MaxLength(mem, addr, max) > MAX_ITEM
  {
    hide Stop, ReadString, HoldsAt;
    BodyHolds(mem, addr, es);
    var name, text := es[0].name, TextOf(es[0].value);
    HoldsFits(mem, addr, Cell(name));
    HoldsFits(mem, addr + |name| + 1 + |text| + 1, Body(es[1..]));
    ReadsBack(mem, addr, name, MAX_ITEM);
    var r := ReadString(mem, addr, MAX_ITEM);
    if |name| <= MAX_ITEM { ReadsBack(mem, r.next, text, MAX_ITEM); }
    var v := ReadString(mem, r.next, MAX_ITEM);
    MaxGrows(mem, v.next, Max(Max(max, r.len), v.len));
  }

  /** The first pass finds a length no item of a saved list exceeds. */
  lemma {:induction false} FirstPassCovers(mem: Memory, addr: nat, es: seq<Entry>, max: nat)
    requires HoldsAt(mem, addr, Body(es)) && addr <= |mem| && Named(es) && Within(es, MAX_ITEM + 1)
    ensures Within(es, MaxLength(mem, addr, max)) && max <= MaxLength(mem, addr, max)
    decreases |es|
  {
    hide ReadString, HoldsAt, MaxLength, Body;
    if es == [] {
      MaxGrows(mem, addr, max);
    } else {
      FirstPassStep(mem, addr, es, max);
      var name, text := es[0].name, TextOf(es[0].value);
      if |name| <= MAX_ITEM && |text| <= MAX_ITEM {
        FirstPassCovers(mem, addr + |name| + 1 + |text| + 1, es[1..], Max(Max(max, |name|), |text|));
        assert forall i :: 0 < i < |es| ==> es[i] == es[1..][i - 1];
      }
    }
  }

  /** One step of the second pass over a saved list. */
  lemma SecondPassStep(mem: Memory, addr: nat, es: seq<Entry>, siz: nat, loads: nat)
    requires es != [] && HoldsAt(mem, addr, Body(es)) && addr <= |mem| && es[0].name != []
    requires |es[0].name| <= siz && |TextOf(es[0].value)| <= siz
    ensures var next := addr + |es[0].name| + 1 + |TextOf(es[0].value)| + 1;
            HoldsAt(mem, next, Body(es[1..])) && next <= |mem| &&
            Loaded(mem, addr, siz, loads) ==
            if loads == 0 then []
            else [Entry(es[0].name, Present(TextOf(es[0].value)))] + Loaded(mem, next, siz, loads - 1)
  {
    hide Stop, ReadString, HoldsAt;
    BodyHolds(mem, addr, es);
    HoldsFits(mem, addr + |es[0].name| + 1 + |TextOf(es[0].value)| + 1, Body(es[1..]));
    HoldsFits(mem, addr, Cell(es[0].name));
    ReadsBack(mem, addr, es[0].name, siz);
    ReadsBack(mem, addr + |es[0].name| + 1, TextOf(es[0].value), siz);
  }

  lemma SecondPassEnds(mem: Memory, addr: nat, siz: nat, loads: nat)
    requires HoldsAt(mem, addr, Body([])) && addr <= |mem|
    ensures Loaded(mem, addr, siz, loads) == []
  {
    hide Stop, ReadString, HoldsAt;
    ReadsBack(mem, addr, [], siz);
  }

  /** The second pass reads a saved list back, as far as the heap has room. */
  lemma {:induction false} SecondPassReads(mem: Memory, addr: nat, es: seq<Entry>, siz: nat, loads: nat)
    requires HoldsAt(mem, addr, Body(es)) && addr <= |mem| && Named(es) && Within(es, siz)
    ensures Loaded(mem, addr, siz, loads) == Normal(if loads < |es| then es[..loads] else es)
    decreases |es|
  {
    hide ReadString, HoldsAt, Loaded, Body;
    if es == [] {
      SecondPassEnds(mem, addr, siz, loads);
    } else {
      SecondPassStep(mem, addr, es, siz, loads);
      if loads > 0 {
        SecondPassReads(mem, addr + |es[0].name| + 1 + |TextOf(es[0].value)| + 1, es[1..], siz, loads - 1);
        NormalStep(es, loads);
      }
    }
  }

  lemma NormalStep(es: seq<Entry>, n: nat)
    requires es != [] && n > 0
    ensures Normal(if n < |es| then es[..n] else es) ==
            [Entry(es[0].name, Present(TextOf(es[0].value)))] +
            Normal(if n - 1 < |es[1..]| then es[1..][..n - 1] else es[1..])
  {
  }

  /** A memory that holds the magic number and a list loads it; nothing after the list matters. */
  lemma LoadsHeld(mem: Memory, es: seq<Entry>, loads: nat)
    requires Saved(mem, es) && Named(es) && Within(es, MAX_ITEM + 1) && loads >= |es|
    ensures HasMagic(mem) && Within(es, MaxLength(mem, OFFSET + |MAGIC|, 0))
    ensures Load(mem, loads) == Normal(es)
  {
    hide ReadString, HoldsAt, MaxLength, Loaded, Body;
    HoldsParts(mem, OFFSET, MAGIC, Body(es));
    MagicHeld(mem);
    FirstPassCovers(mem, OFFSET + |MAGIC|, es, 0);
    SecondPassReads(mem, OFFSET + |MAGIC|, es, MaxLength(mem, OFFSET + |MAGIC|, 0), loads);
    if es != [] { assert |es[0].name| > 0; }
  }

  lemma MagicHeld(mem: Memory)
    requires HoldsAt(mem, OFFSET, MAGIC)
    ensures HasMagic(mem)
  {
  }

  lemma HoldsJoin(mem: Memory, addr: nat, a: seq<Byte>, b: seq<Byte>)
    requires HoldsAt(mem, addr, a) && HoldsAt(mem, addr + |a|, b)
    ensures HoldsAt(mem, addr, a + b)
  {
    assert mem[addr..addr + |a| + |b|] == mem[addr..addr + |a|] + mem[addr + |a|..addr + |a| + |b|];
  }

  /** An empty name looks like the end of the list. */
  lemma {:induction false} PrefixHeld(mem: Memory, addr: nat, es: seq<Entry>, i: nat)
    requires HoldsAt(mem, addr, Body(es)) && i < |es| && es[i].name == []
    ensures HoldsAt(mem, addr, Body(es[..i]))
    decreases i
  {
    hide HoldsAt;
    BodyHolds(mem, addr, es);
    if i > 0 {
      var a, b := Cell(es[0].name), Cell(TextOf(es[0].value));
      PrefixHeld(mem, addr + |a| + |b|, es[1..], i - 1);
      assert es[..i][1..] == es[1..][..i - 1];
      HoldsJoin(mem, addr + |a|, b, Body(es[..i][1..]));
      HoldsJoin(mem, addr, a, b + Body(es[..i][1..]));
    }
  }

  // --- The buffer of the second pass ---

  /**
   Every string read fits the buffer of siz + 1 bytes with its terminating zero, and every value fits the copy made
   of it, for which the length returned counts.
   */
  predicate StaysIn(mem: Memory, addr: nat, siz: nat, loads: nat)
    requires addr <= |mem|
    decreases |mem| - addr
  {
    var name := ReadString(mem, addr, siz);
    |name.text| <= siz &&
    (name.len == 0 || loads == 0 ||
     (var text := ReadString(mem, name.next, siz);
      |text.text| <= siz && |text.text| == text.len && StaysIn(mem, text.next, siz, loads - 1)))
  }

  /** Loading writes nothing outside the memory it has allocated. */
  predicate InBounds(mem: Memory, loads: nat) {
    HasMagic(mem) ==>
      var max := MaxLength(mem, OFFSET + |MAGIC|, 0);
      max > 0 ==> StaysIn(mem, OFFSET + |MAGIC|, max, loads)
  }

  /** Both passes stop at the first empty name. */
  function Reached(es: seq<Entry>): seq<Entry> {
    es[..IndexOf(es, [])]
  }

  lemma ReachedIsNamed(es: seq<Entry>)
    ensures Named(Reached(es)) && |Reached(es)| <= |es| && (Named(es) <==> Reached(es) == es)
  {
    assert es[..|es|] == es;
  }

  /** One byte too many is read of a string that is too long. */
  lemma ReadsTooLong(mem: Memory, addr: nat, s: Str, siz: nat)
    requires HoldsAt(mem, addr, Cell(s)) && |s| > siz
    ensures addr <= |mem| && |ReadString(mem, addr, siz).text| == siz + 1 == ReadString(mem, addr, siz).len
  {
    StopsAt(mem, addr, s, siz + 1);
  }

  /** The second pass over a saved list stays within its buffer if and only if no item is longer than that. */
  lemma {:induction false} SecondPassFitsIff(mem: Memory, addr: nat, es: seq<Entry>, siz: nat, loads: nat)
    requires HoldsAt(mem, addr, Body(es)) && addr <= |mem| && Named(es) && loads >= |es|
    ensures StaysIn(mem, addr, siz, loads) <==> Within(es, siz)
    decreases |es|
  {
    hide Stop, ReadString, HoldsAt, Body;
    if es == [] {
      BodyIsEmpty();
      ReadsBack(mem, addr, [], siz);
    } else {
      BodyHolds(mem, addr, es);
      var name, text := es[0].name, TextOf(es[0].value);
      var next := addr + |name| + 1;
      HoldsFits(mem, addr, Cell(name));
      HoldsFits(mem, next, Cell(text));
      if |name| > siz {
        ReadsTooLong(mem, addr, name, siz);
      } else if |text| > siz {
        ReadsBack(mem, addr, name, siz);
        ReadsTooLong(mem, next, text, siz);
      } else {
        ReadsBack(mem, addr, name, siz);
        ReadsBack(mem, next, text, siz);
        SecondPassFitsIff(mem, next + |text| + 1, es[1..], siz, loads - 1);
        assert forall i :: 0 < i < |es| ==> es[i] == es[1..][i - 1];
      }
    }
  }

  lemma BodyIsEmpty()
    ensures Body([]) == Cell([])
  {
  }

  lemma ReadsAtMost(mem: Memory, addr: nat, siz: nat)
    requires addr <= |mem|
    ensures ReadString(mem, addr, siz).len <= siz + 1
  {
  }

  /** The first pass never finds more than one byte above the limit. */
  lemma {:induction false} FirstPassAtMost(mem: Memory, addr: nat, max: nat)
    requires addr <= |mem| && max <= MAX_ITEM + 1
    ensures MaxLength(mem, addr, max) <= MAX_ITEM + 1
    decreases |mem| - addr
  {
    hide ReadString;
    var name := ReadString(mem, addr, MAX_ITEM);
    ReadsAtMost(mem, addr, MAX_ITEM);
    if name.len > 0 {
      ReadsAtMost(mem, name.next, MAX_ITEM);
      var text := ReadString(mem, name.next, MAX_ITEM);
      FirstPassAtMost(mem, text.next, Max(Max(max, name.len), text.len));
    }
  }

  /** A list that is not empty makes the first pass find something. */
  lemma FirstPassFinds(mem: Memory, addr: nat, es: seq<Entry>)
    requires HoldsAt(mem, addr, Body(es)) && addr <= |mem| && es != [] && es[0].name != []
    ensures MaxLength(mem, addr, 0) > 0
  {
    hide Stop, ReadString, HoldsAt, Body;
    BodyHolds(mem, addr, es);
    if |es[0].name| > MAX_ITEM {
      ReadsTooLong(mem, addr, es[0].name, MAX_ITEM);
    } else {
      ReadsBack(mem, addr, es[0].name, MAX_ITEM);
    }
    var name := ReadString(mem, addr, MAX_ITEM);
    var text := ReadString(mem, name.next, MAX_ITEM);
    MaxGrows(mem, text.next, Max(Max(0, name.len), text.len));
  }

  /** What both passes do with the entries before the first empty name. */
  lemma ReachedHeld(mem: Memory, es: seq<Entry>)
    requires Saved(mem, es)
    ensures HasMagic(mem) && OFFSET + |MAGIC| <= |mem| && HoldsAt(mem, OFFSET + |MAGIC|, Body(Reached(es)))
  {
    hide HoldsAt, Body;
    ImageIs(es);
    HoldsParts(mem, OFFSET, MAGIC, Body(es));
    MagicHeld(mem);
    HoldsFits(mem, OFFSET, MAGIC);
    var i := IndexOf(es, []);
    if i < |es| { PrefixHeld(mem, OFFSET + |MAGIC|, es, i); } else { assert es[..i] == es; }
  }

  lemma ImageIs(es: seq<Entry>)
    ensures Image(es) == MAGIC + Body(es)
  {
  }

  /**
   Loading a saved list stays in bounds if and only if no item up to the first empty name is longer than 65
   characters, one more than the limit of the first pass.
   */
  lemma InBoundsIff(mem: Memory, es: seq<Entry>, loads: nat)
    requires Saved(mem, es) && loads >= |es|
    ensures InBounds(mem, loads) <==> Within(Reached(es), MAX_ITEM + 1)
  {
    hide ReadString, HoldsAt, MaxLength, StaysIn, Body, Image, Saved, Reached, Named;
    var addr, list := OFFSET + |MAGIC|, Reached(es);
    ReachedIsNamed(es);
    ReachedHeld(mem, es);
    var max := MaxLength(mem, addr, 0);
    FirstPassAtMost(mem, addr, 0);
    if max > 0 { SecondPassFitsIff(mem, addr, list, max, loads); }
    if Within(list, MAX_ITEM + 1) { FirstPassCovers(mem, addr, list, 0); }
    NamedFirst(list);
    if list != [] { FirstPassFinds(mem, addr, list); }
  }

  lemma NamedFirst(es: seq<Entry>)
    ensures Named(es) && es != [] ==> es[0].name != []
  {
  }

  /** Within the limit, what is loaded is the list up to the first empty name. */
  lemma LoadsReached(mem: Memory, es: seq<Entry>, loads: nat)
    requires Saved(mem, es) && loads >= |es| && Within(Reached(es), MAX_ITEM + 1)
    ensures Load(mem, loads) == Normal(Reached(es))
  {
    hide HoldsAt, MaxLength, Loaded, Load, Body, Reached, Named;
    ReachedIsNamed(es);
    ReachedHeld(mem, es);
    MagicIsHeld(mem);
    HoldsJoin(mem, OFFSET, MAGIC, Body(Reached(es)));
    LoadsHeld(mem, Reached(es), loads);
  }

  lemma MagicIsHeld(mem: Memory)
    requires HasMagic(mem)
    ensures HoldsAt(mem, OFFSET, MAGIC)
  {
  }

  /** Loading stays in bounds and gives back a saved list if and only if its names are not empty and its items fit. */
  lemma RoundTripIff(mem: Memory, es: seq<Entry>, loads: nat)
    requires Saved(mem, es) && loads >= |es|
    ensures InBounds(mem, loads) && Load(mem, loads) == Normal(es) <==> Named(es) && Within(es, MAX_ITEM + 1)
  {
    hide InBounds, Load, Reached, Named, Saved, Within, Normal;
    ReachedIsNamed(es);
    InBoundsIff(mem, es, loads);
    if Within(Reached(es), MAX_ITEM + 1) {
      LoadsReached(mem, es, loads);
      NormalLength(es);
      NormalLength(Reached(es));
      ShorterPrefix(es);
    }
  }

  lemma NormalLength(es: seq<Entry>)
    ensures |Normal(es)| == |es|
  {
  }

  lemma ShorterPrefix(es: seq<Entry>)
    ensures |Reached(es)| == |es| ==> Reached(es) == es
  {
    assert es[..|es|] == es;
  }

  /** Saving any list and loading it from an empty list gives it back, under the same condition. */
  lemma SaveThenLoad(mem: Memory, es: seq<Entry>, writes: nat, loads: nat)
    requires es != [] && loads >= |es| && writes >= 2 * |es| + 2 && OFFSET + |Image(es)| <= |mem|
    ensures SaveEnv(mem, es, writes).rc == 0 && Saved(SaveEnv(mem, es, writes).mem, es)
    ensures var saved := SaveEnv(mem, es, writes).mem;
            InBounds(saved, loads) && Load(saved, loads) == Normal(es) <==> Named(es) && Within(es, MAX_ITEM + 1)
  {
    hide InBounds, Load, Named, Within, Normal;
    SaveMeans(mem, es, writes);
    RoundTripIff(SaveEnv(mem, es, writes).mem, es, loads);
  }
}
