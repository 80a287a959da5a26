/**
 Runs of setenv, unsetenv, getenv and restarts of the system on the environment of crt/setenv.c.
 */
module EnvironRuns {
  import opened Environ
  import opened EnvironImage
  import opened Machine

  /** The list hanging off nut_environ and the non-volatile memory. */
  datatype State = State(list: seq<Entry>, mem: Memory)

  /** What findenv does first: an empty list is loaded again. */
  function Refreshed(s: State, loads: nat): State {
    if s.list == [] then s.(list := Load(s.mem, loads)) else s
  }

  /** The outcome of the calls that touch memory: entries that can be loaded, allocations, and writes. */
  datatype Luck = Luck(loads: nat, room: Room, writes: nat)

  datatype Result = Result(state: State, rc: int)

  function SetEnv(s: State, name: Str, value: Str, force: bool, luck: Luck): Result {
    var s := Refreshed(s, luck.loads);
    match SetIn(s.list, name, value, force, luck.room)
    case Failed(list) => Result(State(list, s.mem), -1)
    case Unchanged(list) => Result(State(list, s.mem), 0)
    case Changed(list) =>
      var stored := EnvironImage.SaveEnv(s.mem, list, luck.writes);
      Result(State(list, stored.mem), stored.rc)
  }

  /** With CRT_UNSETENV_POSIX; the outcome of saving is dropped. */
  function UnsetEnv(s: State, name: Str, luck: Luck): Result {
    var s := Refreshed(s, luck.loads);
    if IndexOf(s.list, name) == |s.list| then Result(s, -1)
    else
      var list := UnsetIn(s.list, name);
      Result(State(list, EnvironImage.SaveEnv(s.mem, list, luck.writes).mem), 0)
  }

  /** getenv on a list; the entry of an absent value reads as an empty string. */
  function GetIn(es: seq<Entry>, name: Str): Value {
    var i := IndexOf(es, name);
    if i == |es| then Absent else Present(TextOf(es[i].value))
  }

  datatype Op =
    | Set(name: Str, value: Str, force: bool)
    | Unset(name: Str)
    | Get(name: Str)
    | Restart

  function Step(s: State, op: Op, luck: Luck): State {
    match op
    case Set(name, value, force) => SetEnv(s, name, value, force, luck).state
    case Unset(name) => UnsetEnv(s, name, luck).state
    case Get(name) => Refreshed(s, luck.loads)
    case Restart => State([], s.mem)
  }

  function Run(s: State, ops: seq<(Op, Luck)>): State
    decreases |ops|
  {
    if ops == [] then s else Run(Step(s, ops[0].0, ops[0].1), ops[1..])
  }

  /** The same run on a map. */
  function MapStep(m: map<Str, Value>, op: Op): map<Str, Value> {
    match op
    case Set(name, value, force) => SetMap(m, name, value, force)
    case Unset(name) => m - {name}
    case Get(_) => m
    case Restart => m
  }

  function MapRun(m: map<Str, Value>, ops: seq<(Op, Luck)>): map<Str, Value>
    decreases |ops|
  {
    if ops == [] then m else MapRun(MapStep(m, ops[0].0), ops[1..])
  }

  /** getenv answers from the map. */
  lemma GetIsLookup(es: seq<Entry>, name: Str)
    ensures GetIn(es, name) == if name in MapOf(es) then Present(TextOf(MapOf(es)[name])) else Absent
  {
    MapOfAt(es, name);
  }

  // --- Runs in one go: whatever happens to the memory ---

  /** No restart, no failing allocation, and nothing to load whenever the list is empty. */
  predicate Steady(s: State, ops: seq<(Op, Luck)>)
    decreases |ops|
  {
    ops == [] ||
    (!ops[0].0.Restart? && ops[0].1.room == ROOM &&
     (s.list != [] || Load(s.mem, ops[0].1.loads) == []) &&
     Steady(Step(s, ops[0].0, ops[0].1), ops[1..]))
  }

  lemma StepRefinesMap(s: State, op: Op, luck: Luck)
    requires Sorted(s.list) && !op.Restart? && luck.room == ROOM
    requires s.list != [] || Load(s.mem, luck.loads) == []
    ensures Sorted(Step(s, op, luck).list)
    ensures MapOf(Step(s, op, luck).list) == MapStep(MapOf(s.list), op)
  {
    hide Sorted, MapOf, Load, SaveEnv, SetIn, UnsetIn;
    match op {
      case Set(name, value, force) =>
        SetKeepsSorted(s.list, name, value, force, ROOM);
        SetRefinesMap(s.list, name, value, force);
      case Unset(name) =>
        UnsetKeepsSorted(s.list, name);
        UnsetRefinesMap(s.list, name);
        UnsetMissing(s.list, name);
      case Get(_) =>
    }
  }

  lemma UnsetMissing(es: seq<Entry>, name: Str)
    ensures IndexOf(es, name) == |es| ==> UnsetIn(es, name) == es
  {
  }

  /**
   The list stays the one sorted enumeration of the map that the calls describe, however many of the writes to
   the memory fail.
   */
  lemma {:induction false} RunRefinesMap(s: State, ops: seq<(Op, Luck)>)
    requires Sorted(s.list) && Steady(s, ops)
    ensures Sorted(Run(s, ops).list)
    ensures MapOf(Run(s, ops).list) == MapRun(MapOf(s.list), ops)
    ensures forall name :: GetIn(Run(s, ops).list, name) ==
              var m := MapRun(MapOf(s.list), ops); if name in m then Present(TextOf(m[name])) else Absent
    decreases |ops|
  {
    hide Sorted, MapOf, Load, Step, MapStep;
    if ops != [] {
      StepRefinesMap(s, ops[0].0, ops[0].1);
      RunRefinesMap(Step(s, ops[0].0, ops[0].1), ops[1..]);
    }
    forall name ensures GetIn(Run(s, ops).list, name) ==
      var m := MapRun(MapOf(s.list), ops); if name in m then Present(TextOf(m[name])) else Absent
    {
      GetIsLookup(Run(s, ops).list, name);
    }
  }

  // --- Runs across restarts ---

  /** What the loader can read back: named items within the limit, none of them absent. */
  predicate Storable(es: seq<Entry>) {
    Named(es) && Within(es, MAX_ITEM + 1) && forall i :: 0 <= i < |es| ==> es[i].value.Present?
  }

  /** The environment is es: in the memory, and in the list unless that still has to be loaded. */
  ghost predicate Durable(s: State, es: seq<Entry>) {
    Sorted(es) && Storable(es) && (s.list == es || s.list == []) &&
    if es == [] then forall n :: Load(s.mem, n) == [] else Saved(s.mem, es)
  }

  /** Enough of everything for a list of n entries. */
  predicate Ample(luck: Luck, n: nat) {
    luck.loads >= n && luck.room == ROOM && luck.writes >= 2 * n + 4
  }

  /** The calls a durable environment es of a memory of this size takes. */
  predicate Fits(es: seq<Entry>, op: Op, size: nat) {
    match op
    case Set(name, value, force) =>
      name != [] && |name| <= MAX_ITEM + 1 && |value| <= MAX_ITEM + 1 &&
      OFFSET + |Image(SetIn(es, name, value, force, ROOM).list)| <= size
    case Unset(name) => UnsetIn(es, name) != [] || es == []
    case Get(_) => true
    case Restart => true
  }

  function After(es: seq<Entry>, op: Op): seq<Entry> {
    match op
    case Set(name, value, force) => SetIn(es, name, value, force, ROOM).list
    case Unset(name) => UnsetIn(es, name)
    case Get(_) => es
    case Restart => es
  }

  lemma NormalStays(es: seq<Entry>)
    requires Storable(es)
    ensures Normal(es) == es
  {
  }

  lemma DurableRefreshes(s: State, es: seq<Entry>, loads: nat)
    requires Durable(s, es) && loads >= |es|
    ensures Refreshed(s, loads).list == es && Durable(Refreshed(s, loads), es)
    ensures es != [] ==> InBounds(s.mem, loads)
  {
    hide Sorted, Load, Image, Named, Within, InBounds;
    if es != [] {
      RoundTripIff(s.mem, es, loads);
      NormalStays(es);
    }
  }

  lemma WriteHolds(mem: Memory, addr: nat, data: seq<Byte>)
    requires addr + |data| <= |mem|
    ensures HoldsAt(WriteAt(mem, addr, data), addr, data) && |WriteAt(mem, addr, data)| == |mem|
  {
  }

  lemma SavedDurable(mem: Memory, es: seq<Entry>, writes: nat)
    requires es != [] && Sorted(es) && Storable(es) && writes >= 2 * |es| + 2 && OFFSET + |Image(es)| <= |mem|
    ensures Durable(State(es, SaveEnv(mem, es, writes).mem), es) && |SaveEnv(mem, es, writes).mem| == |mem|
    ensures SaveEnv(mem, es, writes).rc == 0
  {
    hide Sorted, Load, Storable, Image, SaveEnv, HoldsAt, WriteAt;
    SaveMeans(mem, es, writes);
    WriteHolds(mem, OFFSET, Image(es));
  }

  /** A forced set of an entry that is there already. */
  lemma SetExisting(es: seq<Entry>, name: Str, value: Str)
    requires IndexOf(es, name) < |es|
    ensures var r := SetIn(es, name, value, true, ROOM);
            var i := IndexOf(es, name);
            !r.Failed? && r.list == es[i := Entry(name, Present(value))] && (r.Unchanged? ==> r.list == es)
  {
    var i := IndexOf(es, name);
    if es[i].value == Present(value) { assert es == es[i := Entry(name, Present(value))]; }
  }

  lemma SetNew(es: seq<Entry>, name: Str, value: Str, force: bool)
    requires IndexOf(es, name) == |es|
    ensures SetIn(es, name, value, force, ROOM) == Changed(Inserted(es, Entry(name, Present(value)), Place(es, name)))
  {
    var e, p := Entry(name, Absent), Place(es, name);
    InsertedAt(es, e, p, p);
    hide Place, IndexOf;
    assert Inserted(es, e, p)[p := Entry(name, Present(value))] == Inserted(es, Entry(name, Present(value)), p);
  }

  /** What a set does to the entries, whether one is updated or put in. */
  lemma SetEntries(es: seq<Entry>, name: Str, value: Str, force: bool)
    ensures var r := SetIn(es, name, value, force, ROOM);
            !r.Failed? && 0 < |r.list| <= |es| + 1 && (r.Unchanged? ==> r.list == es) &&
            (force || IndexOf(es, name) == |es| ==> Entry(name, Present(value)) in r.list) &&
            forall k :: 0 <= k < |r.list| ==> r.list[k] == Entry(name, Present(value)) || r.list[k] in es
  {
    hide SetIn, Inserted, Place;
    var i := IndexOf(es, name);
    if i == |es| {
      SetNew(es, name, value, force);
      var e, p := Entry(name, Present(value)), Place(es, name);
      InsertedAt(es, e, p, p);
      forall k | 0 <= k < |es| + 1 ensures Inserted(es, e, p)[k] == e || Inserted(es, e, p)[k] in es {
        InsertedAt(es, e, p, k);
      }
    } else if force {
      SetExisting(es, name, value);
      assert SetIn(es, name, value, true, ROOM).list[i] == Entry(name, Present(value));
    } else {
      SetLeaves(es, name, value);
    }
  }

  lemma SetLeaves(es: seq<Entry>, name: Str, value: Str)
    requires IndexOf(es, name) < |es|
    ensures SetIn(es, name, value, false, ROOM) == Unchanged(es)
  {
  }

  lemma SetStaysStorable(es: seq<Entry>, name: Str, value: Str, force: bool)
    requires Storable(es) && name != [] && |name| <= MAX_ITEM + 1 && |value| <= MAX_ITEM + 1
    ensures Storable(SetIn(es, name, value, force, ROOM).list) && SetIn(es, name, value, force, ROOM).list != []
    ensures |SetIn(es, name, value, force, ROOM).list| <= |es| + 1
    ensures !SetIn(es, name, value, force, ROOM).Failed?
    ensures SetIn(es, name, value, force, ROOM).Unchanged? ==> SetIn(es, name, value, force, ROOM).list == es
  {
    hide SetIn;
    SetEntries(es, name, value, force);
  }

  lemma UnsetStaysStorable(es: seq<Entry>, name: Str)
    requires Storable(es)
    ensures Storable(UnsetIn(es, name)) && |Body(UnsetIn(es, name))| <= |Body(es)|
    ensures |UnsetIn(es, name)| <= |es|
  {
    var i := IndexOf(es, name);
    if i < |es| {
      RemovedIsShorter(es, i);
      forall k | 0 <= k < |Removed(es, i)| ensures Removed(es, i)[k] in es { RemovedAt(es, i, k); }
    }
  }

  lemma {:induction false} RemovedIsShorter(es: seq<Entry>, i: nat)
    requires i < |es|
    ensures |Body(Removed(es, i))| <= |Body(es)|
    decreases i
  {
    if i == 0 {
      assert Removed(es, 0) == es[1..];
    } else {
      RemovedIsShorter(es[1..], i - 1);
      assert Removed(es, i)[1..] == Removed(es[1..], i - 1);
    }
  }

  lemma SavedFits(mem: Memory, es: seq<Entry>)
    requires Saved(mem, es)
    ensures OFFSET + |Image(es)| <= |mem|
  {
  }

  /** Every call keeps the environment durable and does to it what it does to the list. */
  lemma StepDurable(s: State, es: seq<Entry>, op: Op, luck: Luck)
    requires Durable(s, es) && Ample(luck, |es|) && Fits(es, op, |s.mem|)
    ensures Durable(Step(s, op, luck), After(es, op)) && |Step(s, op, luck).mem| == |s.mem|
    ensures MapOf(After(es, op)) == MapStep(MapOf(es), op)
  {
    hide Sorted, MapOf, Load, SaveEnv, SetIn, UnsetIn, Storable, Image, Saved;
    DurableRefreshes(s, es, luck.loads);
    match op {
      case Set(name, value, force) =>
        SetKeepsSorted(es, name, value, force, ROOM);
        SetRefinesMap(es, name, value, force);
        SetStaysStorable(es, name, value, force);
        SavedDurable(s.mem, SetIn(es, name, value, force, ROOM).list, luck.writes);
      case Unset(name) =>
        UnsetKeepsSorted(es, name);
        UnsetRefinesMap(es, name);
        UnsetMissing(es, name);
        if IndexOf(es, name) < |es| {
          UnsetStaysStorable(es, name);
          SavedFits(s.mem, es);
          ImageSizes(es, UnsetIn(es, name));
          SavedDurable(s.mem, UnsetIn(es, name), luck.writes);
        }
      case Get(_) =>
      case Restart =>
    }
  }

  lemma ImageSizes(es: seq<Entry>, fs: seq<Entry>)
    requires |Body(fs)| <= |Body(es)|
    ensures |Image(fs)| <= |Image(es)|
  {
  }

  /** A run with ample resources in which every call fits. */
  predicate WellFed(es: seq<Entry>, ops: seq<(Op, Luck)>, size: nat)
    decreases |ops|
  {
    ops == [] ||
    (Ample(ops[0].1, |es|) && Fits(es, ops[0].0, size) && WellFed(After(es, ops[0].0), ops[1..], size))
  }

  function AfterRun(es: seq<Entry>, ops: seq<(Op, Luck)>): seq<Entry>
    decreases |ops|
  {
    if ops == [] then es else AfterRun(After(es, ops[0].0), ops[1..])
  }

  lemma {:induction false} RunStaysDurable(s: State, es: seq<Entry>, ops: seq<(Op, Luck)>)
    requires Durable(s, es) && WellFed(es, ops, |s.mem|)
    ensures Durable(Run(s, ops), AfterRun(es, ops))
    ensures MapOf(AfterRun(es, ops)) == MapRun(MapOf(es), ops)
    decreases |ops|
  {
    hide Durable, MapOf, Step, MapStep, After, Ample, Fits;
    if ops != [] {
      StepDurable(s, es, ops[0].0, ops[0].1);
      RunStaysDurable(Step(s, ops[0].0, ops[0].1), After(es, ops[0].0), ops[1..]);
    }
  }

  /**
   Across any number of restarts, what getenv finds after a run is what the same run on a map gives, as long as
   the last variable is never removed.
   */
  lemma RunSurvivesRestarts(s: State, es: seq<Entry>, ops: seq<(Op, Luck)>, name: Str, loads: nat)
    requires Durable(s, es) && WellFed(es, ops, |s.mem|) && loads >= |AfterRun(es, ops)|
    ensures Sorted(Refreshed(Run(s, ops), loads).list)
    ensures MapOf(Refreshed(Run(s, ops), loads).list) == MapRun(MapOf(es), ops)
    ensures AfterRun(es, ops) != [] ==> InBounds(Run(s, ops).mem, loads)
    ensures GetIn(Refreshed(Run(s, ops), loads).list, name) ==
            var m := MapRun(MapOf(es), ops); if name in m then Present(TextOf(m[name])) else Absent
  {
    hide MapOf, Run, MapRun, WellFed, AfterRun, GetIn, Refreshed, Sorted, Saved, Load, Storable, InBounds;
    RunStaysDurable(s, es, ops);
    DurableRefreshes(Run(s, ops), AfterRun(es, ops), loads);
    GetIsLookup(AfterRun(es, ops), name);
  }

  /** An item above the limit is stored without complaint, and the next restart overruns the buffer it is loaded to. */
  lemma LongItemOverruns(s: State, es: seq<Entry>, name: Str, value: Str, luck: Luck, loads: nat)
    requires Durable(s, es) && Ample(luck, |es|) && name != [] && (|name| > MAX_ITEM + 1 || |value| > MAX_ITEM + 1)
    requires OFFSET + |Image(SetIn(es, name, value, true, ROOM).list)| <= |s.mem| && loads > |es|
    ensures SetEnv(s, name, value, true, luck).rc == 0
    ensures !InBounds(SetEnv(s, name, value, true, luck).state.mem, loads)
  {
    hide Sorted, SetIn, SaveEnv, Saved, InBounds, Load, Image, HoldsAt, WriteAt;
    DurableRefreshes(s, es, luck.loads);
    SetEntries(es, name, value, true);
    var r := SetIn(es, name, value, true, ROOM);
    var e := Entry(name, Present(value));
    var i :| 0 <= i < |r.list| && r.list[i] == e;
    assert Named(r.list) && !Within(r.list, MAX_ITEM + 1);
    assert r.Changed?;
    SaveMeans(s.mem, r.list, luck.writes);
    WriteHolds(s.mem, OFFSET, Image(r.list));
    SavedIs(SaveEnv(s.mem, r.list, luck.writes).mem, r.list);
    ReachedIsNamed(r.list);
    InBoundsIff(SaveEnv(s.mem, r.list, luck.writes).mem, r.list, loads);
  }

  lemma SavedIs(mem: Memory, es: seq<Entry>)
    ensures Saved(mem, es) <==> HoldsAt(mem, OFFSET, Image(es))
  {
  }

  // --- Removing the last variable ---

  /** After unsetenv the variable is gone if and only if another one remains: otherwise it is loaded again. */
  lemma UnsetTakesEffectIff(s: State, es: seq<Entry>, name: Str, luck: Luck, loads: nat)
    requires Durable(s, es) && Ample(luck, |es|) && IndexOf(es, name) < |es| && loads >= |es|
    ensures UnsetEnv(s, name, luck).rc == 0
    ensures GetIn(Refreshed(UnsetEnv(s, name, luck).state, loads).list, name).Absent? <==> |es| > 1
    ensures |es| == 1 ==> Refreshed(UnsetEnv(s, name, luck).state, loads).list == es
  {
    hide Sorted, Load, SaveEnv, Storable, Image, MapOf;
    DurableRefreshes(s, es, luck.loads);
    var r := UnsetEnv(s, name, luck).state;
    if |es| == 1 {
      UnsetOnly(es, name);
      NothingSaved(s.mem, luck.writes);
      assert Durable(r, es);
      DurableRefreshes(r, es, loads);
    } else {
      UnsetRefinesMap(es, name);
      GetIsLookup(r.list, name);
    }
  }

  lemma UnsetOnly(es: seq<Entry>, name: Str)
    requires |es| == 1 && IndexOf(es, name) == 0
    ensures UnsetIn(es, name) == []
  {
  }

  lemma NothingSaved(mem: Memory, writes: nat)
    ensures SaveEnv(mem, [], writes) == Stored(mem, 0)
  {
  }
}
