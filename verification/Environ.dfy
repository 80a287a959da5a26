/**
 The environment of crt/setenv.c, crt/environ.c and crt/getenv.c on values: a list of entries, sorted by name,
 that serves as a map from names to values.
 */
module Environ {
  import opened Machine

  /** A C string without its terminating zero. */
  type Str = s: seq<Byte> | 0 !in s witness []

  datatype Value = Absent | Present(text: Str)
  datatype Entry = Entry(name: Str, value: Value)

  /** strcmp(a, b) < 0 */
  predicate Less(a: seq<Byte>, b: seq<Byte>) {
    b != [] && (a == [] || a[0] < b[0] || (a[0] == b[0] && Less(a[1..], b[1..])))
  }

  lemma {:induction false} LessIsTotal(a: seq<Byte>, b: seq<Byte>)
    ensures Less(a, b) || a == b || Less(b, a)
    decreases |a|
  {
    if a != [] && b != [] && a[0] == b[0] {
      LessIsTotal(a[1..], b[1..]);
      assert a == [a[0]] + a[1..] && b == [b[0]] + b[1..];
    }
  }

  lemma {:induction false} LessIsStrict(a: seq<Byte>, b: seq<Byte>)
    requires Less(a, b)
    ensures !Less(b, a) && a != b
    decreases |a|
  {
    if a != [] && a[0] == b[0] { LessIsStrict(a[1..], b[1..]); }
  }

  lemma {:induction false} LessChains(a: seq<Byte>, b: seq<Byte>, c: seq<Byte>)
    requires Less(a, b) && Less(b, c)
    ensures Less(a, c)
    decreases |a|
  {
    if a != [] && a[0] == b[0] == c[0] { LessChains(a[1..], b[1..], c[1..]); }
  }

  predicate Sorted(es: seq<Entry>) {
    forall i, j :: 0 <= i < j < |es| ==> Less(es[i].name, es[j].name)
  }

  /** Where the search loop of findenv stops: the first entry of that name, or the end. */
  function IndexOf(es: seq<Entry>, name: Str): (i: nat)
    ensures i <= |es| && forall k :: 0 <= k < i ==> es[k].name != name
    ensures i < |es| ==> es[i].name == name
  {
    if es == [] || es[0].name == name then 0 else 1 + IndexOf(es[1..], name)
  }

  /** Where the loop of setenv puts a new name: before the first greater one, or at the end. */
  function Place(es: seq<Entry>, name: Str): (i: nat)
    ensures i <= |es| && forall k :: 0 <= k < i ==> !Less(name, es[k].name)
    ensures i < |es| ==> Less(name, es[i].name)
  {
    if es == [] || Less(name, es[0].name) then 0 else 1 + Place(es[1..], name)
  }

  function Inserted(es: seq<Entry>, e: Entry, i: nat): seq<Entry>
    requires i <= |es|
  {
    es[..i] + [e] + es[i..]
  }

  function Removed(es: seq<Entry>, i: nat): seq<Entry>
    requires i < |es|
  {
    es[..i] + es[i + 1..]
  }

  /** Which of the allocations of one setenv call succeed. */
  datatype Room = Room(node: bool, name: bool, text: bool)

  const ROOM := Room(true, true, true)

  /** What setenv leaves in the list, and whether it goes on to save it. */
  datatype SetResult = Failed(list: seq<Entry>) | Unchanged(list: seq<Entry>) | Changed(list: seq<Entry>)

  /** The update of the entry found at i or put there. */
  function Assigned(es: seq<Entry>, i: nat, value: Str, room: Room): SetResult
    requires i < |es|
  {
    if es[i].value == Present(value) then Unchanged(es)
    else if !room.text then Failed(es[i := es[i].(value := Absent)])
    else Changed(es[i := es[i].(value := Present(value))])
  }

  function SetIn(es: seq<Entry>, name: Str, value: Str, force: bool, room: Room): SetResult {
    var i := IndexOf(es, name);
    if i == |es| then
      if room.node && room.name then
        Assigned(Inserted(es, Entry(name, Absent), Place(es, name)), Place(es, name), value, room)
      else Failed(es)
    else if force then Assigned(es, i, value, room)
    else Unchanged(es)
  }

  function UnsetIn(es: seq<Entry>, name: Str): seq<Entry> {
    var i := IndexOf(es, name);
    if i == |es| then es else Removed(es, i)
  }

  /** The list as a map; of two entries of one name the first counts, as for findenv. */
  function MapOf(es: seq<Entry>): map<Str, Value> {
    if es == [] then map[] else MapOf(es[1..])[es[0].name := es[0].value]
  }

  lemma {:induction false} MapOfAt(es: seq<Entry>, name: Str)
    ensures name in MapOf(es) <==> IndexOf(es, name) < |es|
    ensures name in MapOf(es) ==> MapOf(es)[name] == es[IndexOf(es, name)].value
  {
    if es != [] { MapOfAt(es[1..], name); }
  }

  lemma SortedNamesDiffer(es: seq<Entry>, i: nat, j: nat)
    requires Sorted(es) && i < |es| && j < |es| && es[i].name == es[j].name
    ensures i == j
  {
    if i < j { LessIsStrict(es[i].name, es[j].name); }
    if j < i { LessIsStrict(es[j].name, es[i].name); }
  }

  lemma InsertedAt(es: seq<Entry>, e: Entry, p: nat, k: nat)
    requires p <= |es| && k <= |es|
    ensures |Inserted(es, e, p)| == |es| + 1
    ensures Inserted(es, e, p)[k] == if k < p then es[k] else if k == p then e else es[k - 1]
  {
  }

  lemma InsertedSorted(es: seq<Entry>, e: Entry)
    requires Sorted(es) && IndexOf(es, e.name) == |es|
    ensures Sorted(Inserted(es, e, Place(es, e.name)))
  {
    hide Less, Inserted, IndexOf, Place;
    var p := Place(es, e.name);
    var r := Inserted(es, e, p);
    InsertedAt(es, e, p, 0);
    forall i, j | 0 <= i < j < |r| ensures Less(r[i].name, r[j].name) {
      InsertedAt(es, e, p, i);
      InsertedAt(es, e, p, j);
      if j == p {
        LessIsTotal(es[i].name, e.name);
      } else if i == p && p < j - 1 {
        LessChains(e.name, es[p].name, es[j - 1].name);
      }
    }
  }

  /** Any update of a value keeps the order of the names. */
  lemma AssignedSorted(es: seq<Entry>, i: nat, value: Str, room: Room)
    requires Sorted(es) && i < |es|
    ensures Sorted(Assigned(es, i, value, room).list)
  {
    hide Less;
    var r := Assigned(es, i, value, room).list;
    assert forall k :: 0 <= k < |es| ==> r[k].name == es[k].name;
  }

  lemma SetKeepsSorted(es: seq<Entry>, name: Str, value: Str, force: bool, room: Room)
    requires Sorted(es)
    ensures Sorted(SetIn(es, name, value, force, room).list)
  {
    hide Sorted;
    var i := IndexOf(es, name);
    if i < |es| {
      AssignedSorted(es, i, value, room);
    } else {
      InsertedSorted(es, Entry(name, Absent));
      AssignedSorted(Inserted(es, Entry(name, Absent), Place(es, name)), Place(es, name), value, room);
    }
  }

  lemma RemovedAt(es: seq<Entry>, i: nat, k: nat)
    requires i < |es| && k < |es| - 1
    ensures |Removed(es, i)| == |es| - 1 && Removed(es, i)[k] == es[if k < i then k else k + 1]
  {
  }

  lemma UnsetKeepsSorted(es: seq<Entry>, name: Str)
    requires Sorted(es)
    ensures Sorted(UnsetIn(es, name))
  {
    hide Less, IndexOf, Sorted, Removed;
    var i := IndexOf(es, name);
    if i < |es| { RemovedSorted(es, i); }
  }

  lemma RemovedSorted(es: seq<Entry>, i: nat)
    requires Sorted(es) && i < |es|
    ensures Sorted(Removed(es, i))
  {
    hide Less, Removed;
    var r := Removed(es, i);
    if |es| > 1 { RemovedAt(es, i, 0); } else { RemovedOnly(es); }
    forall j, k | 0 <= j < k < |r| ensures Less(r[j].name, r[k].name) {
      RemovedAt(es, i, j);
      RemovedAt(es, i, k);
    }
  }

  lemma RemovedOnly(es: seq<Entry>)
    requires |es| == 1
    ensures Removed(es, 0) == []
  {
  }

  lemma SortedIndex(es: seq<Entry>, i: nat)
    requires Sorted(es) && i < |es|
    ensures IndexOf(es, es[i].name) == i
    ensures es[i].name in MapOf(es) && MapOf(es)[es[i].name] == es[i].value
  {
    SortedNamesDiffer(es, i, IndexOf(es, es[i].name));
    MapOfAt(es, es[i].name);
  }

  /** What the map promises: an existing value stays unless forced. */
  function SetMap(m: map<Str, Value>, name: Str, value: Str, force: bool): map<Str, Value> {
    if name in m && !force then m else m[name := Present(value)]
  }

  /** Two lists agree about a name when each holds the entry the other finds. */
  lemma SameLookup(es: seq<Entry>, rs: seq<Entry>, n: Str)
    requires Sorted(es) && Sorted(rs)
    requires IndexOf(es, n) < |es| ==> es[IndexOf(es, n)] in rs
    requires IndexOf(rs, n) < |rs| ==> rs[IndexOf(rs, n)] in es
    ensures n in MapOf(es) <==> n in MapOf(rs)
    ensures n in MapOf(es) ==> MapOf(es)[n] == MapOf(rs)[n]
  {
    hide Sorted, MapOf;
    MapOfAt(es, n);
    MapOfAt(rs, n);
    if IndexOf(es, n) < |es| {
      var k :| 0 <= k < |rs| && rs[k] == es[IndexOf(es, n)];
      SortedIndex(rs, k);
    }
    if IndexOf(rs, n) < |rs| {
      var k :| 0 <= k < |es| && es[k] == rs[IndexOf(rs, n)];
      SortedIndex(es, k);
    }
  }

  lemma InsertedMap(es: seq<Entry>, e: Entry)
    requires Sorted(es) && IndexOf(es, e.name) == |es|
    ensures MapOf(Inserted(es, e, Place(es, e.name))) == MapOf(es)[e.name := e.value]
  {
    hide Sorted, MapOf, Less, Inserted, IndexOf, Place;
    var p := Place(es, e.name);
    var r := Inserted(es, e, p);
    InsertedSorted(es, e);
    InsertedAt(es, e, p, p);
    SortedIndex(r, p);
    forall n: Str | n != e.name
      ensures n in MapOf(es) <==> n in MapOf(r)
      ensures n in MapOf(es) ==> MapOf(es)[n] == MapOf(r)[n]
    {
      var i, k := IndexOf(es, n), IndexOf(r, n);
      if i < |es| { InsertedAt(es, e, p, if i < p then i else i + 1); }
      if k < |r| { InsertedAt(es, e, p, k); }
      SameLookup(es, r, n);
    }
  }

  lemma AssignedMap(es: seq<Entry>, i: nat, value: Str)
    requires Sorted(es) && i < |es|
    ensures MapOf(Assigned(es, i, value, ROOM).list) == MapOf(es)[es[i].name := Present(value)]
  {
    hide Sorted, MapOf, Less, IndexOf;
    var r := Assigned(es, i, value, ROOM).list;
    AssignedSorted(es, i, value, ROOM);
    SortedIndex(r, i);
    forall n: Str | n != es[i].name
      ensures n in MapOf(es) <==> n in MapOf(r)
      ensures n in MapOf(es) ==> MapOf(es)[n] == MapOf(r)[n]
    {
      var j, k := IndexOf(es, n), IndexOf(r, n);
      assert j < |es| ==> es[j] == r[j];
      assert k < |r| ==> k != i && r[k] == es[k];
      SameLookup(es, r, n);
    }
  }

  /** setenv on the list is an update of the map. */
  lemma SetRefinesMap(es: seq<Entry>, name: Str, value: Str, force: bool)
    requires Sorted(es)
    ensures !SetIn(es, name, value, force, ROOM).Failed?
    ensures MapOf(SetIn(es, name, value, force, ROOM).list) == SetMap(MapOf(es), name, value, force)
    ensures SetIn(es, name, value, force, ROOM).Unchanged? ==> SetIn(es, name, value, force, ROOM).list == es
  {
    hide Sorted, MapOf;
    MapOfAt(es, name);
    var i := IndexOf(es, name);
    if i < |es| {
      AssignedMap(es, i, value);
    } else {
      var e := Entry(name, Absent);
      var r := Inserted(es, e, Place(es, name));
      InsertedSorted(es, e);
      InsertedMap(es, e);
      AssignedMap(r, Place(es, name), value);
      assert r[Place(es, name)] == e;
      assert MapOf(es)[name := Absent][name := Present(value)] == MapOf(es)[name := Present(value)];
    }
  }

  lemma RemovedLength(es: seq<Entry>, name: Str)
    ensures |UnsetIn(es, name)| == |es| - if IndexOf(es, name) < |es| then 1 else 0
  {
  }

  lemma UnsetRefinesMap(es: seq<Entry>, name: Str)
    requires Sorted(es)
    ensures MapOf(UnsetIn(es, name)) == MapOf(es) - {name}
  {
    hide Sorted, MapOf, Less, Removed, IndexOf;
    var r := UnsetIn(es, name);
    var i := IndexOf(es, name);
    RemovedLength(es, name);
    UnsetKeepsSorted(es, name);
    MapOfAt(es, name);
    MapOfAt(r, name);
    if i < |es| && IndexOf(r, name) < |r| {
      var k := IndexOf(r, name);
      RemovedAt(es, i, k);
      SortedNamesDiffer(es, i, if k < i then k else k + 1);
    }
    forall n: Str | n != name
      ensures n in MapOf(es) <==> n in MapOf(r)
      ensures n in MapOf(es) ==> MapOf(es)[n] == MapOf(r)[n]
    {
      var j, k := IndexOf(es, n), IndexOf(r, n);
      if i < |es| {
        if j < |es| { RemovedAt(es, i, if j < i then j else j - 1); }
        if k < |r| { RemovedAt(es, i, k); }
      }
      SameLookup(es, r, n);
    }
  }

  /** The list is the one sorted enumeration of its map. */
  lemma {:induction false} SortedIsUnique(es: seq<Entry>, fs: seq<Entry>)
    requires Sorted(es) && Sorted(fs) && MapOf(es) == MapOf(fs)
    ensures es == fs
    decreases |es|
  {
    hide MapOf, Less;
    if es == [] || fs == [] {
      if es != [] { SortedIndex(es, 0); MapOfAt(fs, es[0].name); }
      if fs != [] { SortedIndex(fs, 0); MapOfAt(es, fs[0].name); }
    } else {
      SortedIndex(es, 0);
      SortedIndex(fs, 0);
      SameFirstName(es, fs);
      TailMap(es);
      TailMap(fs);
      SortedIsUnique(es[1..], fs[1..]);
      assert es == [es[0]] + es[1..] && fs == [fs[0]] + fs[1..];
    }
  }

  lemma SameFirstName(es: seq<Entry>, fs: seq<Entry>)
    requires Sorted(es) && Sorted(fs) && MapOf(es) == MapOf(fs) && es != [] && fs != []
    ensures es[0].name == fs[0].name
  {
    hide MapOf, Less;
    SortedIndex(es, 0);
    SortedIndex(fs, 0);
    MapOfAt(fs, es[0].name);
    MapOfAt(es, fs[0].name);
    var i, j := IndexOf(es, fs[0].name), IndexOf(fs, es[0].name);
    if i > 0 && j > 0 { LessIsStrict(es[0].name, es[i].name); }
  }

  lemma TailMap(es: seq<Entry>)
    requires Sorted(es) && es != []
    ensures Sorted(es[1..]) && MapOf(es[1..]) == MapOf(es) - {es[0].name}
  {
    UnsetRefinesMap(es, es[0].name);
    assert Removed(es, 0) == es[1..];
  }

  // --- Enumeration ---

  /** nextenv: the first name for an empty argument, else the name after the given one. */
  function NextName(es: seq<Entry>, name: Str): Value {
    if name == [] then if es == [] then Absent else Present(es[0].name)
    else
      var i := IndexOf(es, name);
      if i + 1 < |es| then Present(es[i + 1].name) else Absent
  }

  /** The first n answers when each is asked for the next. */
  function Asked(es: seq<Entry>, name: Str, n: nat): seq<Value>
    decreases n
  {
    if n == 0 then []
    else
      var next := NextName(es, name);
      if next.Absent? then [next] else [next] + Asked(es, next.text, n - 1)
  }

  /** Asking from the start gives every name once, in order, and then the end: exactly if no name is empty. */
  lemma EnumerationIff(es: seq<Entry>)
    requires Sorted(es)
    ensures Asked(es, [], |es| + 1) == Names(es) + [Absent] <==> forall i :: 0 <= i < |es| ==> es[i].name != []
  {
    hide Asked, Names, Sorted, Less;
    if forall i :: 0 <= i < |es| ==> es[i].name != [] {
      EnumeratesFrom(es, 0);
      assert es[0..] == es;
    } else {
      var i :| 0 <= i < |es| && es[i].name == [];
      EmptyIsFirst(es, i);
      EmptyRepeats(es, |es| + 1);
      assert (Names(es) + [Absent])[|Names(es)|] == Absent && |Names(es)| == |es| by { NamesLength(es); }
    }
  }

  lemma NamesLength(es: seq<Entry>)
    ensures |Names(es)| == |es|
  {
  }

  lemma EmptyIsFirst(es: seq<Entry>, i: nat)
    requires Sorted(es) && i < |es| && es[i].name == []
    ensures es[0].name == []
  {
    assert !Less(es[0].name, []);
  }

  /** Behind an empty name the enumeration never ends: however often it is asked, that name is the answer. */
  lemma {:induction false} EmptyRepeats(es: seq<Entry>, n: nat)
    requires es != [] && es[0].name == []
    ensures |Asked(es, [], n)| == n && forall i :: 0 <= i < n ==> Asked(es, [], n)[i] == Present([])
    decreases n
  {
    if n > 0 {
      EmptyRepeats(es, n - 1);
      assert Asked(es, [], n) == [Present([])] + Asked(es, [], n - 1);
    }
  }

  function Names(es: seq<Entry>): seq<Value> {
    seq(|es|, i requires 0 <= i < |es| => Present(es[i].name))
  }

  lemma {:induction false} EnumeratesFrom(es: seq<Entry>, i: nat)
    requires Sorted(es) && i <= |es| && forall k :: 0 <= k < |es| ==> es[k].name != []
    ensures Asked(es, if i == 0 then [] else es[i - 1].name, |es| - i + 1) == Names(es[i..]) + [Absent]
    decreases |es| - i
  {
    hide Less, Sorted, NextName, IndexOf, Asked, Names;
    NextIs(es, i);
    AskedStep(es, if i == 0 then [] else es[i - 1].name, |es| - i);
    NamesStep(es, i);
    if i < |es| {
      EnumeratesFrom(es, i + 1);
      assert [Present(es[i].name)] + (Names(es[i + 1..]) + [Absent]) == Names(es[i..]) + [Absent];
    }
  }

  lemma AskedStep(es: seq<Entry>, name: Str, n: nat)
    ensures var next := NextName(es, name);
            Asked(es, name, n + 1) == if next.Absent? then [next] else [next] + Asked(es, next.text, n)
  {
    hide NextName;
  }

  lemma NamesStep(es: seq<Entry>, i: nat)
    requires i <= |es|
    ensures Names(es[i..]) == if i == |es| then [] else [Present(es[i].name)] + Names(es[i + 1..])
  {
  }

  lemma NextIs(es: seq<Entry>, i: nat)
    requires Sorted(es) && i <= |es| && (i > 0 ==> es[i - 1].name != [])
    ensures NextName(es, if i == 0 then [] else es[i - 1].name) == if i < |es| then Present(es[i].name) else Absent
  {
    hide Less, MapOf;
    if i > 0 { SortedIndex(es, i - 1); }
  }
}
