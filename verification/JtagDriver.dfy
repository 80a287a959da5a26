/**
 The TAP driver of dev/jtag_tap.c over the GPIO cable of dev/jtag_gpio0.c, against the driver over an ideal cable.
 */
module JtagDriver {
  import opened JtagCable
  import opened JtagChannel
  import opened JtagPaths
  import Ideal = JtagTap

  const UNKNOWN := Ideal.UNKNOWN_STATE
  const CAPACITY: nat := 8 * SIZE

  /** tap_state, tap_irsize, and the cable. */
  datatype Driver = Driver(state: nat, irsize: nat, cable: Lines)

  predicate Valid(d: Driver) {
    d.state <= UNKNOWN && Sound(d.cable)
  }

  function Open(irsize: nat, behind: Bits8): (d: Driver)
    ensures Valid(d)
  {
    Driver(UNKNOWN, irsize, Closed(behind))
  }

  /** An ideal cable would have delivered what this one has accepted. */
  function Ideally(d: Driver): Ideal.Driver
    requires Valid(d)
  {
    Ideal.Driver(d.state, d.irsize, Stream(d.cable))
  }

  // --- The operations ---

  predicate Syncs(state: nat, to: TapState) {
    state == UNKNOWN || to == TEST_LOGIC_RESET
  }

  function PathOf(state: nat, to: TapState): (p: Path)
    requires state <= UNKNOWN
    ensures p.len <= 8
  {
    PathLeadsTo(if Syncs(state, to) then TEST_LOGIC_RESET else state, to);
    ModePath((if Syncs(state, to) then TEST_LOGIC_RESET else state) * 16 + to)
  }

  /** The TMS bits of a walk. */
  function SyncBits(state: nat, to: TapState): (r: seq<bool>)
    ensures |r| <= 5
  {
    if Syncs(state, to) then Bits(0x1F, 5) else []
  }

  function PathBits(state: nat, to: TapState): (r: seq<bool>)
    requires state <= UNKNOWN
    ensures |r| <= 8
  {
    Bits(PathOf(state, to).tms, PathOf(state, to).len)
  }

  function StateWalk(d: Driver, to: TapState): (r: Driver)
    requires Valid(d)
    ensures Valid(r) && r.state == to && r.irsize == d.irsize
  {
    PutExtends(d.cable, SyncBits(d.state, to));
    var cable := Put(d.cable, SyncBits(d.state, to));
    PutExtends(cable, PathBits(d.state, to));
    Driver(to, d.irsize, Put(cable, PathBits(d.state, to)))
  }

  function Transfer(d: Driver, register: TapState, len: nat, last: bool): (r: Driver)
    requires Valid(d) && register + 1 < UNKNOWN
    ensures Valid(r) && r.irsize == d.irsize && r.state == if last then register + 1 else register
  {
    var d := StateWalk(d, register);
    FlushSends(d.cable);
    Driver(if last then d.state + 1 else d.state, d.irsize, TransferTo(d.cable, len, last))
  }

  /** The pending bits are flushed before the target is reset; what is known of the controller starts afresh. */
  function TargetReset(d: Driver): (r: Driver)
    requires Valid(d)
    ensures Valid(r) && Stream(r.cable) == []
  {
    FlushSends(d.cable);
    Driver(UNKNOWN, d.irsize, Flush(d.cable).(tms := []))
  }

  function Step(d: Driver, op: Ideal.Op): (r: Driver)
    requires Valid(d)
    ensures Valid(r)
  {
    match op
    case Walk(to) => StateWalk(d, to)
    case Data(len, last) => Transfer(d, SHIFT_DR, len, last)
    case Instruction(last) => Transfer(d, SHIFT_IR, d.irsize, last)
    case SetIrSize(size) => d.(irsize := size)
    case TargetReset => TargetReset(d)
  }

  function Run(d: Driver, ops: seq<Ideal.Op>): (r: Driver)
    requires Valid(d)
    ensures Valid(r)
    decreases |ops|
  {
    if ops == [] then d else Run(Step(d, ops[0]), ops[1..])
  }

  // --- One operation ---

  /** The bits that wait after a walk, unless they fill the buffer up. */
  function Load(d: Driver, to: TapState): nat
    requires Valid(d)
  {
    |Pending(d.cable)| + |SyncBits(d.state, to)| + |PathBits(d.state, to)|
  }

  /** The buffer does not fill up, and what a transfer flushes does not fill whole bytes. */
  predicate Exact(d: Driver, op: Ideal.Op)
    requires Valid(d)
  {
    match op
    case Walk(to) => Load(d, to) < CAPACITY
    case Data(_, _) => Load(d, SHIFT_DR) < CAPACITY && Load(d, SHIFT_DR) % 8 != 0
    case Instruction(_) => Load(d, SHIFT_IR) < CAPACITY && Load(d, SHIFT_IR) % 8 != 0
    case SetIrSize(_) => true
    case TargetReset => true
  }

  lemma WalkExtends(d: Driver, to: TapState)
    requires Valid(d)
    ensures var c := StateWalk(d, to).cable;
            if Load(d, to) < CAPACITY then
              Pending(c) == Pending(d.cable) + SyncBits(d.state, to) + PathBits(d.state, to) && c.tms == d.cable.tms &&
              Stream(c) == Stream(d.cable) + SyncBits(d.state, to) + PathBits(d.state, to)
            else
              |Stream(c)| > |Stream(d.cable)| + |SyncBits(d.state, to)| + |PathBits(d.state, to)|
  {
    hide Stream, Pending, Put, Junk, SyncBits, PathBits;
    PutExtends(d.cable, SyncBits(d.state, to));
    PutExtends(Put(d.cable, SyncBits(d.state, to)), PathBits(d.state, to));
  }

  lemma IdealWalk(d: Ideal.Driver, to: TapState)
    requires d.state <= UNKNOWN
    ensures Ideal.StateWalk(d, to).sent == d.sent + SyncBits(d.state, to) + PathBits(d.state, to)
  {
    hide ModePath, Bits;
    assert d.sent + [] == d.sent;
  }

  lemma WalkRefinesIff(d: Driver, to: TapState)
    requires Valid(d)
    ensures Ideally(StateWalk(d, to)) == Ideal.StateWalk(Ideally(d), to) <==> Load(d, to) < CAPACITY
  {
    hide StateWalk, Load, SyncBits, PathBits, Stream;
    WalkExtends(d, to);
    IdealWalk(Ideally(d), to);
    IdealKeepsSize(Ideally(d), to);
  }

  lemma IdealKeepsSize(d: Ideal.Driver, to: TapState)
    requires d.state <= UNKNOWN
    ensures Ideal.StateWalk(d, to).irsize == d.irsize && Ideal.StateWalk(d, to).state == to
  {
    hide ModePath;
  }

  /** The TMS bits that have been clocked out when the first data bit of a transfer is. */
  function BeforeData(d: Driver, register: TapState): seq<bool>
    requires Valid(d)
  {
    Flush(StateWalk(d, register).cable).tms
  }

  /** The stale byte that this flush sends, or nothing. */
  function StaleAt(d: Driver, register: TapState): seq<bool>
    requires Valid(d)
  {
    Stale(StateWalk(d, register).cable)
  }

  lemma BeforeDataIs(d: Driver, register: TapState)
    requires Valid(d)
    ensures BeforeData(d, register) == Stream(StateWalk(d, register).cable) + StaleAt(d, register)
  {
    hide StateWalk, Stream, Flush, Stale;
    FlushSends(StateWalk(d, register).cable);
  }

  lemma TransferSends(d: Driver, register: TapState, len: nat, last: bool)
    requires Valid(d) && register + 1 < UNKNOWN
    ensures Stream(Transfer(d, register, len, last).cable) == BeforeData(d, register) + TransferTms(len, last)
    ensures Load(d, register) < CAPACITY ==> (StaleAt(d, register) == [] <==> Load(d, register) % 8 != 0)
  {
    hide StateWalk, Stream, Flush, Stale, TransferTms, SyncBits, PathBits;
    FlushSends(StateWalk(d, register).cable);
    WalkExtends(d, register);
    StreamAll(Transfer(d, register, len, last).cable);
  }

  lemma StreamAll(c: Lines)
    requires Sound(c) && c.bidx == 0 && c.bbit == 0
    ensures Stream(c) == c.tms
  {
    assert Pending(c) == [];
  }

  lemma TransferRefinesIff(d: Driver, register: TapState, len: nat, last: bool)
    requires Valid(d) && register + 1 < UNKNOWN
    ensures Ideally(Transfer(d, register, len, last)) == Ideal.Transfer(Ideally(d), register, len, last) <==>
            Load(d, register) < CAPACITY && Load(d, register) % 8 != 0
  {
    hide StateWalk, Transfer, Stream, Load, BeforeData, StaleAt, TransferTms, SyncBits, PathBits, Ideal.StateWalk,
         Ideal.Transfer;
    var walked, ideal := StateWalk(d, register), Ideal.StateWalk(Ideally(d), register);
    WalkExtends(d, register);
    TransferSends(d, register, len, last);
    BeforeDataIs(d, register);
    IdealWalk(Ideally(d), register);
    IdealTransfer(Ideally(d), register, len, last);
    if Load(d, register) < CAPACITY && StaleAt(d, register) == [] {
      assert Stream(walked.cable) + StaleAt(d, register) == Stream(walked.cable) == ideal.sent;
    }
  }

  lemma IdealTransfer(d: Ideal.Driver, register: TapState, len: nat, last: bool)
    requires d.state <= UNKNOWN
    ensures Ideal.Transfer(d, register, len, last) ==
            Ideal.Driver(if last then register + 1 else register, d.irsize,
                         Ideal.StateWalk(d, register).sent + TransferTms(len, last))
  {
    hide ModePath, TransferTms;
    IdealKeepsSize(d, register);
  }

  /** An operation does to the target what it would over an ideal cable if and only if it is exact. */
  lemma StepRefinesIff(d: Driver, op: Ideal.Op)
    requires Valid(d)
    ensures Ideally(Step(d, op)) == Ideal.Step(Ideally(d), op) <==> Exact(d, op)
  {
    hide StateWalk, Transfer, Stream, Load, Ideal.StateWalk, Ideal.Transfer;
    match op
    case Walk(to) => WalkRefinesIff(d, to);
    case Data(len, last) => TransferRefinesIff(d, SHIFT_DR, len, last);
    case Instruction(last) => TransferRefinesIff(d, SHIFT_IR, d.irsize, last);
    case SetIrSize(_) =>
    case TargetReset =>
  }

  // --- Whole runs ---

  predicate AllExact(d: Driver, ops: seq<Ideal.Op>)
    requires Valid(d)
    decreases |ops|
  {
    ops == [] || (Exact(d, ops[0]) && AllExact(Step(d, ops[0]), ops[1..]))
  }

  lemma {:induction false} RunRefines(d: Driver, ops: seq<Ideal.Op>)
    requires Valid(d) && AllExact(d, ops)
    ensures Ideally(Run(d, ops)) == Ideal.Run(Ideally(d), ops)
    decreases |ops|
  {
    hide Step, Exact, Ideal.Step, Stream;
    if ops != [] {
      StepRefinesIff(d, ops[0]);
      RunRefines(Step(d, ops[0]), ops[1..]);
    }
  }

  /** After every run of exact operations the driver knows the controller's state, or knows that it does not. */
  lemma DriverStaysInStep(irsize: nat, behind: Bits8, ops: seq<Ideal.Op>, hw: TapState)
    requires Ideal.CarriesAll(irsize, ops) && AllExact(Open(irsize, behind), ops)
    ensures var d := Run(Open(irsize, behind), ops);
            d.state == UNKNOWN || d.state == Walk(hw, Stream(d.cable))
  {
    hide Run, AllExact, Ideal.Run, Ideal.CarriesAll, Walk, Stream, Closed;
    RunRefines(Open(irsize, behind), ops);
    OpenIsIdeal(irsize, behind);
    Ideal.DriverNeverMistaken(irsize, ops, hw);
  }

  lemma OpenIsIdeal(irsize: nat, behind: Bits8)
    ensures Ideally(Open(irsize, behind)) == Ideal.Open(irsize)
  {
    StreamAll(Closed(behind));
  }

  /** Without resets in between, the target gets the bits of an ideal cable only if all operations are exact. */
  lemma RunRefinesIff(d: Driver, ops: seq<Ideal.Op>)
    requires Valid(d) && forall i :: 0 <= i < |ops| ==> !ops[i].TargetReset?
    ensures Ideally(Run(d, ops)) == Ideal.Run(Ideally(d), ops) <==> AllExact(d, ops)
  {
    hide Run, AllExact, Ideal.Run, Stream;
    RunSendsMore(d, Ideally(d), ops);
    if AllExact(d, ops) { RunRefines(d, ops); }
  }

  lemma StepSendsMore(d: Driver, e: Ideal.Driver, op: Ideal.Op)
    requires Valid(d) && e.state == d.state && e.irsize == d.irsize && |e.sent| <= |Stream(d.cable)| && !op.TargetReset?
    ensures var d1, e1 := Step(d, op), Ideal.Step(e, op);
            e1.state == d1.state && e1.irsize == d1.irsize && |e1.sent| <= |Stream(d1.cable)| &&
            (|e1.sent| == |Stream(d1.cable)| ==> |e.sent| == |Stream(d.cable)| && Exact(d, op))
  {
    hide StateWalk, Transfer, Stream, Load, Ideal.StateWalk, Ideal.Transfer, SyncBits, PathBits;
    match op
    case Walk(to) => WalkSendsMore(d, e, to);
    case Data(len, last) => TransferSendsMore(d, e, SHIFT_DR, len, last);
    case Instruction(last) => TransferSendsMore(d, e, SHIFT_IR, d.irsize, last);
    case SetIrSize(_) =>
  }

  lemma WalkSendsMore(d: Driver, e: Ideal.Driver, to: TapState)
    requires Valid(d) && e.state == d.state && e.irsize == d.irsize && |e.sent| <= |Stream(d.cable)|
    ensures var d1, e1 := StateWalk(d, to), Ideal.StateWalk(e, to);
            e1.state == d1.state && e1.irsize == d1.irsize && |e1.sent| <= |Stream(d1.cable)| &&
            (|e1.sent| == |Stream(d1.cable)| ==> |e.sent| == |Stream(d.cable)| && Load(d, to) < CAPACITY)
  {
    hide StateWalk, Stream, Load, Ideal.StateWalk, SyncBits, PathBits;
    WalkExtends(d, to);
    IdealWalk(e, to);
    IdealKeepsSize(e, to);
  }

  lemma TransferSendsMore(d: Driver, e: Ideal.Driver, register: TapState, len: nat, last: bool)
    requires Valid(d) && e.state == d.state && e.irsize == d.irsize && |e.sent| <= |Stream(d.cable)|
    requires register + 1 < UNKNOWN
    ensures var d1, e1 := Transfer(d, register, len, last), Ideal.Transfer(e, register, len, last);
            e1.state == d1.state && e1.irsize == d1.irsize && |e1.sent| <= |Stream(d1.cable)| &&
            (|e1.sent| == |Stream(d1.cable)| ==>
              |e.sent| == |Stream(d.cable)| && Load(d, register) < CAPACITY && Load(d, register) % 8 != 0)
  {
    hide StateWalk, Transfer, Stream, Load, BeforeData, StaleAt, TransferTms, Ideal.StateWalk, Ideal.Transfer;
    WalkSendsMore(d, e, register);
    TransferSends(d, register, len, last);
    BeforeDataIs(d, register);
    IdealTransfer(e, register, len, last);
  }

  lemma {:induction false} RunSendsMore(d: Driver, e: Ideal.Driver, ops: seq<Ideal.Op>)
    requires Valid(d) && e.state == d.state && e.irsize == d.irsize && |e.sent| <= |Stream(d.cable)|
    requires forall i :: 0 <= i < |ops| ==> !ops[i].TargetReset?
    ensures |Ideal.Run(e, ops).sent| <= |Stream(Run(d, ops).cable)|
    ensures |Ideal.Run(e, ops).sent| == |Stream(Run(d, ops).cable)| ==>
            |e.sent| == |Stream(d.cable)| && AllExact(d, ops)
    decreases |ops|
  {
    hide Step, Exact, Ideal.Step, Stream;
    if ops != [] {
      StepSendsMore(d, e, ops[0]);
      RunSendsMore(Step(d, ops[0]), Ideal.Step(e, ops[0]), ops[1..]);
    }
  }

  // --- Where the data bits are clocked ---

  /** Data bits are clocked from wherever the stale byte leads from the shift state. */
  lemma DataStartsAt(d: Driver, register: TapState, hw: TapState)
    requires Valid(d) && Ideal.InStep(Ideally(d)) && Load(d, register) < CAPACITY
    ensures Walk(hw, Stream(StateWalk(d, register).cable)) == register
    ensures Walk(hw, BeforeData(d, register)) == Walk(register, StaleAt(d, register))
  {
    hide StateWalk, Transfer, Stream, BeforeData, StaleAt, Walk, Ideal.StateWalk;
    WalkRefinesIff(d, register);
    Ideal.WalkKeepsStep(Ideally(d), register);
    var stream := Stream(StateWalk(d, register).cable);
    BeforeDataIs(d, register);
    WalkConcat(hw, stream, StaleAt(d, register));
  }

  /** Exactly when a transfer leaves the driver in step with the controller. */
  lemma TransferKeepsStepIff(d: Driver, register: TapState, len: nat, last: bool)
    requires Valid(d) && Ideal.InStep(Ideally(d)) && register + 1 < UNKNOWN && Load(d, register) < CAPACITY
    ensures Ideal.InStep(Ideally(Transfer(d, register, len, last))) <==>
            Walk(register, StaleAt(d, register) + TransferTms(len, last)) == if last then register + 1 else register
  {
    hide StateWalk, Transfer, Stream, BeforeData, StaleAt, Walk, TransferTms, Load;
    var r := Transfer(d, register, len, last);
    var after := Walk(register, StaleAt(d, register) + TransferTms(len, last));
    forall hw: TapState ensures Walk(hw, Stream(r.cable)) == after {
      DataStartsAt(d, register, hw);
      TransferSends(d, register, len, last);
      WalkConcat(hw, BeforeData(d, register), TransferTms(len, last));
      WalkConcat(register, StaleAt(d, register), TransferTms(len, last));
    }
    assert Walk(TEST_LOGIC_RESET, Stream(r.cable)) == after;
  }

  function RegisterOf(op: Ideal.Op): TapState
    requires op.Data? || op.Instruction?
  {
    if op.Data? then SHIFT_DR else SHIFT_IR
  }

  /** In a run of exact operations every data bit is clocked in the shift state. */
  lemma DataBitsShift(irsize: nat, behind: Bits8, ops: seq<Ideal.Op>, op: Ideal.Op, hw: TapState)
    requires Ideal.CarriesAll(irsize, ops) && AllExact(Open(irsize, behind), ops)
    requires (op.Data? || op.Instruction?) && Exact(Run(Open(irsize, behind), ops), op)
    ensures Walk(hw, BeforeData(Run(Open(irsize, behind), ops), RegisterOf(op))) == RegisterOf(op)
  {
    hide Run, AllExact, Ideal.Run, Ideal.CarriesAll, Walk, Stream, BeforeData, StaleAt, Load, Open, Ideal.Open;
    var d := Run(Open(irsize, behind), ops);
    RunRefines(Open(irsize, behind), ops);
    OpenIsIdeal(irsize, behind);
    OpenInStep(irsize);
    Ideal.RunKeepsStep(Ideal.Open(irsize), ops);
    TransferSends(d, RegisterOf(op), 0, false);
    DataStartsAt(d, RegisterOf(op), hw);
    WalksNowhere(RegisterOf(op));
  }

  lemma OpenInStep(irsize: nat)
    ensures Ideal.InStep(Ideal.Open(irsize)) && Ideal.Open(irsize).irsize == irsize
  {
  }

  lemma WalksNowhere(s: TapState)
    ensures Walk(s, []) == s
  {
  }

  /** A transfer from the shift state with nothing pending starts wherever the first byte of the buffer leads. */
  lemma RepeatedStartsAt(d: Driver, register: TapState, hw: TapState)
    requires Valid(d) && Ideal.InStep(Ideally(d)) && d.state == register && Pending(d.cable) == []
    requires register == SHIFT_DR || register == SHIFT_IR
    ensures StaleAt(d, register) == d.cable.buf[0]
    ensures Walk(hw, BeforeData(d, register)) == Walk(register, d.cable.buf[0])
  {
    hide Walk, Stream, Bits, BeforeData;
    NoPath();
    NothingPut(register);
    PutEmpty(d.cable);
    DataStartsAt(d, register, hw);
  }

  lemma NoPath()
    ensures ModePath(SHIFT_DR * 16 + SHIFT_DR).len == 0 && ModePath(SHIFT_IR * 16 + SHIFT_IR).len == 0
  {
  }

  lemma NothingPut(register: TapState)
    requires ModePath(register * 16 + register).len == 0 && register != TEST_LOGIC_RESET
    ensures SyncBits(register, register) == [] && PathBits(register, register) == []
  {
  }

  lemma PutEmpty(c: Lines)
    requires Sound(c)
    ensures Put(c, []) == c
  {
  }

  // --- A walk that fills the buffer up ---

  /** The bits of a walk, synchronizing ones included. */
  function AllBits(state: nat, to: TapState): (r: seq<bool>)
    requires state <= UNKNOWN
    ensures |r| == |SyncBits(state, to)| + |PathBits(state, to)|
  {
    SyncBits(state, to) + PathBits(state, to)
  }

  function Room(d: Driver): (r: nat)
    requires Valid(d)
    ensures r > 0
  {
    CAPACITY - |Pending(d.cable)|
  }

  /** The junk that comes in between: how much of it depends on which of the two calls fills the buffer. */
  function JunkAt(d: Driver, to: TapState): seq<bool>
    requires Valid(d)
  {
    PutExtends(d.cable, SyncBits(d.state, to));
    if Room(d) <= |SyncBits(d.state, to)| then Junk(d.cable) else Junk(Put(d.cable, SyncBits(d.state, to)))
  }

  /** What such a walk sends in the end. */
  function Filled(d: Driver, to: TapState): seq<bool>
    requires Valid(d) && Load(d, to) >= CAPACITY
  {
    AllBits(d.state, to)[..Room(d)] + (JunkAt(d, to) + AllBits(d.state, to)[Room(d)..])
  }

  lemma FilledStream(d: Driver, to: TapState)
    requires Valid(d) && Load(d, to) >= CAPACITY
    ensures Stream(StateWalk(d, to).cable) == Stream(d.cable) + Filled(d, to)
  {
    hide Stream, Put, Junk, SyncBits, PathBits;
    var first, path := SyncBits(d.state, to), PathBits(d.state, to);
    PutExtends(d.cable, first);
    var c := Put(d.cable, first);
    PutExtends(c, path);
    if Room(d) <= |first| {
      EarlyJunk(Stream(d.cable), first, path, Room(d), Junk(d.cable));
    } else {
      LateJunk(Stream(d.cable), first, path, Room(d), Junk(c));
    }
  }

  lemma EarlyJunk(s: seq<bool>, a: seq<bool>, b: seq<bool>, k: nat, junk: seq<bool>)
    requires k <= |a|
    ensures s + a[..k] + junk + a[k..] + b == s + ((a + b)[..k] + (junk + (a + b)[k..]))
  {
  }

  lemma LateJunk(s: seq<bool>, a: seq<bool>, b: seq<bool>, k: nat, junk: seq<bool>)
    requires |a| < k <= |a| + |b|
    ensures s + a + b[..k - |a|] + junk + b[k - |a|..] == s + ((a + b)[..k] + (junk + (a + b)[k..]))
  {
  }

  /** From every state that the bits sent so far may have led to, the next ones lead to this state. */
  ghost predicate LeadOn(sent: seq<bool>, bits: seq<bool>, to: TapState) {
    forall hw: TapState :: Walk(Walk(hw, sent), bits) == to
  }

  /**
   A walk that fills the buffer up leaves the driver in step exactly if its bits, with the junk in their midst, lead
   to the requested state: from every state the controller may be in, or from tap_state if that is known.
   */
  lemma FullBufferIff(d: Driver, to: TapState)
    requires Valid(d) && Ideal.InStep(Ideally(d)) && Load(d, to) >= CAPACITY
    ensures Ideal.InStep(Ideally(StateWalk(d, to))) <==> LeadOn(Stream(d.cable), Filled(d, to), to)
    ensures d.state < UNKNOWN ==>
            (Ideal.InStep(Ideally(StateWalk(d, to))) <==> Walk(d.state, Filled(d, to)) == to)
  {
    hide Walk, Stream, StateWalk, Filled, Load;
    var r := StateWalk(d, to);
    forall hw: TapState
      ensures Walk(hw, Stream(r.cable)) == Walk(Walk(hw, Stream(d.cable)), Filled(d, to))
    {
      FilledStream(d, to);
      WalkConcat(hw, Stream(d.cable), Filled(d, to));
    }
    if Ideal.InStep(Ideally(r)) {
      forall hw: TapState ensures Walk(Walk(hw, Stream(d.cable)), Filled(d, to)) == to {
        assert Walk(hw, Stream(r.cable)) == to;
      }
    }
    assert Walk(TEST_LOGIC_RESET, Stream(r.cable)) == Walk(Walk(TEST_LOGIC_RESET, Stream(d.cable)), Filled(d, to));
  }

  /** After opening the driver or a target reset nothing waits, so that a buffer fills up in a known state only. */
  lemma {:induction false} UnknownIsEmpty(d: Driver, ops: seq<Ideal.Op>)
    requires Valid(d) && (d.state == UNKNOWN ==> Pending(d.cable) == [])
    ensures Run(d, ops).state == UNKNOWN ==> Pending(Run(d, ops).cable) == []
    ensures Run(d, ops).state == UNKNOWN ==> forall to: TapState :: Load(Run(d, ops), to) < CAPACITY
    decreases |ops|
  {
    hide StateWalk, Transfer, SyncBits, PathBits, Pending;
    if ops != [] {
      UnknownStep(d, ops[0]);
      UnknownIsEmpty(Step(d, ops[0]), ops[1..]);
    }
  }

  lemma UnknownStep(d: Driver, op: Ideal.Op)
    requires Valid(d) && (d.state == UNKNOWN ==> Pending(d.cable) == [])
    ensures Step(d, op).state == UNKNOWN ==> Pending(Step(d, op).cable) == []
  {
    hide StateWalk, Transfer;
    if op.TargetReset? { FlushSends(d.cable); }
  }

  // --- Two runs ---

  /** The walk from an unknown state to Shift-DR, and where its first eight bits lead from there. */
  lemma FirstWalkBits()
    ensures Bits(0x1F, 5) == [true, true, true, true, true] && Bits(0x02, 4) == [false, true, false, false]
  {
    assert Bits(0x02, 4) == [false] + Bits(0x01, 3) && Bits(0x01, 3) == [true] + Bits(0, 2);
    assert Bits(0, 2) == [false] + Bits(0, 1) && Bits(0, 1) == [false] + Bits(0, 0);
    assert Bits(0x1F, 5) == [true] + Bits(0x0F, 4) && Bits(0x0F, 4) == [true] + Bits(0x07, 3);
    assert Bits(0x07, 3) == [true] + Bits(0x03, 2) && Bits(0x03, 2) == [true] + Bits(0x01, 1);
  }

  lemma FirstWalk()
    ensures SyncBits(UNKNOWN, SHIFT_DR) + PathBits(UNKNOWN, SHIFT_DR) ==
            [true, true, true, true, true, false, true, false, false]
  {
    hide Bits;
    FirstWalkBits();
    assert ModePath(SHIFT_DR).tms == 0x02 && ModePath(SHIFT_DR).len == 4;
  }

  /** From Shift-DR these bits lead through Update-DR and Test-Logic-Reset to Capture-DR. */
  lemma StaleByteCaptures()
    ensures Walk(SHIFT_DR, [true, true, true, true, true]) == TEST_LOGIC_RESET
    ensures Walk(SHIFT_DR, [true, true, true, true, true, false, true, false]) == CAPTURE_DR
  {
    var five := [true, true, true, true, true];
    assert five[1..] == [true, true, true, true] && five[1..][1..] == [true, true, true];
    assert [true, true, true][1..] == [true, true] && [true, true][1..] == [true] && [true][1..] == [];
    assert Walk(SHIFT_DR, five) == TEST_LOGIC_RESET;
    WalkConcat(SHIFT_DR, five, [false, true, false]);
    assert [false, true, false][1..] == [true, false] && [true, false][1..] == [false] && [false][1..] == [];
  }

  /** A transfer that starts in Capture-DR loses its first bit, but ends where the driver thinks. */
  lemma FromCapture(len: nat, last: bool)
    ensures Walk(CAPTURE_DR, TransferTms(len, last)) == (if last then EXIT1_DR else SHIFT_DR) <==> len > 0
  {
    if len == 1 {
      assert [last][1..] == [];
    } else if len > 1 {
      assert ([false] + TransferTms(len - 1, last))[1..] == TransferTms(len - 1, last);
      Ideal.TransferLeads(SHIFT_DR, len - 1, last);
    }
  }

  /** The first transfer after opening the driver or resetting the target. */
  lemma FirstTransfer(d: Driver, len: nat, last: bool)
    requires Valid(d) && d.state == UNKNOWN && Pending(d.cable) == [] && (last ==> len > 0)
    ensures var e := Transfer(d, SHIFT_DR, len, last);
            Ideal.InStep(Ideally(e)) && Pending(e.cable) == [] &&
            e.cable.buf[0] == [true, true, true, true, true, false, true, false] && e.cable.buf[1] == ZERO
  {
    hide Walk, Stream, Bits, Packed, TransferTms, SyncBits, PathBits, Put;
    FirstWalk();
    WalkExtends(d, SHIFT_DR);
    var c := StateWalk(d, SHIFT_DR).cable;
    var nine := [true, true, true, true, true, false, true, false, false];
    assert Pending(c) == [] + nine == nine;
    FirstByte(c);
    SecondByte(c);
    FlushSends(c);
    TransferSends(d, SHIFT_DR, len, last);
    TransferKeepsStepIff(d, SHIFT_DR, len, last);
    assert [] + TransferTms(len, last) == TransferTms(len, last);
    Ideal.TransferLeads(SHIFT_DR, len, last);
  }

  lemma SecondByte(c: Lines)
    requires Sound(c) && c.bidx == 1 && c.bbit == 1 && !Pending(c)[8]
    ensures c.buf[1] == ZERO
  {
  }

  /**
   The first transfer after opening the driver or resetting the target, and another one: the second starts in
   Capture-DR, so that its first bit is lost; the driver is in step again when it has carried a bit.
   */
  lemma SecondTransfer(d: Driver, n: nat, len: nat, last: bool, hw: TapState)
    requires Valid(d) && d.state == UNKNOWN && Pending(d.cable) == []
    ensures var e := Transfer(d, SHIFT_DR, n, false);
            Walk(hw, BeforeData(e, SHIFT_DR)) == CAPTURE_DR &&
            (Ideal.InStep(Ideally(Transfer(e, SHIFT_DR, len, last))) <==> len > 0)
  {
    hide Walk, Stream, TransferTms, SyncBits, PathBits, BeforeData, StateWalk, Transfer, Packed;
    var e := Transfer(d, SHIFT_DR, n, false);
    FirstTransfer(d, n, false);
    StaleByteCaptures();
    RepeatedStartsAt(e, SHIFT_DR, hw);
    NoPath();
    NothingPut(SHIFT_DR);
    TransferKeepsStepIff(e, SHIFT_DR, len, last);
    WalkConcat(SHIFT_DR, e.cable.buf[0], TransferTms(len, last));
    FromCapture(len, last);
  }

  lemma WalkLeaves(d: Driver, to: TapState, i: nat)
    requires Valid(d) && Load(d, to) <= 8 * i < CAPACITY
    ensures StateWalk(d, to).cable.buf[i] == d.cable.buf[i]
  {
    hide PutFrom, SyncBits, PathBits, Packed;
    PutExtends(d.cable, SyncBits(d.state, to));
    PutLeaves(d.cable, d.cable.bbit, SyncBits(d.state, to), i);
    var c := Put(d.cable, SyncBits(d.state, to));
    PutLeaves(c, c.bbit, PathBits(d.state, to), i);
  }

  /** The paths from Exit1-DR through Run-Test/Idle and Pause-DR to Shift-DR. */
  lemma PausePaths()
    ensures SyncBits(EXIT1_DR, RUN_TEST_IDLE) == [] && PathBits(EXIT1_DR, RUN_TEST_IDLE) == [true, false]
    ensures SyncBits(RUN_TEST_IDLE, PAUSE_DR) == [] && PathBits(RUN_TEST_IDLE, PAUSE_DR) == [true, false, true, false]
    ensures SyncBits(PAUSE_DR, SHIFT_DR) == [] && PathBits(PAUSE_DR, SHIFT_DR) == [true, false]
  {
    assert Bits(0x05, 4) == [true] + Bits(0x02, 3) && Bits(0x02, 3) == [false] + Bits(0x01, 2);
    assert Bits(0x01, 2) == [true] + Bits(0, 1) && Bits(0, 1) == [false] + Bits(0, 0);
    hide Bits;
    assert ModePath(EXIT1_DR * 16 + RUN_TEST_IDLE).tms == 0x01 && ModePath(EXIT1_DR * 16 + RUN_TEST_IDLE).len == 2;
    assert ModePath(RUN_TEST_IDLE * 16 + PAUSE_DR).tms == 0x05 && ModePath(RUN_TEST_IDLE * 16 + PAUSE_DR).len == 4;
    assert ModePath(PAUSE_DR * 16 + SHIFT_DR).tms == 0x01 && ModePath(PAUSE_DR * 16 + SHIFT_DR).len == 2;
  }

  lemma WalkKeepsStep(d: Driver, to: TapState)
    requires Valid(d) && Ideal.InStep(Ideally(d)) && Load(d, to) < CAPACITY
    ensures Ideal.InStep(Ideally(StateWalk(d, to)))
  {
    hide StateWalk, Load, Stream, Walk, Ideal.StateWalk;
    WalkRefinesIff(d, to);
    Ideal.WalkKeepsStep(Ideally(d), to);
  }

  /** Through Run-Test/Idle and Pause-DR to the next transfer: its path fills one byte, and buf[1] is sent as well. */
  function PausedTransfer(d: Driver, len: nat): (r: Driver)
    requires Valid(d)
    ensures Valid(r)
  {
    Transfer(StateWalk(StateWalk(d, RUN_TEST_IDLE), PAUSE_DR), SHIFT_DR, len, false)
  }

  lemma PausedWalks(d: Driver)
    requires Valid(d) && d.state == EXIT1_DR && Pending(d.cable) == []
    ensures var e := StateWalk(StateWalk(d, RUN_TEST_IDLE), PAUSE_DR);
            Pending(e.cable) == [true, false, true, false, true, false] && e.cable.buf[1] == d.cable.buf[1] &&
            Load(e, SHIFT_DR) == 8 && (Ideal.InStep(Ideally(d)) ==> Ideal.InStep(Ideally(e)))
  {
    hide StateWalk, SyncBits, PathBits, Stream, Ideal.InStep, Packed;
    PausePaths();
    WalkExtends(d, RUN_TEST_IDLE);
    var w := StateWalk(d, RUN_TEST_IDLE);
    assert Pending(w.cable) == [true, false];
    WalkExtends(w, PAUSE_DR);
    WalkLeaves(d, RUN_TEST_IDLE, 1);
    WalkLeaves(w, PAUSE_DR, 1);
    var e := StateWalk(w, PAUSE_DR);
    assert Pending(e.cable) == [true, false] + [] + [true, false, true, false];
    if Ideal.InStep(Ideally(d)) {
      WalkKeepsStep(d, RUN_TEST_IDLE);
      WalkKeepsStep(w, PAUSE_DR);
    }
  }

  lemma PausedLeaves(d: Driver, len: nat)
    requires Valid(d) && d.state == EXIT1_DR && Pending(d.cable) == [] && d.cable.buf[1] == ZERO
    requires Ideal.InStep(Ideally(d))
    ensures var e := PausedTransfer(d, len);
            Ideal.InStep(Ideally(e)) && Pending(e.cable) == [] &&
            e.cable.buf[0] == [true, false, true, false, true, false, true, false]
  {
    hide StateWalk, SyncBits, PathBits, Stream, Ideal.InStep, Walk, TransferTms, Packed, Load;
    var w := StateWalk(StateWalk(d, RUN_TEST_IDLE), PAUSE_DR);
    PausedWalks(d);
    PausePaths();
    WalkExtends(w, SHIFT_DR);
    WalkLeaves(w, SHIFT_DR, 1);
    var c := StateWalk(w, SHIFT_DR).cable;
    assert Pending(c) == [true, false, true, false, true, false, true, false];
    FirstByte(c);
    FlushSends(c);
    assert StaleAt(w, SHIFT_DR) == ZERO;
    TransferKeepsStepIff(w, SHIFT_DR, len, false);
    WalkConcat(SHIFT_DR, ZERO, TransferTms(len, false));
    Ideal.TransferLeads(SHIFT_DR, len, false);
    BytesThatStay();
  }

  lemma BytesThatStay()
    ensures Walk(SHIFT_DR, ZERO) == SHIFT_DR
    ensures Walk(SHIFT_DR, [true, false, true, false, true, false, true, false]) == SHIFT_DR
  {
    hide Walk, TransferTms;
    Ideal.TransferLeads(SHIFT_DR, 8, false);
    EightZeros();
    PauseAndBack();
    var four := [true, false, true, false];
    WalkConcat(SHIFT_DR, four, four);
    assert four + four == [true, false, true, false, true, false, true, false];
  }

  lemma EightZeros()
    ensures TransferTms(8, false) == ZERO
  {
    assert TransferTms(4, false) == [false, false] + TransferTms(2, false) == [false, false, false, false];
    assert TransferTms(6, false) == [false, false] + TransferTms(4, false);
    assert TransferTms(8, false) == [false, false] + TransferTms(6, false);
  }

  lemma PauseAndBack()
    ensures Walk(SHIFT_DR, [true, false, true, false]) == SHIFT_DR
  {
    var four := [true, false, true, false];
    assert four[1..] == [false, true, false] && four[1..][1..] == [true, false] && [true, false][1..] == [false];
    assert [false][1..] == [];
  }

  /** Not every stale byte does harm: after a pause the next transfer but one stays in Shift-DR. */
  lemma TransferAfterPause(d: Driver, n: nat, len: nat, hw: TapState)
    requires Valid(d) && d.state == UNKNOWN && Pending(d.cable) == [] && n > 0
    ensures var e := PausedTransfer(Transfer(d, SHIFT_DR, n, true), len);
            |StaleAt(e, SHIFT_DR)| == 8 && Walk(hw, BeforeData(e, SHIFT_DR)) == SHIFT_DR
  {
    hide StateWalk, Stream, Walk, Load, Packed;
    FirstTransfer(d, n, true);
    PausedLeaves(Transfer(d, SHIFT_DR, n, true), len);
    var e := PausedTransfer(Transfer(d, SHIFT_DR, n, true), len);
    RepeatedStartsAt(e, SHIFT_DR, hw);
    BytesThatStay();
  }

  // --- The code ---

  /** JTAG_TAP with the functions of jtag_gpio0 */
  class Tap {
    var tap_state: nat
    var tap_irsize: nat
    const tap_cable: GpioCable

    /** TapOpen */
    constructor (cable: GpioCable)
      requires cable.State() == Closed(cable.behind)
      ensures Model() == Open(0, cable.behind) && tap_cable == cable
    {
      tap_state, tap_irsize := UNKNOWN, 0;
      tap_cable := cable;
    }

    ghost function Model(): Driver
      reads this, tap_cable, tap_cable.cib_buf
    {
      Driver(tap_state, tap_irsize, tap_cable.State())
    }

    method TapSetIrSize(len: nat)
      modifies this`tap_irsize
      ensures Model() == old(Model()).(irsize := len)
    {
      tap_irsize := len;
    }

    method TapTargetReset()
      requires Valid(Model())
      modifies this, tap_cable
      ensures Model() == TargetReset(old(Model()))
    {
      tap_cable.TmsFlush();
      tap_cable.ForgetTarget();
      tap_state := UNKNOWN;
    }

    method TapStateWalk(state: TapState)
      requires Valid(Model())
      modifies this, tap_cable, tap_cable.cib_buf
      ensures Model() == StateWalk(old(Model()), state) && tap_cable.tdi == old(tap_cable.tdi)
    {
      hide Bits, ModePath, PutFrom, Packed, ClearFrom;
      ghost var d := Model();
      PutExtends(d.cable, SyncBits(d.state, state));
      PutEmpty(d.cable);
      if tap_state == UNKNOWN || state == TEST_LOGIC_RESET {
        tap_cable.TmsPut(0x1F, 5);
        tap_state := TEST_LOGIC_RESET;
      }
      var idx := state;
      idx := idx + tap_state * 16;
      assert ModePath(idx) == PathOf(d.state, state);
      tap_cable.TmsPut(ModePath(idx).tms, ModePath(idx).len);
      tap_state := state;
    }

    /** TapData; tdo is what the target answers. */
    method TapData(wbuf: Source, len: nat, last: bool, tdo: seq<bool>) returns (rbuf: seq<Bits8>)
      requires Valid(Model()) && |tdo| == len && (wbuf.Bytes? ==> len <= 8 * |wbuf.bytes|)
      modifies this, tap_cable, tap_cable.cib_buf
      ensures Model() == Transfer(old(Model()), SHIFT_DR, len, last)
      ensures tap_cable.tdi == old(tap_cable.tdi) + Sent(wbuf, len)
      ensures |rbuf| == (len + 7) / 8 && forall i :: 0 <= i < |rbuf| ==> rbuf[i] == ReadByte(wbuf, tdo, i)
    {
      hide StateWalk, TransferTms, Packed, Flush;
      TapStateWalk(SHIFT_DR);
      rbuf := tap_cable.TransferData(wbuf, len, last, tdo);
      if last {
        tap_state := tap_state + 1;
      }
    }

    /** TapInstruction; the code is in the bytes of wbuf. */
    method TapInstruction(wbuf: Source, last: bool, tdo: seq<bool>)
      requires Valid(Model()) && |tdo| == tap_irsize && wbuf.Bytes? && tap_irsize <= 8 * |wbuf.bytes|
      modifies this, tap_cable, tap_cable.cib_buf
      ensures Model() == Transfer(old(Model()), SHIFT_IR, old(tap_irsize), last)
      ensures tap_cable.tdi == old(tap_cable.tdi) + Sent(wbuf, old(tap_irsize))
    {
      hide StateWalk, TransferTms, Packed, Flush;
      TapStateWalk(SHIFT_IR);
      var _ := tap_cable.TransferData(wbuf, tap_irsize, last, tdo);
      if last {
        tap_state := tap_state + 1;
      }
    }
  }
}
