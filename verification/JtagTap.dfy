/**
 The TAP driver of dev/jtag_tap.c over an ideal cable, which delivers TMS bits at once and in order.
 */
module JtagTap {
  import opened JtagChannel
  import opened JtagPaths

  const UNKNOWN_STATE := 16

  /** tap_state and tap_irsize, and every TMS bit the target has seen since its last reset. */
  datatype Driver = Driver(state: nat, irsize: nat, sent: seq<bool>)

  /** TapOpen. */
  function Open(irsize: nat): Driver {
    Driver(UNKNOWN_STATE, irsize, [])
  }

  function Append(d: Driver, tms: nat, len: nat): Driver {
    d.(sent := d.sent + Bits(tms, len))
  }

  function StateWalk(d: Driver, to: TapState): Driver
    requires d.state <= UNKNOWN_STATE
  {
    var d1 := if d.state == UNKNOWN_STATE || to == TEST_LOGIC_RESET
              then Append(d, 0x1F, 5).(state := TEST_LOGIC_RESET) else d;
    var path := ModePath(d1.state * 16 + to);
    Append(d1, path.tms, path.len).(state := to)
  }

  function Transfer(d: Driver, register: TapState, len: nat, last: bool): Driver
    requires d.state <= UNKNOWN_STATE
  {
    var d1 := StateWalk(d, register);
    var d2 := d1.(sent := d1.sent + TransferTms(len, last));
    if last then d2.(state := d2.state + 1) else d2
  }

  datatype Op =
    | Walk(to: TapState)
    | Data(len: nat, last: bool)
    | Instruction(last: bool)
    | SetIrSize(size: nat)
    | TargetReset

  function Step(d: Driver, op: Op): (r: Driver)
    requires d.state <= UNKNOWN_STATE
    ensures r.state <= UNKNOWN_STATE
  {
    match op
    case Walk(to) => StateWalk(d, to)
    case Data(len, last) => Transfer(d, SHIFT_DR, len, last)
    case Instruction(last) => Transfer(d, SHIFT_IR, d.irsize, last)
    case SetIrSize(size) => d.(irsize := size)
    case TargetReset => d.(state := UNKNOWN_STATE, sent := [])
  }

  /** Whatever state the hardware was in, the bits sent since have brought it to tap_state. */
  ghost predicate InStep(d: Driver) {
    d.state <= UNKNOWN_STATE &&
    (d.state < UNKNOWN_STATE ==> forall hw: TapState :: JtagPaths.Walk(hw, d.sent) == d.state)
  }

  // ---------------------------------------------------------------- every operation keeps step

  lemma FollowFiveOnes(hw: TapState)
    ensures Follow(hw, 0x1F, 5) == TEST_LOGIC_RESET
  {
    match hw
    case 0 => case 1 => case 2 => case 3 => case 4 => case 5 => case 6 => case 7 =>
    case 8 => case 9 => case 10 => case 11 => case 12 => case 13 => case 14 => case _ =>
  }

  lemma FiveOnesReset(hw: TapState)
    ensures JtagPaths.Walk(hw, Bits(0x1F, 5)) == TEST_LOGIC_RESET
  {
    hide JtagPaths.Walk, Bits, Follow;
    FollowFiveOnes(hw);
    FollowIsWalk(hw, 0x1F, 5);
  }

  lemma WalkKeepsStep(d: Driver, to: TapState)
    requires InStep(d)
    ensures InStep(StateWalk(d, to)) && StateWalk(d, to).state == to
  {
    hide ModePath, JtagPaths.Walk, Bits;
    var sync := d.state == UNKNOWN_STATE || to == TEST_LOGIC_RESET;
    var d1 := if sync then Append(d, 0x1F, 5).(state := TEST_LOGIC_RESET) else d;
    var path := ModePath(d1.state * 16 + to);
    PathLeadsTo(d1.state, to);
    forall hw: TapState ensures JtagPaths.Walk(hw, StateWalk(d, to).sent) == to {
      if sync {
        WalkConcat(hw, d.sent, Bits(0x1F, 5));
        FiveOnesReset(JtagPaths.Walk(hw, d.sent));
      }
      assert JtagPaths.Walk(hw, d1.sent) == d1.state;
      WalkConcat(hw, d1.sent, Bits(path.tms, path.len));
    }
  }

  lemma {:induction false} TransferLeads(register: TapState, len: nat, last: bool)
    requires register == SHIFT_DR || register == SHIFT_IR
    ensures JtagPaths.Walk(register, TransferTms(len, last)) == if last && len > 0 then register + 1 else register
  {
    if len == 1 {
      assert [last][1..] == [];
    } else if len > 1 {
      assert ([false] + TransferTms(len - 1, last))[1..] == TransferTms(len - 1, last);
      TransferLeads(register, len - 1, last);
    }
  }

  /** A transfer keeps step exactly unless it is marked last but carries no bit. */
  lemma TransferKeepsStepIff(d: Driver, register: TapState, len: nat, last: bool)
    requires InStep(d) && (register == SHIFT_DR || register == SHIFT_IR)
    ensures InStep(Transfer(d, register, len, last)) <==> !(last && len == 0)
    ensures Transfer(d, register, len, last).state == if last then register + 1 else register
  {
    hide JtagPaths.Walk, ModePath;
    WalkKeepsStep(d, register);
    var d1 := StateWalk(d, register);
    var d2 := Transfer(d, register, len, last);
    TransferLeads(register, len, last);
    forall hw: TapState
      ensures JtagPaths.Walk(hw, d2.sent) == if last && len > 0 then register + 1 else register
    {
      assert JtagPaths.Walk(hw, d1.sent) == register;
      WalkConcat(hw, d1.sent, TransferTms(len, last));
    }
    if last && len == 0 {
      assert JtagPaths.Walk(TEST_LOGIC_RESET, d2.sent) != d2.state;
    }
  }

  /** A transfer marked last has at least one bit to carry the final TMS. */
  predicate Carries(irsize: nat, op: Op) {
    match op
    case Data(len, last) => last ==> len > 0
    case Instruction(last) => last ==> irsize > 0
    case _ => true
  }

  function SizeAfter(irsize: nat, op: Op): nat {
    if op.SetIrSize? then op.size else irsize
  }

  lemma StepKeepsStepIff(d: Driver, op: Op)
    requires InStep(d)
    ensures InStep(Step(d, op)) <==> Carries(d.irsize, op)
    ensures Step(d, op).irsize == SizeAfter(d.irsize, op)
  {
    hide StateWalk, Transfer, JtagPaths.Walk;
    match op
    case Walk(to) => WalkKeepsStep(d, to); KeepsSize(d, to, 0, false);
    case Data(len, last) => TransferKeepsStepIff(d, SHIFT_DR, len, last); KeepsSize(d, SHIFT_DR, len, last);
    case Instruction(last) => TransferKeepsStepIff(d, SHIFT_IR, d.irsize, last); KeepsSize(d, SHIFT_IR, d.irsize, last);
    case SetIrSize(_) =>
    case TargetReset =>
  }

  lemma KeepsSize(d: Driver, to: TapState, len: nat, last: bool)
    requires d.state <= UNKNOWN_STATE
    ensures StateWalk(d, to).irsize == d.irsize && Transfer(d, to, len, last).irsize == d.irsize
  {
    hide ModePath;
  }

  // ---------------------------------------------------------------- whole runs

  predicate CarriesAll(irsize: nat, ops: seq<Op>)
    decreases |ops|
  {
    ops == [] || (Carries(irsize, ops[0]) && CarriesAll(SizeAfter(irsize, ops[0]), ops[1..]))
  }

  function Run(d: Driver, ops: seq<Op>): Driver
    requires d.state <= UNKNOWN_STATE
    decreases |ops|
  {
    if ops == [] then d else Run(Step(d, ops[0]), ops[1..])
  }

  lemma {:induction false} RunKeepsStep(d: Driver, ops: seq<Op>)
    requires InStep(d) && CarriesAll(d.irsize, ops)
    ensures InStep(Run(d, ops))
    decreases |ops|
  {
    hide Step;
    if ops != [] {
      StepKeepsStepIff(d, ops[0]);
      RunKeepsStep(Step(d, ops[0]), ops[1..]);
    }
  }

  /**
   After any sequence of walks, transfers, resets and changes of the instruction size the driver knows the
   controller's state, or knows that it does not.
   */
  lemma DriverNeverMistaken(irsize: nat, ops: seq<Op>, hw: TapState)
    requires CarriesAll(irsize, ops)
    ensures var d := Run(Open(irsize), ops);
            d.state == UNKNOWN_STATE || d.state == JtagPaths.Walk(hw, d.sent)
  {
    hide Run;
    RunKeepsStep(Open(irsize), ops);
  }
}
