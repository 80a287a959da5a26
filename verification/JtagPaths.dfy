/**
 The TAP driver of dev/jtag_tap.c: the path table against the state machine of IEEE Std 1149.1.
 */
module JtagPaths {
  type TapState = s: nat | s < 16

  const TEST_LOGIC_RESET: TapState := 0
  const RUN_TEST_IDLE: TapState := 1
  const SELECT_DR: TapState := 2
  const CAPTURE_DR: TapState := 3
  const SHIFT_DR: TapState := 4
  const EXIT1_DR: TapState := 5
  const PAUSE_DR: TapState := 6
  const EXIT2_DR: TapState := 7
  const UPDATE_DR: TapState := 8
  const SELECT_IR: TapState := 9
  const CAPTURE_IR: TapState := 10
  const SHIFT_IR: TapState := 11
  const EXIT1_IR: TapState := 12
  const PAUSE_IR: TapState := 13
  const EXIT2_IR: TapState := 14
  const UPDATE_IR: TapState := 15

  /** The controller of section 6.1 of IEEE Std 1149.1-2001: one rising edge of TCK. */
  function Next(s: TapState, tms: bool): TapState {
    match s
    case 0 => if tms then 0 else 1
    case 1 => if tms then 2 else 1
    case 2 => if tms then 9 else 3
    case 3 => if tms then 5 else 4
    case 4 => if tms then 5 else 4
    case 5 => if tms then 8 else 6
    case 6 => if tms then 7 else 6
    case 7 => if tms then 8 else 4
    case 8 => if tms then 2 else 1
    case 9 => if tms then 0 else 10
    case 10 => if tms then 12 else 11
    case 11 => if tms then 12 else 11
    case 12 => if tms then 15 else 13
    case 13 => if tms then 14 else 13
    case 14 => if tms then 15 else 11
    case _ => if tms then 2 else 1
  }

  function Walk(s: TapState, bits: seq<bool>): TapState
    decreases |bits|
  {
    if bits == [] then s else Walk(Next(s, bits[0]), bits[1..])
  }

  /** The low len bits of v, bit 0 first. */
  function Bits(v: nat, len: nat): (r: seq<bool>)
    ensures |r| == len
  {
    if len == 0 then [] else [v % 2 == 1] + Bits(v / 2, len - 1)
  }

  /** One entry of mode_path: the number of clocks and the TMS values, bit 0 first. */
  datatype Path = Path(len: nat, tms: nat)

  // ---------------------------------------------------------------- mode_path, row by row

  function Row0(to: TapState): Path {
    match to
    case 0 => Path(0, 0x00) case 1 => Path(1, 0x00) case 2 => Path(2, 0x02) case 3 => Path(3, 0x02)
    case 4 => Path(4, 0x02) case 5 => Path(4, 0x0a) case 6 => Path(5, 0x0a) case 7 => Path(6, 0x2a)
    case 8 => Path(5, 0x1a) case 9 => Path(3, 0x06) case 10 => Path(4, 0x06) case 11 => Path(5, 0x06)
    case 12 => Path(5, 0x16) case 13 => Path(6, 0x16) case 14 => Path(7, 0x56) case _ => Path(6, 0x36)
  }

  function Row1(to: TapState): Path {
    match to
    case 0 => Path(3, 0x07) case 1 => Path(0, 0x00) case 2 => Path(1, 0x01) case 3 => Path(2, 0x01)
    case 4 => Path(3, 0x01) case 5 => Path(3, 0x05) case 6 => Path(4, 0x05) case 7 => Path(5, 0x15)
    case 8 => Path(4, 0x0d) case 9 => Path(2, 0x03) case 10 => Path(3, 0x03) case 11 => Path(4, 0x03)
    case 12 => Path(4, 0x0b) case 13 => Path(5, 0x0b) case 14 => Path(6, 0x2b) case _ => Path(5, 0x1b)
  }

  function Row2(to: TapState): Path {
    match to
    case 0 => Path(2, 0x03) case 1 => Path(3, 0x03) case 2 => Path(0, 0x00) case 3 => Path(1, 0x00)
    case 4 => Path(2, 0x00) case 5 => Path(2, 0x02) case 6 => Path(3, 0x02) case 7 => Path(4, 0x0a)
    case 8 => Path(3, 0x06) case 9 => Path(1, 0x01) case 10 => Path(2, 0x01) case 11 => Path(3, 0x01)
    case 12 => Path(3, 0x05) case 13 => Path(4, 0x05) case 14 => Path(5, 0x15) case _ => Path(4, 0x0d)
  }

  function Row3(to: TapState): Path {
    match to
    case 0 => Path(5, 0x1f) case 1 => Path(3, 0x03) case 2 => Path(3, 0x07) case 3 => Path(0, 0x00)
    case 4 => Path(1, 0x00) case 5 => Path(1, 0x01) case 6 => Path(2, 0x01) case 7 => Path(3, 0x05)
    case 8 => Path(2, 0x03) case 9 => Path(4, 0x0f) case 10 => Path(5, 0x0f) case 11 => Path(6, 0x0f)
    case 12 => Path(6, 0x2f) case 13 => Path(7, 0x2f) case 14 => Path(8, 0xaf) case _ => Path(7, 0x6f)
  }

  function Row4(to: TapState): Path {
    match to
    case 0 => Path(5, 0x1f) case 1 => Path(3, 0x03) case 2 => Path(3, 0x07) case 3 => Path(4, 0x07)
    case 4 => Path(0, 0x00) case 5 => Path(1, 0x01) case 6 => Path(2, 0x01) case 7 => Path(3, 0x05)
    case 8 => Path(2, 0x03) case 9 => Path(4, 0x0f) case 10 => Path(5, 0x0f) case 11 => Path(6, 0x0f)
    case 12 => Path(6, 0x2f) case 13 => Path(7, 0x2f) case 14 => Path(8, 0xaf) case _ => Path(7, 0x6f)
  }

  function Row5(to: TapState): Path {
    match to
    case 0 => Path(4, 0x0f) case 1 => Path(2, 0x01) case 2 => Path(2, 0x03) case 3 => Path(3, 0x03)
    case 4 => Path(4, 0x03) case 5 => Path(0, 0x00) case 6 => Path(1, 0x00) case 7 => Path(2, 0x02)
    case 8 => Path(1, 0x01) case 9 => Path(3, 0x07) case 10 => Path(4, 0x07) case 11 => Path(5, 0x07)
    case 12 => Path(5, 0x17) case 13 => Path(6, 0x17) case 14 => Path(7, 0x57) case _ => Path(6, 0x37)
  }

  function Row6(to: TapState): Path {
    match to
    case 0 => Path(5, 0x1f) case 1 => Path(3, 0x03) case 2 => Path(3, 0x07) case 3 => Path(4, 0x07)
    case 4 => Path(2, 0x01) case 5 => Path(3, 0x05) case 6 => Path(0, 0x00) case 7 => Path(1, 0x01)
    case 8 => Path(2, 0x03) case 9 => Path(4, 0x0f) case 10 => Path(5, 0x0f) case 11 => Path(6, 0x0f)
    case 12 => Path(6, 0x2f) case 13 => Path(7, 0x2f) case 14 => Path(8, 0xaf) case _ => Path(7, 0x6f)
  }

  function Row7(to: TapState): Path {
    match to
    case 0 => Path(4, 0x0f) case 1 => Path(2, 0x01) case 2 => Path(2, 0x03) case 3 => Path(3, 0x03)
    case 4 => Path(1, 0x00) case 5 => Path(2, 0x02) case 6 => Path(3, 0x02) case 7 => Path(0, 0x00)
    case 8 => Path(1, 0x01) case 9 => Path(3, 0x07) case 10 => Path(4, 0x07) case 11 => Path(5, 0x07)
    case 12 => Path(5, 0x17) case 13 => Path(6, 0x17) case 14 => Path(7, 0x57) case _ => Path(6, 0x37)
  }

  function Row8(to: TapState): Path {
    match to
    case 0 => Path(3, 0x07) case 1 => Path(1, 0x00) case 2 => Path(1, 0x01) case 3 => Path(2, 0x01)
    case 4 => Path(3, 0x01) case 5 => Path(3, 0x05) case 6 => Path(4, 0x05) case 7 => Path(5, 0x15)
    case 8 => Path(0, 0x00) case 9 => Path(2, 0x03) case 10 => Path(3, 0x03) case 11 => Path(4, 0x03)
    case 12 => Path(4, 0x0b) case 13 => Path(5, 0x0b) case 14 => Path(6, 0x2b) case _ => Path(5, 0x1b)
  }

  function Row9(to: TapState): Path {
    match to
    case 0 => Path(1, 0x01) case 1 => Path(2, 0x01) case 2 => Path(3, 0x05) case 3 => Path(4, 0x05)
    case 4 => Path(5, 0x05) case 5 => Path(5, 0x15) case 6 => Path(6, 0x15) case 7 => Path(7, 0x55)
    case 8 => Path(6, 0x35) case 9 => Path(0, 0x00) case 10 => Path(1, 0x00) case 11 => Path(2, 0x00)
    case 12 => Path(2, 0x02) case 13 => Path(3, 0x02) case 14 => Path(4, 0x0a) case _ => Path(3, 0x06)
  }

  function Row10(to: TapState): Path {
    match to
    case 0 => Path(5, 0x1f) case 1 => Path(3, 0x03) case 2 => Path(3, 0x07) case 3 => Path(4, 0x07)
    case 4 => Path(5, 0x07) case 5 => Path(5, 0x17) case 6 => Path(6, 0x17) case 7 => Path(7, 0x57)
    case 8 => Path(6, 0x37) case 9 => Path(4, 0x0f) case 10 => Path(0, 0x00) case 11 => Path(1, 0x00)
    case 12 => Path(1, 0x01) case 13 => Path(2, 0x01) case 14 => Path(3, 0x05) case _ => Path(2, 0x03)
  }

  function Row11(to: TapState): Path {
    match to
    case 0 => Path(5, 0x1f) case 1 => Path(3, 0x03) case 2 => Path(3, 0x07) case 3 => Path(4, 0x07)
    case 4 => Path(5, 0x07) case 5 => Path(5, 0x17) case 6 => Path(6, 0x17) case 7 => Path(7, 0x57)
    case 8 => Path(6, 0x37) case 9 => Path(4, 0x0f) case 10 => Path(5, 0x0f) case 11 => Path(0, 0x00)
    case 12 => Path(1, 0x01) case 13 => Path(2, 0x01) case 14 => Path(3, 0x05) case _ => Path(2, 0x03)
  }

  function Row12(to: TapState): Path {
    match to
    case 0 => Path(4, 0x0f) case 1 => Path(2, 0x01) case 2 => Path(2, 0x03) case 3 => Path(3, 0x03)
    case 4 => Path(4, 0x03) case 5 => Path(4, 0x0b) case 6 => Path(5, 0x0b) case 7 => Path(6, 0x2b)
    case 8 => Path(5, 0x1b) case 9 => Path(3, 0x07) case 10 => Path(4, 0x07) case 11 => Path(5, 0x07)
    case 12 => Path(0, 0x00) case 13 => Path(1, 0x00) case 14 => Path(2, 0x02) case _ => Path(1, 0x01)
  }

  function Row13(to: TapState): Path {
    match to
    case 0 => Path(5, 0x1f) case 1 => Path(3, 0x03) case 2 => Path(3, 0x07) case 3 => Path(4, 0x07)
    case 4 => Path(5, 0x07) case 5 => Path(5, 0x17) case 6 => Path(6, 0x17) case 7 => Path(7, 0x57)
    case 8 => Path(6, 0x37) case 9 => Path(4, 0x0f) case 10 => Path(5, 0x0f) case 11 => Path(2, 0x01)
    case 12 => Path(3, 0x05) case 13 => Path(0, 0x00) case 14 => Path(1, 0x01) case _ => Path(2, 0x03)
  }

  function Row14(to: TapState): Path {
    match to
    case 0 => Path(4, 0x0f) case 1 => Path(2, 0x01) case 2 => Path(2, 0x03) case 3 => Path(3, 0x03)
    case 4 => Path(4, 0x03) case 5 => Path(4, 0x0b) case 6 => Path(5, 0x0b) case 7 => Path(6, 0x2b)
    case 8 => Path(5, 0x1b) case 9 => Path(3, 0x07) case 10 => Path(4, 0x07) case 11 => Path(1, 0x00)
    case 12 => Path(2, 0x02) case 13 => Path(3, 0x02) case 14 => Path(0, 0x00) case _ => Path(1, 0x01)
  }

  function Row15(to: TapState): Path {
    match to
    case 0 => Path(3, 0x07) case 1 => Path(1, 0x00) case 2 => Path(1, 0x01) case 3 => Path(2, 0x01)
    case 4 => Path(3, 0x01) case 5 => Path(3, 0x05) case 6 => Path(4, 0x05) case 7 => Path(5, 0x15)
    case 8 => Path(4, 0x0d) case 9 => Path(2, 0x03) case 10 => Path(3, 0x03) case 11 => Path(4, 0x03)
    case 12 => Path(4, 0x0b) case 13 => Path(5, 0x0b) case 14 => Path(6, 0x2b) case _ => Path(0, 0x00)
  }

  function Row(s: TapState, to: TapState): Path {
    match s
    case 0 => Row0(to)
    case 1 => Row1(to)
    case 2 => Row2(to)
    case 3 => Row3(to)
    case 4 => Row4(to)
    case 5 => Row5(to)
    case 6 => Row6(to)
    case 7 => Row7(to)
    case 8 => Row8(to)
    case 9 => Row9(to)
    case 10 => Row10(to)
    case 11 => Row11(to)
    case 12 => Row12(to)
    case 13 => Row13(to)
    case 14 => Row14(to)
    case _ => Row15(to)
  }

  /** mode_path, indexed as the driver does. */
  function ModePath(idx: nat): Path
    requires idx < 256
  {
    Row(idx / 16, idx % 16)
  }

  // ---------------------------------------------------------------- every entry leads where it should

  lemma {:induction false} WalkConcat(s: TapState, a: seq<bool>, b: seq<bool>)
    ensures Walk(s, a + b) == Walk(Walk(s, a), b)
    decreases |a|
  {
    if a == [] {
      assert a + b == b;
    } else {
      assert (a + b)[1..] == a[1..] + b;
      WalkConcat(Next(s, a[0]), a[1..], b);
    }
  }

  /** The state after the first len clocks of a TMS byte v. */
  function Follow(s: TapState, v: nat, len: nat): TapState {
    var s1 := if len > 0 then Next(s, v % 2 == 1) else s;
    var s2 := if len > 1 then Next(s1, v / 2 % 2 == 1) else s1;
    var s3 := if len > 2 then Next(s2, v / 4 % 2 == 1) else s2;
    var s4 := if len > 3 then Next(s3, v / 8 % 2 == 1) else s3;
    var s5 := if len > 4 then Next(s4, v / 16 % 2 == 1) else s4;
    var s6 := if len > 5 then Next(s5, v / 32 % 2 == 1) else s5;
    var s7 := if len > 6 then Next(s6, v / 64 % 2 == 1) else s6;
    if len > 7 then Next(s7, v / 128 % 2 == 1) else s7
  }

  lemma FollowStep(s: TapState, v: nat, len: nat)
    requires 0 < len <= 8
    ensures Follow(s, v, len) == Follow(Next(s, v % 2 == 1), v / 2, len - 1)
  {
    hide Next;
    assert v / 2 / 2 == v / 4 && v / 2 / 4 == v / 8 && v / 2 / 8 == v / 16;
    assert v / 2 / 16 == v / 32 && v / 2 / 32 == v / 64 && v / 2 / 64 == v / 128;
  }

  lemma {:induction false} FollowIsWalk(s: TapState, v: nat, len: nat)
    requires len <= 8
    ensures Follow(s, v, len) == Walk(s, Bits(v, len))
    decreases len
  {
    hide Next;
    if len > 0 {
      FollowStep(s, v, len);
      FollowIsWalk(Next(s, v % 2 == 1), v / 2, len - 1);
    }
  }

  lemma Row0Leads(to: TapState)
    ensures Row0(to).len <= 8 && Follow(0, Row0(to).tms, Row0(to).len) == to
  {
    match to
    case 0 => assert Follow(0, 0x00, 0) == 0; case 1 => assert Follow(0, 0x00, 1) == 1;
    case 2 => assert Follow(0, 0x02, 2) == 2; case 3 => assert Follow(0, 0x02, 3) == 3;
    case 4 => assert Follow(0, 0x02, 4) == 4; case 5 => assert Follow(0, 0x0a, 4) == 5;
    case 6 => assert Follow(0, 0x0a, 5) == 6; case 7 => assert Follow(0, 0x2a, 6) == 7;
    case 8 => assert Follow(0, 0x1a, 5) == 8; case 9 => assert Follow(0, 0x06, 3) == 9;
    case 10 => assert Follow(0, 0x06, 4) == 10; case 11 => assert Follow(0, 0x06, 5) == 11;
    case 12 => assert Follow(0, 0x16, 5) == 12; case 13 => assert Follow(0, 0x16, 6) == 13;
    case 14 => assert Follow(0, 0x56, 7) == 14; case _ => assert Follow(0, 0x36, 6) == 15;
  }

  lemma Row1Leads(to: TapState)
    ensures Row1(to).len <= 8 && Follow(1, Row1(to).tms, Row1(to).len) == to
  {
    match to
    case 0 => assert Follow(1, 0x07, 3) == 0; case 1 => assert Follow(1, 0x00, 0) == 1;
    case 2 => assert Follow(1, 0x01, 1) == 2; case 3 => assert Follow(1, 0x01, 2) == 3;
    case 4 => assert Follow(1, 0x01, 3) == 4; case 5 => assert Follow(1, 0x05, 3) == 5;
    case 6 => assert Follow(1, 0x05, 4) == 6; case 7 => assert Follow(1, 0x15, 5) == 7;
    case 8 => assert Follow(1, 0x0d, 4) == 8; case 9 => assert Follow(1, 0x03, 2) == 9;
    case 10 => assert Follow(1, 0x03, 3) == 10; case 11 => assert Follow(1, 0x03, 4) == 11;
    case 12 => assert Follow(1, 0x0b, 4) == 12; case 13 => assert Follow(1, 0x0b, 5) == 13;
    case 14 => assert Follow(1, 0x2b, 6) == 14; case _ => assert Follow(1, 0x1b, 5) == 15;
  }

  lemma Row2Leads(to: TapState)
    ensures Row2(to).len <= 8 && Follow(2, Row2(to).tms, Row2(to).len) == to
  {
    match to
    case 0 => assert Follow(2, 0x03, 2) == 0; case 1 => assert Follow(2, 0x03, 3) == 1;
    case 2 => assert Follow(2, 0x00, 0) == 2; case 3 => assert Follow(2, 0x00, 1) == 3;
    case 4 => assert Follow(2, 0x00, 2) == 4; case 5 => assert Follow(2, 0x02, 2) == 5;
    case 6 => assert Follow(2, 0x02, 3) == 6; case 7 => assert Follow(2, 0x0a, 4) == 7;
    case 8 => assert Follow(2, 0x06, 3) == 8; case 9 => assert Follow(2, 0x01, 1) == 9;
    case 10 => assert Follow(2, 0x01, 2) == 10; case 11 => assert Follow(2, 0x01, 3) == 11;
    case 12 => assert Follow(2, 0x05, 3) == 12; case 13 => assert Follow(2, 0x05, 4) == 13;
    case 14 => assert Follow(2, 0x15, 5) == 14; case _ => assert Follow(2, 0x0d, 4) == 15;
  }

  lemma Row3Leads(to: TapState)
    ensures Row3(to).len <= 8 && Follow(3, Row3(to).tms, Row3(to).len) == to
  {
    match to
    case 0 => assert Follow(3, 0x1f, 5) == 0; case 1 => assert Follow(3, 0x03, 3) == 1;
    case 2 => assert Follow(3, 0x07, 3) == 2; case 3 => assert Follow(3, 0x00, 0) == 3;
    case 4 => assert Follow(3, 0x00, 1) == 4; case 5 => assert Follow(3, 0x01, 1) == 5;
    case 6 => assert Follow(3, 0x01, 2) == 6; case 7 => assert Follow(3, 0x05, 3) == 7;
    case 8 => assert Follow(3, 0x03, 2) == 8; case 9 => assert Follow(3, 0x0f, 4) == 9;
    case 10 => assert Follow(3, 0x0f, 5) == 10; case 11 => assert Follow(3, 0x0f, 6) == 11;
    case 12 => assert Follow(3, 0x2f, 6) == 12; case 13 => assert Follow(3, 0x2f, 7) == 13;
    case 14 => assert Follow(3, 0xaf, 8) == 14; case _ => assert Follow(3, 0x6f, 7) == 15;
  }

  lemma Row4Leads(to: TapState)
    ensures Row4(to).len <= 8 && Follow(4, Row4(to).tms, Row4(to).len) == to
  {
    match to
    case 0 => assert Follow(4, 0x1f, 5) == 0; case 1 => assert Follow(4, 0x03, 3) == 1;
    case 2 => assert Follow(4, 0x07, 3) == 2; case 3 => assert Follow(4, 0x07, 4) == 3;
    case 4 => assert Follow(4, 0x00, 0) == 4; case 5 => assert Follow(4, 0x01, 1) == 5;
    case 6 => assert Follow(4, 0x01, 2) == 6; case 7 => assert Follow(4, 0x05, 3) == 7;
    case 8 => assert Follow(4, 0x03, 2) == 8; case 9 => assert Follow(4, 0x0f, 4) == 9;
    case 10 => assert Follow(4, 0x0f, 5) == 10; case 11 => assert Follow(4, 0x0f, 6) == 11;
    case 12 => assert Follow(4, 0x2f, 6) == 12; case 13 => assert Follow(4, 0x2f, 7) == 13;
    case 14 => assert Follow(4, 0xaf, 8) == 14; case _ => assert Follow(4, 0x6f, 7) == 15;
  }

  lemma Row5Leads(to: TapState)
    ensures Row5(to).len <= 8 && Follow(5, Row5(to).tms, Row5(to).len) == to
  {
    match to
    case 0 => assert Follow(5, 0x0f, 4) == 0; case 1 => assert Follow(5, 0x01, 2) == 1;
    case 2 => assert Follow(5, 0x03, 2) == 2; case 3 => assert Follow(5, 0x03, 3) == 3;
    case 4 => assert Follow(5, 0x03, 4) == 4; case 5 => assert Follow(5, 0x00, 0) == 5;
    case 6 => assert Follow(5, 0x00, 1) == 6; case 7 => assert Follow(5, 0x02, 2) == 7;
    case 8 => assert Follow(5, 0x01, 1) == 8; case 9 => assert Follow(5, 0x07, 3) == 9;
    case 10 => assert Follow(5, 0x07, 4) == 10; case 11 => assert Follow(5, 0x07, 5) == 11;
    case 12 => assert Follow(5, 0x17, 5) == 12; case 13 => assert Follow(5, 0x17, 6) == 13;
    case 14 => assert Follow(5, 0x57, 7) == 14; case _ => assert Follow(5, 0x37, 6) == 15;
  }

  lemma Row6Leads(to: TapState)
    ensures Row6(to).len <= 8 && Follow(6, Row6(to).tms, Row6(to).len) == to
  {
    match to
    case 0 => assert Follow(6, 0x1f, 5) == 0; case 1 => assert Follow(6, 0x03, 3) == 1;
    case 2 => assert Follow(6, 0x07, 3) == 2; case 3 => assert Follow(6, 0x07, 4) == 3;
    case 4 => assert Follow(6, 0x01, 2) == 4; case 5 => assert Follow(6, 0x05, 3) == 5;
    case 6 => assert Follow(6, 0x00, 0) == 6; case 7 => assert Follow(6, 0x01, 1) == 7;
    case 8 => assert Follow(6, 0x03, 2) == 8; case 9 => assert Follow(6, 0x0f, 4) == 9;
    case 10 => assert Follow(6, 0x0f, 5) == 10; case 11 => assert Follow(6, 0x0f, 6) == 11;
    case 12 => assert Follow(6, 0x2f, 6) == 12; case 13 => assert Follow(6, 0x2f, 7) == 13;
    case 14 => assert Follow(6, 0xaf, 8) == 14; case _ => assert Follow(6, 0x6f, 7) == 15;
  }

  lemma Row7Leads(to: TapState)
    ensures Row7(to).len <= 8 && Follow(7, Row7(to).tms, Row7(to).len) == to
  {
    match to
    case 0 => assert Follow(7, 0x0f, 4) == 0; case 1 => assert Follow(7, 0x01, 2) == 1;
    case 2 => assert Follow(7, 0x03, 2) == 2; case 3 => assert Follow(7, 0x03, 3) == 3;
    case 4 => assert Follow(7, 0x00, 1) == 4; case 5 => assert Follow(7, 0x02, 2) == 5;
    case 6 => assert Follow(7, 0x02, 3) == 6; case 7 => assert Follow(7, 0x00, 0) == 7;
    case 8 => assert Follow(7, 0x01, 1) == 8; case 9 => assert Follow(7, 0x07, 3) == 9;
    case 10 => assert Follow(7, 0x07, 4) == 10; case 11 => assert Follow(7, 0x07, 5) == 11;
    case 12 => assert Follow(7, 0x17, 5) == 12; case 13 => assert Follow(7, 0x17, 6) == 13;
    case 14 => assert Follow(7, 0x57, 7) == 14; case _ => assert Follow(7, 0x37, 6) == 15;
  }

  lemma Row8Leads(to: TapState)
    ensures Row8(to).len <= 8 && Follow(8, Row8(to).tms, Row8(to).len) == to
  {
    match to
    case 0 => assert Follow(8, 0x07, 3) == 0; case 1 => assert Follow(8, 0x00, 1) == 1;
    case 2 => assert Follow(8, 0x01, 1) == 2; case 3 => assert Follow(8, 0x01, 2) == 3;
    case 4 => assert Follow(8, 0x01, 3) == 4; case 5 => assert Follow(8, 0x05, 3) == 5;
    case 6 => assert Follow(8, 0x05, 4) == 6; case 7 => assert Follow(8, 0x15, 5) == 7;
    case 8 => assert Follow(8, 0x00, 0) == 8; case 9 => assert Follow(8, 0x03, 2) == 9;
    case 10 => assert Follow(8, 0x03, 3) == 10; case 11 => assert Follow(8, 0x03, 4) == 11;
    case 12 => assert Follow(8, 0x0b, 4) == 12; case 13 => assert Follow(8, 0x0b, 5) == 13;
    case 14 => assert Follow(8, 0x2b, 6) == 14; case _ => assert Follow(8, 0x1b, 5) == 15;
  }

  lemma Row9Leads(to: TapState)
    ensures Row9(to).len <= 8 && Follow(9, Row9(to).tms, Row9(to).len) == to
  {
    match to
    case 0 => assert Follow(9, 0x01, 1) == 0; case 1 => assert Follow(9, 0x01, 2) == 1;
    case 2 => assert Follow(9, 0x05, 3) == 2; case 3 => assert Follow(9, 0x05, 4) == 3;
    case 4 => assert Follow(9, 0x05, 5) == 4; case 5 => assert Follow(9, 0x15, 5) == 5;
    case 6 => assert Follow(9, 0x15, 6) == 6; case 7 => assert Follow(9, 0x55, 7) == 7;
    case 8 => assert Follow(9, 0x35, 6) == 8; case 9 => assert Follow(9, 0x00, 0) == 9;
    case 10 => assert Follow(9, 0x00, 1) == 10; case 11 => assert Follow(9, 0x00, 2) == 11;
    case 12 => assert Follow(9, 0x02, 2) == 12; case 13 => assert Follow(9, 0x02, 3) == 13;
    case 14 => assert Follow(9, 0x0a, 4) == 14; case _ => assert Follow(9, 0x06, 3) == 15;
  }

  lemma Row10Leads(to: TapState)
    ensures Row10(to).len <= 8 && Follow(10, Row10(to).tms, Row10(to).len) == to
  {
    match to
    case 0 => assert Follow(10, 0x1f, 5) == 0; case 1 => assert Follow(10, 0x03, 3) == 1;
    case 2 => assert Follow(10, 0x07, 3) == 2; case 3 => assert Follow(10, 0x07, 4) == 3;
    case 4 => assert Follow(10, 0x07, 5) == 4; case 5 => assert Follow(10, 0x17, 5) == 5;
    case 6 => assert Follow(10, 0x17, 6) == 6; case 7 => assert Follow(10, 0x57, 7) == 7;
    case 8 => assert Follow(10, 0x37, 6) == 8; case 9 => assert Follow(10, 0x0f, 4) == 9;
    case 10 => assert Follow(10, 0x00, 0) == 10; case 11 => assert Follow(10, 0x00, 1) == 11;
    case 12 => assert Follow(10, 0x01, 1) == 12; case 13 => assert Follow(10, 0x01, 2) == 13;
    case 14 => assert Follow(10, 0x05, 3) == 14; case _ => assert Follow(10, 0x03, 2) == 15;
  }

  lemma Row11Leads(to: TapState)
    ensures Row11(to).len <= 8 && Follow(11, Row11(to).tms, Row11(to).len) == to
  {
    match to
    case 0 => assert Follow(11, 0x1f, 5) == 0; case 1 => assert Follow(11, 0x03, 3) == 1;
    case 2 => assert Follow(11, 0x07, 3) == 2; case 3 => assert Follow(11, 0x07, 4) == 3;
    case 4 => assert Follow(11, 0x07, 5) == 4; case 5 => assert Follow(11, 0x17, 5) == 5;
    case 6 => assert Follow(11, 0x17, 6) == 6; case 7 => assert Follow(11, 0x57, 7) == 7;
    case 8 => assert Follow(11, 0x37, 6) == 8; case 9 => assert Follow(11, 0x0f, 4) == 9;
    case 10 => assert Follow(11, 0x0f, 5) == 10; case 11 => assert Follow(11, 0x00, 0) == 11;
    case 12 => assert Follow(11, 0x01, 1) == 12; case 13 => assert Follow(11, 0x01, 2) == 13;
    case 14 => assert Follow(11, 0x05, 3) == 14; case _ => assert Follow(11, 0x03, 2) == 15;
  }

  lemma Row12Leads(to: TapState)
    ensures Row12(to).len <= 8 && Follow(12, Row12(to).tms, Row12(to).len) == to
  {
    match to
    case 0 => assert Follow(12, 0x0f, 4) == 0; case 1 => assert Follow(12, 0x01, 2) == 1;
    case 2 => assert Follow(12, 0x03, 2) == 2; case 3 => assert Follow(12, 0x03, 3) == 3;
    case 4 => assert Follow(12, 0x03, 4) == 4; case 5 => assert Follow(12, 0x0b, 4) == 5;
    case 6 => assert Follow(12, 0x0b, 5) == 6; case 7 => assert Follow(12, 0x2b, 6) == 7;
    case 8 => assert Follow(12, 0x1b, 5) == 8; case 9 => assert Follow(12, 0x07, 3) == 9;
    case 10 => assert Follow(12, 0x07, 4) == 10; case 11 => assert Follow(12, 0x07, 5) == 11;
    case 12 => assert Follow(12, 0x00, 0) == 12; case 13 => assert Follow(12, 0x00, 1) == 13;
    case 14 => assert Follow(12, 0x02, 2) == 14; case _ => assert Follow(12, 0x01, 1) == 15;
  }

  lemma Row13Leads(to: TapState)
    ensures Row13(to).len <= 8 && Follow(13, Row13(to).tms, Row13(to).len) == to
  {
    match to
    case 0 => assert Follow(13, 0x1f, 5) == 0; case 1 => assert Follow(13, 0x03, 3) == 1;
    case 2 => assert Follow(13, 0x07, 3) == 2; case 3 => assert Follow(13, 0x07, 4) == 3;
    case 4 => assert Follow(13, 0x07, 5) == 4; case 5 => assert Follow(13, 0x17, 5) == 5;
    case 6 => assert Follow(13, 0x17, 6) == 6; case 7 => assert Follow(13, 0x57, 7) == 7;
    case 8 => assert Follow(13, 0x37, 6) == 8; case 9 => assert Follow(13, 0x0f, 4) == 9;
    case 10 => assert Follow(13, 0x0f, 5) == 10; case 11 => assert Follow(13, 0x01, 2) == 11;
    case 12 => assert Follow(13, 0x05, 3) == 12; case 13 => assert Follow(13, 0x00, 0) == 13;
    case 14 => assert Follow(13, 0x01, 1) == 14; case _ => assert Follow(13, 0x03, 2) == 15;
  }

  lemma Row14Leads(to: TapState)
    ensures Row14(to).len <= 8 && Follow(14, Row14(to).tms, Row14(to).len) == to
  {
    match to
    case 0 => assert Follow(14, 0x0f, 4) == 0; case 1 => assert Follow(14, 0x01, 2) == 1;
    case 2 => assert Follow(14, 0x03, 2) == 2; case 3 => assert Follow(14, 0x03, 3) == 3;
    case 4 => assert Follow(14, 0x03, 4) == 4; case 5 => assert Follow(14, 0x0b, 4) == 5;
    case 6 => assert Follow(14, 0x0b, 5) == 6; case 7 => assert Follow(14, 0x2b, 6) == 7;
    case 8 => assert Follow(14, 0x1b, 5) == 8; case 9 => assert Follow(14, 0x07, 3) == 9;
    case 10 => assert Follow(14, 0x07, 4) == 10; case 11 => assert Follow(14, 0x00, 1) == 11;
    case 12 => assert Follow(14, 0x02, 2) == 12; case 13 => assert Follow(14, 0x02, 3) == 13;
    case 14 => assert Follow(14, 0x00, 0) == 14; case _ => assert Follow(14, 0x01, 1) == 15;
  }

  lemma Row15Leads(to: TapState)
    ensures Row15(to).len <= 8 && Follow(15, Row15(to).tms, Row15(to).len) == to
  {
    match to
    case 0 => assert Follow(15, 0x07, 3) == 0; case 1 => assert Follow(15, 0x00, 1) == 1;
    case 2 => assert Follow(15, 0x01, 1) == 2; case 3 => assert Follow(15, 0x01, 2) == 3;
    case 4 => assert Follow(15, 0x01, 3) == 4; case 5 => assert Follow(15, 0x05, 3) == 5;
    case 6 => assert Follow(15, 0x05, 4) == 6; case 7 => assert Follow(15, 0x15, 5) == 7;
    case 8 => assert Follow(15, 0x0d, 4) == 8; case 9 => assert Follow(15, 0x03, 2) == 9;
    case 10 => assert Follow(15, 0x03, 3) == 10; case 11 => assert Follow(15, 0x03, 4) == 11;
    case 12 => assert Follow(15, 0x0b, 4) == 12; case 13 => assert Follow(15, 0x0b, 5) == 13;
    case 14 => assert Follow(15, 0x2b, 6) == 14; case _ => assert Follow(15, 0x00, 0) == 15;
  }

  lemma RowLeads(s: TapState, to: TapState)
    ensures Row(s, to).len <= 8 && Follow(s, Row(s, to).tms, Row(s, to).len) == to
  {
    hide Follow;
    match s {
      case 0 => Row0Leads(to);
      case 1 => Row1Leads(to);
      case 2 => Row2Leads(to);
      case 3 => Row3Leads(to);
      case 4 => Row4Leads(to);
      case 5 => Row5Leads(to);
      case 6 => Row6Leads(to);
      case 7 => Row7Leads(to);
      case 8 => Row8Leads(to);
      case 9 => Row9Leads(to);
      case 10 => Row10Leads(to);
      case 11 => Row11Leads(to);
      case 12 => Row12Leads(to);
      case 13 => Row13Leads(to);
      case 14 => Row14Leads(to);
      case _ => Row15Leads(to);
    }
  }

  /** From every state, the table's TMS sequence takes the controller to the requested state. */
  lemma PathLeadsTo(s: TapState, to: TapState)
    ensures var p := ModePath(s * 16 + to); p.len <= 8 && Walk(s, Bits(p.tms, p.len)) == to
  {
    hide Row, Follow, Walk;
    var p := ModePath(s * 16 + to);
    assert (s * 16 + to) / 16 == s && (s * 16 + to) % 16 == to;
    RowLeads(s, to);
    FollowIsWalk(s, p.tms, p.len);
  }

  // ---------------------------------------------------------------- and by a shortest route

  /**
   Clocks needed at least.  The table takes more only where a scan that has just ended is
   followed by another of the same register: it goes through Update and Capture, not through Pause.
   */
  function Distance(s: TapState, to: TapState): int {
    Row(s, to).len - Detour(s, to)
  }

  function Detour(s: TapState, to: TapState): nat {
    if s == EXIT1_DR && to == SHIFT_DR then 1
    else if s == EXIT1_IR && to == SHIFT_IR then 2
    else 0
  }

  lemma DistanceStep(s: TapState, tms: bool, to: TapState)
    ensures Distance(s, to) <= Distance(Next(s, tms), to) + 1
  {
    hide Next, Distance;
    if s < SHIFT_DR { FirstRowsStep(s, tms, to); }
    else if s < UPDATE_DR { SecondRowsStep(s, tms, to); }
    else if s < EXIT1_IR { ThirdRowsStep(s, tms, to); }
    else { LastRowsStep(s, tms, to); }
  }

  lemma FirstRowsStep(s: TapState, tms: bool, to: TapState)
    requires s < SHIFT_DR
    ensures Distance(s, to) <= Distance(Next(s, tms), to) + 1
  {
    match s
    case 0 => case 1 => case 2 => case _ =>
  }

  lemma SecondRowsStep(s: TapState, tms: bool, to: TapState)
    requires SHIFT_DR <= s < UPDATE_DR
    ensures Distance(s, to) <= Distance(Next(s, tms), to) + 1
  {
    match s
    case 4 => case 5 => case 6 => case _ =>
  }

  lemma ThirdRowsStep(s: TapState, tms: bool, to: TapState)
    requires UPDATE_DR <= s < EXIT1_IR
    ensures Distance(s, to) <= Distance(Next(s, tms), to) + 1
  {
    match s
    case 8 => case 9 => case 10 => case _ =>
  }

  lemma LastRowsStep(s: TapState, tms: bool, to: TapState)
    requires EXIT1_IR <= s
    ensures Distance(s, to) <= Distance(Next(s, tms), to) + 1
  {
    match s
    case 12 => case 13 => case 14 => case _ =>
  }

  /** No TMS sequence that reaches a state is shorter than its distance. */
  lemma {:induction false} NoShorterWalk(s: TapState, bits: seq<bool>)
    ensures Distance(s, Walk(s, bits)) <= |bits|
    decreases |bits|
  {
    hide Next, Distance;
    if bits == [] {
      AtDistanceZero(s);
    } else {
      NoShorterWalk(Next(s, bits[0]), bits[1..]);
      DistanceStep(s, bits[0], Walk(s, bits));
    }
  }

  lemma AtDistanceZero(s: TapState)
    ensures Distance(s, s) == 0
  {
  }

  /** Every entry of the table is a shortest way to its target, except the two that start a new scan. */
  lemma PathIsShortest(s: TapState, to: TapState, bits: seq<bool>)
    requires Walk(s, bits) == to
    ensures ModePath(s * 16 + to).len <= |bits| + Detour(s, to)
  {
    hide Next, Walk, Row;
    assert (s * 16 + to) / 16 == s && (s * 16 + to) % 16 == to;
    NoShorterWalk(s, bits);
  }

  /** In those two cases a shorter way exists, through Pause; the table's way passes Update and Capture. */
  lemma RescanTakesDetour()
    ensures Walk(EXIT1_DR, [false, true, false]) == SHIFT_DR && Walk(EXIT1_IR, [false, true, false]) == SHIFT_IR
    ensures ModePath(EXIT1_DR * 16 + SHIFT_DR).len == 4 && ModePath(EXIT1_IR * 16 + SHIFT_IR).len == 5
    ensures Walk(EXIT1_DR, Bits(ModePath(EXIT1_DR * 16 + SHIFT_DR).tms, 1)) == UPDATE_DR
    ensures Walk(EXIT1_IR, Bits(ModePath(EXIT1_IR * 16 + SHIFT_IR).tms, 1)) == UPDATE_IR
  {
    assert [false, true, false][1..] == [true, false] && [true, false][1..] == [false] && [false][1..] == [];
    assert Bits(0x03, 1) == [true] && Bits(0x03, 1)[1..] == [];
  }
}
