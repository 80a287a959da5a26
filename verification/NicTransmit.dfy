/**
 The transmit side of dev/dm9000.c: senders, the transmit interrupt and the restarting receive thread share a
 queue of two packets.
 */
module NicTransmit {
  const ETHERMTU := 1500

  /** The sizes of the four parts of a frame. */
  datatype Frame = Frame(dl: nat, nw: nat, tp: nat, ap: nat)

  function Word(n: nat): nat {
    n % 0x10000
  }

  /** The bytes behind the link header, which the size check is there to limit. */
  function Payload(f: Frame): nat {
    f.nw + f.tp + f.ap
  }

  /** The size check in NicPutPacket, on a 16 bit sum. */
  predicate Oversized(f: Frame) {
    Word(Payload(f)) > ETHERMTU
  }

  function RoundedUp(sz: nat): nat {
    if sz % 2 == 1 then Word(sz + 1) else sz
  }

  /** The length of the transmit request: the 16 bit sum of the parts, rounded up to an even number. */
  function Length(f: Frame): nat {
    RoundedUp(Word(Word(Payload(f)) + f.dl))
  }

  /** The transmitter: idle, busy with a packet, or done with one and not yet acknowledged. */
  datatype Chip = Idle | Sending(len: nat) | Done

  /** Since the last reset: lengths of the packets loaded, transmit requests made, completions acknowledged. */
  datatype Log = Log(loads: seq<nat>, reqs: seq<nat>, acks: nat)

  datatype Nic = Nic(queued: int, quelen: nat, insane: bool, chip: Chip, log: Log)

  /** Writes TXPL low byte, TXPL high byte and the transmit request. */
  function Request(n: Nic, len: nat): Nic
  {
    var txpl := len % 256 + 256 * (len / 256 % 256);
    n.(chip := Sending(txpl), log := n.log.(reqs := n.log.reqs + [txpl]))
  }

  /** The transmitter part of NicInterrupt, entered with PTS set, when the chip has finished a packet. */
  function TxInterrupt(n: Nic): Nic
  {
    var n := n.(chip := Idle, log := n.log.(acks := n.log.acks + 1));
    if n.queued != 0 then
      var n := if n.quelen != 0 then Request(n, n.quelen).(quelen := 0) else n;
      n.(queued := n.queued - 1)
    else n
  }

  /** NicPutPacket with interrupts disabled; a packet is loaded unless the chip is being restarted. */
  function PutPacket(n: Nic, sz: nat): Nic {
    if n.insane then n
    else
      var n := n.(log := n.log.(loads := n.log.loads + [sz]));
      var n := if n.queued == 0 then Request(n, sz) else n.(quelen := sz);
      n.(queued := n.queued + 1)
  }

  // --- One controller ---

  /** The transmit queue describes what the chip has and does. */
  predicate Consistent(n: Nic) {
    0 <= n.queued <= 2 &&
    n.quelen < 0x10000 && (n.quelen != 0 <==> n.queued == 2) &&
    (n.chip != Idle <==> n.queued >= 1) &&
    n.log.loads == n.log.reqs + (if n.quelen != 0 then [n.quelen] else []) &&
    n.queued == |n.log.loads| - n.log.acks &&
    (n.chip.Sending? ==> n.log.reqs != [] && n.chip.len == n.log.reqs[|n.log.reqs| - 1])
  }

  lemma RequestLength(len: nat)
    requires len < 0x10000
    ensures len % 256 + 256 * (len / 256 % 256) == len
  {
  }

  lemma TxInterruptKeeps(n: Nic)
    requires Consistent(n) && n.chip == Done
    ensures Consistent(TxInterrupt(n))
    ensures TxInterrupt(n).queued == n.queued - 1 && TxInterrupt(n).insane == n.insane
  {
    if n.quelen != 0 { RequestLength(n.quelen); }
  }

  /**
   With room in the queue, loading a packet keeps the queue consistent if and only if its length is not zero
   or the chip is free.
   */
  lemma PutPacketKeepsIff(n: Nic, sz: nat)
    requires Consistent(n) && !n.insane && n.queued <= 1 && sz < 0x10000
    ensures Consistent(PutPacket(n, sz)) <==> sz != 0 || n.queued == 0
    ensures PutPacket(n, sz).queued == n.queued + 1
  {
    RequestLength(sz);
    var r := PutPacket(n, sz);
    if n.queued == 1 {
      assert n.log.loads + [sz] == n.log.reqs + [sz];
    } else {
      assert r.log.loads == r.log.reqs + [];
    }
  }

  /** Rounding up to an even number of 16 bits. */
  lemma RoundsUp(n: nat)
    ensures var r := RoundedUp(Word(n));
            r < 0x10000 && r % 2 == 0 && (r == 0 <==> (n + 1) % 0x10000 <= 1)
  {
    assert n == 0x10000 * (n / 0x10000) + Word(n);
  }

  lemma SmallLength(f: Frame)
    requires Payload(f) <= ETHERMTU && f.dl <= 0x10000 - ETHERMTU - 2
    ensures !Oversized(f) && Length(f) == Payload(f) + f.dl + (Payload(f) + f.dl) % 2
  {
    hide Word;
    SmallWord(Payload(f));
    SmallWord(Payload(f) + f.dl);
    SmallWord(Payload(f) + f.dl + 1);
  }

  lemma SmallWord(n: nat)
    requires n < 0x10000
    ensures Word(n) == n
  {
  }

  /** Only a frame whose sizes wrap around or are all zero has length zero. */
  lemma LengthZeroIff(f: Frame)
    ensures Length(f) < 0x10000 && Length(f) % 2 == 0
    ensures !Oversized(f) ==> (Length(f) == 0 <==> (Word(Payload(f)) + f.dl + 1) % 0x10000 <= 1)
    ensures Payload(f) <= ETHERMTU && 0 < f.dl <= 0x10000 - ETHERMTU - 2 ==> !Oversized(f) && Length(f) != 0
  {
    hide Word, RoundedUp, Oversized;
    RoundsUp(Word(Payload(f)) + f.dl);
    if Payload(f) <= ETHERMTU && 0 < f.dl <= 0x10000 - ETHERMTU - 2 { SmallLength(f); }
  }

  function Even(n: nat): nat {
    (n + 1) / 2 * 2
  }

  /** In 16 bit mode every part is written in whole words, as many as its 16 bit size asks for. */
  function Written(f: Frame): nat {
    Even(Word(f.dl)) + Even(Word(f.nw)) + Even(Word(f.tp)) + Even(Word(f.ap))
  }

  /** What the parts hold, as far as NicWrite16 sees it. */
  function Held(f: Frame): nat {
    Word(f.dl) + Word(f.nw) + Word(f.tp) + Word(f.ap)
  }

  lemma EvenIs(n: nat)
    ensures Even(n) == n + n % 2
  {
  }

  lemma WordAdds(a: nat, b: nat)
    ensures Word(Word(a) + b) == Word(a + b)
  {
    assert a == 0x10000 * (a / 0x10000) + Word(a);
    assert Word(a) + b == 0x10000 * ((Word(a) + b) / 0x10000) + Word(Word(a) + b);
  }

  lemma WordParity(n: nat)
    ensures Word(n) % 2 == n % 2
  {
  }

  /** The length is the sum of the parts, rounded up and reduced to 16 bits, however often their sum wraps around. */
  lemma LengthIs(f: Frame)
    ensures Length(f) == Word(Held(f) + Held(f) % 2)
  {
    hide Word;
    var w := Held(f);
    WordAdds(f.nw, f.tp + f.ap);
    WordAdds(f.tp, Word(f.nw) + f.ap);
    WordAdds(f.ap, Word(f.nw) + Word(f.tp));
    assert Word(Payload(f)) == Word(Word(f.nw) + Word(f.tp) + Word(f.ap));
    WordAdds(Word(f.nw) + Word(f.tp) + Word(f.ap), f.dl);
    WordAdds(f.dl, Word(f.nw) + Word(f.tp) + Word(f.ap));
    assert Word(Word(Payload(f)) + f.dl) == Word(w);
    WordParity(w);
    WordAdds(w, 1);
  }

  function OddParts(f: Frame): nat {
    f.dl % 2 + f.nw % 2 + f.tp % 2 + f.ap % 2
  }

  /** The request covers what was written if and only if the sum does not wrap and at most one part is odd. */
  lemma WrittenMatchesIff(f: Frame)
    ensures Written(f) == Length(f) <==> Held(f) < 0xffff && OddParts(f) <= 1
  {
    hide Even, Length, Word;
    EvenIs(Word(f.dl));
    EvenIs(Word(f.nw));
    EvenIs(Word(f.tp));
    EvenIs(Word(f.ap));
    WordParity(f.dl);
    WordParity(f.nw);
    WordParity(f.tp);
    WordParity(f.ap);
    assert Written(f) == Held(f) + OddParts(f);
    ParityOfSum(Word(f.dl) + Word(f.nw), Word(f.tp) + Word(f.ap));
    ParityOfSum(Word(f.dl), Word(f.nw));
    ParityOfSum(Word(f.tp), Word(f.ap));
    LengthIs(f);
    RoundedWord(Held(f));
  }

  lemma RoundedWord(w: nat)
    ensures Word(w + w % 2) < 0xffff
    ensures w < 0xffff ==> Word(w + w % 2) == w + w % 2
  {
  }

  lemma ParityOfSum(a: nat, b: nat)
    ensures (a + b) % 2 == (if a % 2 == b % 2 then 0 else 1)
  {
  }

  // --- Threads ---

  /** Where a sender is in DmOutput: each state is a place where others may run before it goes on. */
  datatype Pc =
    | Top                 // before the test of ni_insane
    | Lock                // waiting for ni_mutex
    | Holding             // owns ni_mutex, before the test of ni_tx_queued
    | Putting             // found room, before NicPutPacket
    | RoomWait            // waiting for ni_tx_rdy with no room
    | PutWait             // in NicPutPacket, waiting for the first of two packets to be sent
    | Unlock(sent: bool)  // before posting ni_mutex
    | Gone(sent: bool)    // returned

  datatype Sender = Sender(frame: Frame, pc: Pc)

  /** The receive thread: at work, in NicStart before and after the chip is reset, and between its three stores. */
  datatype Receiver = Working | Starting | Started | Sane | Emptied

  /** free counts the posts of ni_mutex not yet taken. */
  datatype State = State(nic: Nic, free: nat, senders: map<nat, Sender>, rx: Receiver)

  datatype Event =
    | Arrive(id: nat, frame: Frame)
    | Check(id: nat)
    | Take(id: nat)
    | TakeTimeout(id: nat)
    | Test(id: nat)
    | Put(id: nat)
    | Wake(id: nat)
    | WakeTimeout(id: nat)
    | Post(id: nat)
    | Finish
    | Irq
    | Overflow
    | Restart
    | ResetChip
    | StartFails
    | StartDone
    | ClearQueued
    | ClearQuelen

  function Move(s: State, id: nat, pc: Pc): State
    requires id in s.senders
  {
    s.(senders := s.senders[id := s.senders[id].(pc := pc)])
  }

  /** Whether this sender is at this place and may run: not between the stores of the receive thread. */
  predicate At(s: State, id: nat, pc: Pc) {
    id in s.senders && s.senders[id].pc == pc && !s.rx.Sane? && !s.rx.Emptied?
  }

  /** The first actions after NicPutPacket: it may have to wait, and an unsuccessful sender tries again. */
  function AfterPut(before: Nic, after: Nic): Pc {
    if before.insane then Unlock(false) else if after.queued > 1 then PutWait else Unlock(true)
  }

  function SenderStep(s: State, e: Event): State {
    match e
    case Check(id) => if At(s, id, Top) then Move(s, id, if s.nic.insane then Gone(false) else Lock) else s
    case Take(id) => if At(s, id, Lock) && s.free > 0 then Move(s, id, Holding).(free := s.free - 1) else s
    case TakeTimeout(id) => if At(s, id, Lock) then Move(s, id, Gone(false)) else s
    case Test(id) => if At(s, id, Holding) then Move(s, id, if s.nic.queued > 1 then RoomWait else Putting) else s
    case Put(id) =>
      if At(s, id, Putting) then
        var f := s.senders[id].frame;
        if Oversized(f) then Move(s, id, Unlock(false))
        else
          var nic := PutPacket(s.nic, Length(f));
          Move(s, id, AfterPut(s.nic, nic)).(nic := nic)
      else s
    case Wake(id) =>
      if At(s, id, RoomWait) then Move(s, id, Unlock(false))
      else if At(s, id, PutWait) then Move(s, id, Unlock(true))
      else s
    case WakeTimeout(id) =>
      if At(s, id, RoomWait) then Move(s, id, Gone(false)).(free := s.free + 1)
      else if At(s, id, PutWait) then Move(s, id, Unlock(true))
      else s
    case Post(id) =>
      if At(s, id, Unlock(true)) then Move(s, id, Gone(true)).(free := s.free + 1)
      else if At(s, id, Unlock(false)) then Move(s, id, Top).(free := s.free + 1)
      else s
    case _ => s
  }

  function Step(s: State, e: Event): State
  {
    match e
    case Arrive(id, f) => if id in s.senders then s else s.(senders := s.senders[id := Sender(f, Top)])
    case Finish => if s.nic.chip.Sending? then s.(nic := s.nic.(chip := Done)) else s
    case Irq => if s.nic.chip.Done? then s.(nic := TxInterrupt(s.nic)) else s
    case Overflow => s.(nic := s.nic.(insane := true))
    case Restart => if s.rx.Working? && s.nic.insane then s.(rx := Starting) else s
    case ResetChip =>
      if s.rx.Starting? then s.(rx := Started, nic := s.nic.(chip := Idle, log := Log([], [], 0))) else s
    case StartFails => if s.rx.Started? then s.(rx := Starting) else s
    case StartDone => if s.rx.Started? then s.(rx := Sane, nic := s.nic.(insane := false)) else s
    case ClearQueued => if s.rx.Sane? then s.(rx := Emptied, nic := s.nic.(queued := 0)) else s
    case ClearQuelen => if s.rx.Emptied? then s.(rx := Working, nic := s.nic.(quelen := 0)) else s
    case _ => SenderStep(s, e)
  }

  predicate Owns(pc: Pc) {
    pc.Holding? || pc.Putting? || pc.RoomWait? || pc.PutWait? || pc.Unlock?
  }

  /** At most one sender owns the mutex, and none while it is free; whoever is about to load found room. */
  predicate Exclusive(s: State) {
    s.free <= 1 &&
    (forall i, j :: i in s.senders && j in s.senders && Owns(s.senders[i].pc) && Owns(s.senders[j].pc) ==> i == j) &&
    (s.free == 1 ==> forall i :: i in s.senders ==> !Owns(s.senders[i].pc)) &&
    forall i :: i in s.senders && s.senders[i].pc.Putting? ==> s.nic.queued <= 1
  }

  /** While the chip restarts it is idle, nothing is loaded, and what is left in the counters does not matter. */
  predicate Restarting(s: State) {
    s.nic.chip.Idle? && s.nic.log == Log([], [], 0) && 0 <= s.nic.queued <= 2 && s.nic.quelen < 0x10000 &&
    (s.rx.Started? ==> s.nic.insane) && (s.rx.Emptied? ==> s.nic.queued == 0)
  }

  predicate Inv(s: State) {
    Exclusive(s) && (s.rx.Starting? ==> s.nic.insane) &&
    if s.rx.Working? then Consistent(s.nic)
    else if s.rx.Starting? then Consistent(s.nic) || Restarting(s)
    else Restarting(s)
  }

  /** No sender brings a frame of length zero. */
  predicate NoEmpty(s: State) {
    forall i :: i in s.senders ==> Length(s.senders[i].frame) != 0
  }

  predicate NotEmpty(e: Event) {
    e.Arrive? ==> Length(e.frame) != 0
  }

  lemma MoveKeepsExclusive(s: State, id: nat, pc: Pc, free: nat)
    requires Exclusive(s) && id in s.senders
    requires (if Owns(s.senders[id].pc) then 1 else 0) + s.free == (if Owns(pc) then 1 else 0) + free
    requires pc.Putting? ==> s.nic.queued <= 1
    ensures Exclusive(Move(s, id, pc).(free := free))
  {
  }

  lemma SenderStepKeeps(s: State, e: Event)
    requires Inv(s) && NoEmpty(s)
    ensures Inv(SenderStep(s, e)) && NoEmpty(SenderStep(s, e))
  {
    hide Exclusive, Consistent, Owns, PutPacket, NoEmpty;
    OwnsIs();
    match e {
      case Check(id) =>
        if At(s, id, Top) { MoveKeeps(s, id, if s.nic.insane then Gone(false) else Lock, s.free); }
      case Take(id) =>
        if At(s, id, Lock) && s.free > 0 { MoveKeeps(s, id, Holding, s.free - 1); }
      case TakeTimeout(id) =>
        if At(s, id, Lock) { MoveKeeps(s, id, Gone(false), s.free); }
      case Test(id) =>
        if At(s, id, Holding) { MoveKeeps(s, id, if s.nic.queued > 1 then RoomWait else Putting, s.free); }
      case Put(id) =>
        if At(s, id, Putting) {
          if Oversized(s.senders[id].frame) {
            MoveKeeps(s, id, Unlock(false), s.free);
          } else {
            PutKeeps(s, id);
          }
        }
      case Wake(id) =>
        if At(s, id, RoomWait) { MoveKeeps(s, id, Unlock(false), s.free); }
        else if At(s, id, PutWait) { MoveKeeps(s, id, Unlock(true), s.free); }
      case WakeTimeout(id) =>
        if At(s, id, RoomWait) { MoveKeeps(s, id, Gone(false), s.free + 1); }
        else if At(s, id, PutWait) { MoveKeeps(s, id, Unlock(true), s.free); }
      case Post(id) =>
        if At(s, id, Unlock(true)) { MoveKeeps(s, id, Gone(true), s.free + 1); }
        else if At(s, id, Unlock(false)) { MoveKeeps(s, id, Top, s.free + 1); }
      case _ =>
    }
  }

  lemma OwnsIs()
    ensures forall pc: Pc :: Owns(pc) <==> (pc.Holding? || pc.Putting? || pc.RoomWait? || pc.PutWait? || pc.Unlock?)
  {
  }

  lemma MoveKeeps(s: State, id: nat, pc: Pc, free: nat)
    requires Inv(s) && NoEmpty(s) && id in s.senders
    requires (if Owns(s.senders[id].pc) then 1 else 0) + s.free == (if Owns(pc) then 1 else 0) + free
    requires pc.Putting? ==> s.nic.queued <= 1
    ensures Inv(Move(s, id, pc).(free := free)) && NoEmpty(Move(s, id, pc).(free := free))
  {
    hide Exclusive, Consistent, Owns;
    MoveKeepsExclusive(s, id, pc, free);
  }

  /** The sender that found room loads its frame. */
  lemma PutKeeps(s: State, id: nat)
    requires Inv(s) && NoEmpty(s) && At(s, id, Putting) && !Oversized(s.senders[id].frame)
    ensures Inv(SenderStep(s, Put(id))) && NoEmpty(SenderStep(s, Put(id)))
  {
    hide Exclusive, Consistent;
    var sz := Length(s.senders[id].frame);
    var nic := PutPacket(s.nic, sz);
    var pc := AfterPut(s.nic, nic);
    LoadKeepsExclusive(s, id, pc, nic);
    LengthZeroIff(s.senders[id].frame);
    if !s.nic.insane { PutPacketKeepsIff(s.nic, sz); }
  }

  /** Whoever changes the queue is the only one who counts on it. */
  lemma LoadKeepsExclusive(s: State, id: nat, pc: Pc, nic: Nic)
    requires Exclusive(s) && id in s.senders && s.senders[id].pc == Putting && (pc.PutWait? || pc.Unlock?)
    ensures Exclusive(Move(s, id, pc).(nic := nic))
    ensures s.nic.queued <= 1
  {
  }

  lemma ArriveKeeps(s: State, id: nat, f: Frame)
    requires Inv(s) && NoEmpty(s) && Length(f) != 0
    ensures Inv(Step(s, Arrive(id, f))) && NoEmpty(Step(s, Arrive(id, f)))
  {
    hide Consistent, Length;
  }

  /** Steps that leave the senders alone and do not lengthen the queue. */
  lemma NicKeepsExclusive(s: State, nic: Nic, rx: Receiver)
    requires Exclusive(s) && nic.queued <= s.nic.queued
    ensures Exclusive(s.(nic := nic, rx := rx))
  {
  }

  lemma NicStepKeeps(s: State, e: Event)
    requires Inv(s)
    requires e.Finish? || e.Irq? || e.Overflow? || e.Restart? || e.ResetChip? || e.StartFails? || e.StartDone? ||
             e.ClearQueued? || e.ClearQuelen?
    ensures Inv(Step(s, e)) && Step(s, e).senders == s.senders
  {
    hide Exclusive, SenderStep, PutPacket;
    var r := Step(s, e);
    if e.Irq? && s.nic.chip.Done? { TxInterruptKeeps(s.nic); }
    NicKeepsExclusive(s, r.nic, r.rx);
  }

  lemma StepKeeps(s: State, e: Event)
    requires Inv(s) && NoEmpty(s) && NotEmpty(e)
    ensures Inv(Step(s, e)) && NoEmpty(Step(s, e))
  {
    hide Inv, NoEmpty, SenderStep;
    match e {
      case Arrive(id, f) => ArriveKeeps(s, id, f);
      case Finish => NicStepKeeps(s, e); SameSenders(s, Step(s, e));
      case Irq => NicStepKeeps(s, e); SameSenders(s, Step(s, e));
      case Overflow => NicStepKeeps(s, e); SameSenders(s, Step(s, e));
      case Restart => NicStepKeeps(s, e); SameSenders(s, Step(s, e));
      case ResetChip => NicStepKeeps(s, e); SameSenders(s, Step(s, e));
      case StartFails => NicStepKeeps(s, e); SameSenders(s, Step(s, e));
      case StartDone => NicStepKeeps(s, e); SameSenders(s, Step(s, e));
      case ClearQueued => NicStepKeeps(s, e); SameSenders(s, Step(s, e));
      case ClearQuelen => NicStepKeeps(s, e); SameSenders(s, Step(s, e));
      case _ => SenderStepKeeps(s, e);
    }
  }

  lemma SameSenders(s: State, r: State)
    requires NoEmpty(s) && r.senders == s.senders
    ensures NoEmpty(r)
  {
  }

  /** The state after a run; the events come in any order, and those that do not apply change nothing. */
  function Run(s: State, events: seq<Event>): State
    decreases |events|
  {
    if events == [] then s else Run(Step(s, events[0]), events[1..])
  }

  lemma {:induction false} RunKeeps(s: State, events: seq<Event>)
    requires Inv(s) && NoEmpty(s) && forall e :: e in events ==> NotEmpty(e)
    ensures Inv(Run(s, events)) && NoEmpty(Run(s, events))
    decreases |events|
  {
    hide Inv, NoEmpty, Step, NotEmpty;
    if events != [] {
      assert events[0] in events && forall e :: e in events[1..] ==> e in events;
      StepKeeps(s, events[0]);
      RunKeeps(Step(s, events[0]), events[1..]);
    }
  }

  /** After DmInit and the first successful NicStart. */
  const START := State(Nic(0, 0, false, Idle, Log([], [], 0)), 1, map[], Working)

  /**
   In every interleaving, whenever ni_insane is clear outside the three stores of a restart: the queue holds at
   most two packets, a length is waiting exactly if there are two, the chip is occupied exactly if there is one,
   and since the last reset the k-th request carries the length of the k-th packet.
   */
  lemma QueueIsConsistent(events: seq<Event>)
    requires forall e :: e in events ==> NotEmpty(e)
    ensures Inv(START) && NoEmpty(START)
    ensures var s := Run(START, events);
            !s.nic.insane && !s.rx.Sane? && !s.rx.Emptied? ==>
            0 <= s.nic.queued <= 2 && (s.nic.quelen != 0 <==> s.nic.queued == 2) &&
            (s.nic.chip != Idle <==> s.nic.queued >= 1) &&
            |s.nic.log.reqs| <= |s.nic.log.loads| <= |s.nic.log.reqs| + 1 &&
            forall k :: 0 <= k < |s.nic.log.reqs| ==> s.nic.log.reqs[k] == s.nic.log.loads[k]
  {
    hide Run, Step;
    assert Inv(START) && NoEmpty(START);
    RunKeeps(START, events);
  }

  // --- A packet of length zero ---

  /** A packet of length zero is behind the one in the chip. */
  predicate Doomed(s: State) {
    Exclusive(s) && s.nic.queued == 2 && s.nic.quelen == 0 && (s.nic.chip.Sending? || s.nic.chip.Done?) &&
    (s.rx.Working? || s.rx.Starting?)
  }

  /** The queue is occupied, but the chip has nothing to do. */
  predicate Stuck(s: State) {
    s.nic.queued >= 1 && s.nic.chip.Idle? && (s.rx.Working? || s.rx.Starting?)
  }

  /** Loading the packet of length zero behind another one. */
  lemma EmptyPacketDooms(s: State, id: nat)
    requires Inv(s) && At(s, id, Putting) && !s.nic.insane && s.nic.queued == 1
    requires !Oversized(s.senders[id].frame) && Length(s.senders[id].frame) == 0
    ensures Doomed(Step(s, Put(id))) && Step(s, Put(id)).nic.log.reqs == s.nic.log.reqs
  {
    hide Exclusive;
    LoadKeepsExclusive(s, id, AfterPut(s.nic, PutPacket(s.nic, 0)), PutPacket(s.nic, 0));
  }

  lemma SenderKeepsExclusive(s: State, e: Event)
    requires Exclusive(s) && s.nic.queued == 2
    ensures Exclusive(SenderStep(s, e)) && SenderStep(s, e).nic == s.nic && SenderStep(s, e).rx == s.rx
  {
    hide Exclusive, Owns, Oversized, PutPacket;
    OwnsIs();
    match e {
      case Check(id) =>
        if At(s, id, Top) { MoveKeepsExclusive(s, id, if s.nic.insane then Gone(false) else Lock, s.free); }
      case Take(id) =>
        if At(s, id, Lock) && s.free > 0 { MoveKeepsExclusive(s, id, Holding, s.free - 1); }
      case TakeTimeout(id) =>
        if At(s, id, Lock) { MoveKeepsExclusive(s, id, Gone(false), s.free); }
      case Test(id) =>
        if At(s, id, Holding) { MoveKeepsExclusive(s, id, RoomWait, s.free); }
      case Put(id) =>
        NoRoomToPut(s, id);
      case Wake(id) =>
        if At(s, id, RoomWait) { MoveKeepsExclusive(s, id, Unlock(false), s.free); }
        else if At(s, id, PutWait) { MoveKeepsExclusive(s, id, Unlock(true), s.free); }
      case WakeTimeout(id) =>
        if At(s, id, RoomWait) { MoveKeepsExclusive(s, id, Gone(false), s.free + 1); }
        else if At(s, id, PutWait) { MoveKeepsExclusive(s, id, Unlock(true), s.free); }
      case Post(id) =>
        if At(s, id, Unlock(true)) { MoveKeepsExclusive(s, id, Gone(true), s.free + 1); }
        else if At(s, id, Unlock(false)) { MoveKeepsExclusive(s, id, Top, s.free + 1); }
      case _ =>
    }
  }

  /** With two packets in the queue nobody is about to load a third one. */
  lemma NoRoomToPut(s: State, id: nat)
    requires Exclusive(s) && s.nic.queued == 2
    ensures !At(s, id, Putting)
  {
  }

  lemma ArriveKeepsExclusive(s: State, id: nat, f: Frame)
    requires Exclusive(s)
    ensures Exclusive(Step(s, Arrive(id, f)))
  {
  }

  lemma DoomedSteps(s: State, e: Event)
    requires Doomed(s) && !e.ResetChip?
    ensures Doomed(Step(s, e)) || Stuck(Step(s, e))
    ensures Step(s, e).nic.log.reqs == s.nic.log.reqs
  {
    hide Exclusive, SenderStep;
    var r := Step(s, e);
    if e.Arrive? {
      ArriveKeepsExclusive(s, e.id, e.frame);
    } else if r.senders == s.senders && r.free == s.free && r.nic.queued <= s.nic.queued {
      NicKeepsExclusive(s, r.nic, r.rx);
    }
    SenderKeepsExclusive(s, e);
  }

  lemma StuckSteps(s: State, e: Event)
    requires Stuck(s) && !e.ResetChip?
    ensures Stuck(Step(s, e)) && Step(s, e).nic.log.reqs == s.nic.log.reqs
  {
  }

  /**
   Whatever happens until the chip is reset, nothing is sent any more, not even the packets loaded later; once the
   packet in the chip is done, the chip stays idle while the queue stays occupied.
   */
  lemma {:induction false} EmptyPacketBlocks(s: State, events: seq<Event>)
    requires (Doomed(s) || Stuck(s)) && forall e :: e in events ==> !e.ResetChip?
    ensures Run(s, events).nic.log.reqs == s.nic.log.reqs && Run(s, events).nic.queued >= 1
    ensures Doomed(Run(s, events)) || Stuck(Run(s, events))
    ensures Stuck(s) ==> Stuck(Run(s, events))
    decreases |events|
  {
    hide Step, Exclusive;
    if events != [] {
      assert events[0] in events && forall e :: e in events[1..] ==> e in events;
      if Stuck(s) { StuckSteps(s, events[0]); } else { DoomedSteps(s, events[0]); }
      EmptyPacketBlocks(Step(s, events[0]), events[1..]);
    }
  }

  // --- The loop in DmOutput ---

  lemma NoEvents(s: State)
    ensures Run(s, []) == s
  {
  }

  lemma OneEvent(s: State, e: Event, rest: seq<Event>)
    ensures Run(s, [e] + rest) == Run(Step(s, e), rest)
  {
    hide Step;
    assert ([e] + rest)[1..] == rest;
  }

  lemma {:induction false} RunAppend(s: State, a: seq<Event>, b: seq<Event>)
    ensures Run(s, a + b) == Run(Run(s, a), b)
    decreases |a|
  {
    hide Step;
    if a == [] {
      assert a + b == b;
    } else {
      assert (a + b)[1..] == a[1..] + b;
      RunAppend(Step(s, a[0]), a[1..], b);
    }
  }

  lemma ThreeEvents(s: State, a: Event, b: Event, c: Event)
    ensures Run(s, [a, b, c]) == Step(Step(Step(s, a), b), c)
  {
    hide Run, Step;
    assert [a, b, c] == [a] + [b, c] && [b, c] == [b] + [c];
    OneEvent(s, a, [b, c]);
    OneEvent(Step(s, a), b, [c]);
    assert [c] == [c] + [];
    OneEvent(Step(Step(s, a), b), c, []);
    NoEvents(Step(Step(Step(s, a), b), c));
  }

  lemma SixEvents(s: State, a: Event, b: Event, c: Event, d: Event, e: Event, f: Event)
    ensures Run(s, [a, b, c, d, e, f]) == Step(Step(Step(Step(Step(Step(s, a), b), c), d), e), f)
  {
    hide Run, Step;
    assert [a, b, c, d, e, f] == [a, b, c] + [d, e, f];
    RunAppend(s, [a, b, c], [d, e, f]);
    ThreeEvents(s, a, b, c);
    ThreeEvents(Step(Step(Step(s, a), b), c), d, e, f);
  }

  /** The events of a sender that is not disturbed in its round; it only has to wait if it is the second to load. */
  function Round(id: nat): seq<Event> {
    [Check(id), Take(id), Test(id), Put(id), WakeTimeout(id), Post(id)]
  }

  function Rounds(id: nat, n: nat): seq<Event> {
    if n == 0 then [] else Round(id) + Rounds(id, n - 1)
  }

  lemma StartOfRound(s: State, id: nat)
    requires At(s, id, Top) && !s.nic.insane && s.nic.queued <= 1 && s.free == 1
    ensures Step(Step(Step(s, Check(id)), Take(id)), Test(id)) == Move(s, id, Putting).(free := 0)
  {
    hide Oversized, Length, PutPacket;
    var s1 := Step(s, Check(id));
    assert s1 == Move(s, id, Lock);
    var s2 := Step(s1, Take(id));
    assert s2 == Move(s, id, Holding).(free := 0);
  }

  lemma EndOfRound(s: State, id: nat)
    requires At(s, id, Top) && !s.nic.insane && s.nic.queued <= 1 && s.free == 1
    ensures var f := s.senders[id].frame;
            Step(Step(Step(Move(s, id, Putting).(free := 0), Put(id)), WakeTimeout(id)), Post(id)) ==
            if Oversized(f) then s else Move(s, id, Gone(true)).(nic := PutPacket(s.nic, Length(f)))
  {
    hide Oversized, Length, PutPacket;
    var f := s.senders[id].frame;
    var nic := PutPacket(s.nic, Length(f));
    var s3 := Move(s, id, Putting).(free := 0);
    var s4 := Step(s3, Put(id));
    var s5 := Step(s4, WakeTimeout(id));
    if Oversized(f) {
      assert s5 == Move(s, id, Unlock(false)).(free := 0);
      assert Move(s, id, Top).senders == s.senders;
    } else {
      assert s4 == Move(s, id, AfterPut(s.nic, nic)).(nic := nic, free := 0);
      assert s5 == Move(s, id, Unlock(true)).(nic := nic, free := 0);
    }
  }

  /** A round that finds room and a working chip ends where it began or with the frame loaded. */
  lemma RoundEnds(s: State, id: nat)
    requires At(s, id, Top) && !s.nic.insane && s.nic.queued <= 1 && s.free == 1
    ensures var f := s.senders[id].frame;
            Run(s, Round(id)) ==
            if Oversized(f) then s else Move(s, id, Gone(true)).(nic := PutPacket(s.nic, Length(f)))
  {
    hide Oversized, Length, PutPacket, Run, Step;
    var s3 := Step(Step(Step(s, Check(id)), Take(id)), Test(id));
    StartOfRound(s, id);
    var r := Step(Step(Step(s3, Put(id)), WakeTimeout(id)), Post(id));
    EndOfRound(s, id);
    SixEvents(s, Check(id), Take(id), Test(id), Put(id), WakeTimeout(id), Post(id));
  }

  /**
   With room in the queue and a working chip, a sender is back at the top of its loop after any number of rounds if
   its frame fails the size check, with nothing changed, and has returned success otherwise.
   */
  lemma {:induction false} NeverEndsIff(s: State, id: nat, n: nat)
    requires At(s, id, Top) && !s.nic.insane && s.nic.queued <= 1 && s.free == 1 && n > 0
    ensures var f := s.senders[id].frame;
            Run(s, Rounds(id, n)) ==
            if Oversized(f) then s else Move(s, id, Gone(true)).(nic := PutPacket(s.nic, Length(f)))
    decreases n
  {
    hide Step, Oversized, Length, PutPacket, Run;
    RoundEnds(s, id);
    RunAppend(s, Round(id), Rounds(id, n - 1));
    var r := Run(s, Round(id));
    if n == 1 {
      NoEvents(r);
    } else if Oversized(s.senders[id].frame) {
      NeverEndsIff(s, id, n - 1);
    } else {
      GoneStays(r, id, n - 1);
    }
  }

  lemma GoneStep(s: State, id: nat)
    requires id in s.senders && s.senders[id].pc.Gone?
    ensures Step(s, Check(id)) == Step(s, Take(id)) == Step(s, Test(id)) == s
    ensures Step(s, Put(id)) == Step(s, WakeTimeout(id)) == Step(s, Post(id)) == s
  {
    hide Oversized, PutPacket, Length;
  }

  lemma {:induction false} GoneStays(s: State, id: nat, n: nat)
    requires id in s.senders && s.senders[id].pc.Gone?
    ensures Run(s, Rounds(id, n)) == s
    decreases n
  {
    hide Run, Step;
    if n == 0 {
      NoEvents(s);
    } else {
      RunAppend(s, Round(id), Rounds(id, n - 1));
      GoneStep(s, id);
      SixEvents(s, Check(id), Take(id), Test(id), Put(id), WakeTimeout(id), Post(id));
      GoneStays(s, id, n - 1);
    }
  }

  // --- Frames that the size check refuses ---

  /** What the check refuses: payloads above the limit, but for those that wrap around to one within it. */
  lemma OversizedIff(f: Frame)
    ensures Oversized(f) <==> Payload(f) > ETHERMTU && !(Payload(f) >= 0x10000 && Payload(f) % 0x10000 <= ETHERMTU)
    ensures Payload(f) < 0x10000 ==> (Oversized(f) <==> Payload(f) > ETHERMTU)
  {
  }

  /** Such a frame is never reported as sent. */
  predicate NotSent(s: State, id: nat) {
    id in s.senders && Oversized(s.senders[id].frame) &&
    !s.senders[id].pc.PutWait? && s.senders[id].pc != Unlock(true) && s.senders[id].pc != Gone(true)
  }

  lemma {:induction false} OversizedNotSent(s: State, id: nat, events: seq<Event>)
    requires NotSent(s, id)
    ensures NotSent(Run(s, events), id)
    decreases |events|
  {
    hide Step, Oversized;
    if events != [] {
      NotSentSteps(s, id, events[0]);
      OversizedNotSent(Step(s, events[0]), id, events[1..]);
    }
  }

  lemma NotSentSteps(s: State, id: nat, e: Event)
    requires NotSent(s, id)
    ensures NotSent(Step(s, e), id)
  {
    hide Oversized;
  }

  /** No sender with a frame that is too large is on its way to report success. */
  predicate NoneSent(s: State) {
    forall id :: id in s.senders && Oversized(s.senders[id].frame) ==> NotSent(s, id)
  }

  /** Senders keep their frames, and only an arrival adds one. */
  lemma SendersStep(s: State, e: Event, id: nat)
    requires id in Step(s, e).senders
    ensures id in s.senders ==> Step(s, e).senders[id].frame == s.senders[id].frame
    ensures id !in s.senders ==> Step(s, e).senders[id].pc == Top
  {
    hide Oversized, PutPacket, Length;
  }

  lemma {:induction false} NoneSentRuns(s: State, events: seq<Event>)
    requires NoneSent(s)
    ensures NoneSent(Run(s, events))
    decreases |events|
  {
    hide Step, Oversized;
    if events != [] {
      var r := Step(s, events[0]);
      forall id | id in r.senders && Oversized(r.senders[id].frame) ensures NotSent(r, id) {
        SendersStep(s, events[0], id);
        if id in s.senders { NotSentSteps(s, id, events[0]); }
      }
      NoneSentRuns(r, events[1..]);
    }
  }

  /** The first sender with the chip to itself. */
  lemma FirstRound(id: nat, f: Frame)
    requires !Oversized(f)
    ensures Run(START, [Arrive(id, f)] + Round(id)) ==
            START.(senders := map[id := Sender(f, Gone(true))], nic := PutPacket(START.nic, Length(f)))
  {
    hide Run, Length, PutPacket, Oversized;
    OneEvent(START, Arrive(id, f), Round(id));
    RoundEnds(Step(START, Arrive(id, f)), id);
  }

  /** DmOutput of this sender has returned 0 for this frame. */
  predicate ReportedSent(events: seq<Event>, id: nat, f: Frame) {
    var s := Run(START, events);
    id in s.senders && s.senders[id] == Sender(f, Gone(true))
  }

  /** There is a sequence of events that ends with the frame reported as sent if and only if its 16 bit sum passes. */
  lemma ReportedIff(id: nat, f: Frame)
    ensures (exists events :: ReportedSent(events, id, f)) <==> Payload(f) % 0x10000 <= ETHERMTU
    ensures (exists events :: ReportedSent(events, id, f)) <==> !Oversized(f)
  {
    hide Run, Step, Length, PutPacket;
    forall events ensures ReportedSent(events, id, f) ==> !Oversized(f) {
      NoneSentRuns(START, events);
    }
    if !Oversized(f) {
      FirstRound(id, f);
      assert ReportedSent([Arrive(id, f)] + Round(id), id, f);
    }
  }

  /** Data of 65508 bytes in one datagram: over 64 KiB are written, 14 are requested, and 0 is returned. */
  lemma LargeFrameIsSent()
    ensures var f := Frame(14, 20, 8, 65508);
            Payload(f) == 0x10000 && !Oversized(f) && Length(f) == 14 && Written(f) == 65550 && OddParts(f) == 0 &&
            var s := Run(START, [Arrive(1, f)] + Round(1));
            1 in s.senders && s.senders[1] == Sender(f, Gone(true)) && s.nic.log.loads == [14] && s.nic.log.reqs == [14]
  {
    hide Run;
    FirstRound(1, Frame(14, 20, 8, 65508));
  }

  // --- How an empty frame gets behind another one ---

  const SMALL := Frame(14, 20, 8, 18)
  const EMPTY := Frame(0, 0, 0, 0)

  /** A packet is in the chip, and a second sender has found room for its empty frame. */
  const EMPTY_NEXT := State(Nic(1, 0, false, Sending(60), Log([60], [60], 0)), 0,
                            map[1 := Sender(SMALL, Gone(true)), 2 := Sender(EMPTY, Putting)], Working)

  function EmptyFollows(): seq<Event> {
    [Arrive(1, SMALL)] + Round(1) + ([Arrive(2, EMPTY)] + [Check(2), Take(2), Test(2)])
  }

  lemma SmallLengths()
    ensures !Oversized(SMALL) && Length(SMALL) == 60 && !Oversized(EMPTY) && Length(EMPTY) == 0
  {
    hide Word, Length, Oversized;
    SmallLength(SMALL);
    SmallLength(EMPTY);
  }

  lemma FirstLoads()
    ensures PutPacket(START.nic, 60) == EMPTY_NEXT.nic
  {
    hide Oversized, Length, Run;
    RequestLength(60);
  }

  lemma SecondArrives(s: State)
    requires s == State(EMPTY_NEXT.nic, 1, map[1 := Sender(SMALL, Gone(true))], Working)
    ensures Step(Step(Step(Step(s, Arrive(2, EMPTY)), Check(2)), Take(2)), Test(2)) == EMPTY_NEXT
  {
    hide PutPacket, Length, Oversized;
    var r := Step(s, Arrive(2, EMPTY));
    StartOfRound(r, 2);
    assert Move(r, 2, Putting).senders == EMPTY_NEXT.senders;
  }

  lemma EmptyNextIsReached()
    ensures Run(START, EmptyFollows()) == EMPTY_NEXT
  {
    hide Run, Step, PutPacket, Length, Oversized;
    SmallLengths();
    FirstLoads();
    var s1 := Run(START, [Arrive(1, SMALL)] + Round(1));
    FirstRound(1, SMALL);
    RunAppend(START, [Arrive(1, SMALL)] + Round(1), [Arrive(2, EMPTY)] + [Check(2), Take(2), Test(2)]);
    OneEvent(s1, Arrive(2, EMPTY), [Check(2), Take(2), Test(2)]);
    SecondArrives(s1);
    ThreeEvents(Step(s1, Arrive(2, EMPTY)), Check(2), Take(2), Test(2));
  }

  lemma PuttingKeeps(s: State)
    requires s.nic == Nic(1, 0, false, Sending(60), Log([60], [60], 0)) && s.free == 0 && s.rx == Working
    requires s.senders.Keys == {1, 2} && s.senders[1].pc == Gone(true) && s.senders[2].pc == Putting
    ensures Inv(s)
  {
  }

  lemma EmptyNextIs()
    ensures Inv(EMPTY_NEXT) && At(EMPTY_NEXT, 2, Putting)
  {
    hide Inv, Length, Oversized, PutPacket;
    assert EMPTY_NEXT.senders.Keys == {1, 2};
    PuttingKeeps(EMPTY_NEXT);
  }

  /** A run from the start that ends as EmptyPacketDooms requires, and with the next step doomed. */
  lemma EmptyPacketArrives()
    ensures var s := Run(START, EmptyFollows());
            Inv(s) && At(s, 2, Putting) && s.senders[2].frame == EMPTY && !Oversized(EMPTY) && Length(EMPTY) == 0 &&
            !s.nic.insane && s.nic.queued == 1 && s.nic.log.reqs == [60]
    ensures Doomed(Run(START, EmptyFollows() + [Put(2)]))
  {
    hide Run, Inv, At, Oversized, Length, Doomed, Step, EmptyFollows;
    EmptyNextIsReached();
    EmptyNextIs();
    SmallLengths();
    EmptyPacketDooms(EMPTY_NEXT, 2);
    RunAppend(START, EmptyFollows(), [Put(2)]);
    assert [Put(2)] == [Put(2)] + [];
    OneEvent(EMPTY_NEXT, Put(2), []);
    NoEvents(Step(EMPTY_NEXT, Put(2)));
  }

  // --- The driver's code ---

  /** NICINFO and the registers it drives. */
  class Controller {
    var ni_tx_queued: int
    var ni_tx_quelen: nat
    var ni_insane: bool
    var chip: Chip
    var log: Log

    ghost function Contents(): Nic
      reads this
    {
      Nic(ni_tx_queued, ni_tx_quelen, ni_insane, chip, log)
    }

    constructor ()
      ensures Contents() == START.nic
    {
      ni_tx_queued, ni_tx_quelen, ni_insane := 0, 0, false;
      chip, log := Idle, Log([], [], 0);
    }

    /** Two writes to TXPL and one to TCR. */
    method Transmit(len: nat)
      modifies this`chip, this`log
      ensures Contents() == Request(old(Contents()), len)
    {
      var low := len % 256;
      var high := len / 256 % 256;
      chip := Sending(low + 256 * high);
      log := log.(reqs := log.reqs + [low + 256 * high]);
    }

    /** NicInterrupt: pts is the transmitter's bit of the status, ros that of a receiver overflow. */
    method NicInterrupt(pts: bool, ros: bool)
      requires pts ==> chip == Done
      modifies this
      ensures var n := if pts then TxInterrupt(old(Contents())) else old(Contents());
              Contents() == if ros then n.(insane := true) else n
    {
      if pts {
        chip, log := Idle, log.(acks := log.acks + 1);
        if ni_tx_queued != 0 {
          if ni_tx_quelen != 0 {
            var len := ni_tx_quelen;
            ni_tx_quelen := 0;
            Transmit(len);
          }
          ni_tx_queued := ni_tx_queued - 1;
        }
      }
      if ros {
        ni_insane := true;
      }
    }

    /** NicPutPacket up to the wait for ni_tx_rdy. */
    method NicPutPacket(f: Frame) returns (rc: int)
      modifies this
      ensures Contents() == if Oversized(f) then old(Contents()) else PutPacket(old(Contents()), Length(f))
      ensures rc == if Oversized(f) || old(ni_insane) then -1 else 0
    {
      rc := -1;
      var sz := Word(f.nw + f.tp + f.ap);
      if sz > ETHERMTU {
        return;
      }
      sz := Word(sz + f.dl);
      if sz % 2 == 1 {
        sz := Word(sz + 1);
      }
      if !ni_insane {
        log := log.(loads := log.loads + [sz]);
        if ni_tx_queued == 0 {
          Transmit(sz);
        } else {
          ni_tx_quelen := sz;
        }
        ni_tx_queued := ni_tx_queued + 1;
        rc := 0;
      }
    }
  }
}
