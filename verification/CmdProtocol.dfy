/** The command-queue handshake of kext/mlx5_cmd.cpp as an interleaved step
    system: one driver thread inside mlx5_cmd_exec and the firmware, which both
    read and write the ring entries and the mailboxes. */
module CmdProtocol {
  import opened Words
  import opened Wrappers

  const MAILBOX_SIZE := 4096
  const MAX_POLLS := 60000 / 10
  const UID_DRIVER: u16 := 0

  // ---------------------------------------------------------------- data

  /** The arguments of one mlx5_cmd_exec call. `input` is empty for a null or
      zero-length buffer. */
  datatype Call = Call(opcode: u16, opMod: u16, input: seq<u8>, outLen: u32)

  /** mlx5_cmd_prot_block; multi-byte fields hold the swapped values stored in memory. */
  datatype Entry = Entry(status: u8, inPtr: u64, inLen: u32, outPtr: u64, outLen: u32, token: u32, signature: u8)

  /** What the firmware reads when it takes a ring entry. `outBox` is the mailbox
      that the output pointer resolves to. */
  datatype Command = Command(token: u32, inLen: u32, mailbox: seq<u8>, outBox: nat, outLen: u32)

  /** Firmware activity: `resp` is the response it has written so far for `cmd`. */
  datatype Firmware = FwIdle | FwBusy(slot: nat, cmd: Command, resp: seq<u8>)

  /** One command answered by the firmware. */
  datatype Served = Served(cmd: Command, delivery: nat, resp: seq<u8>)

  datatype Outcome =
    | Timeout
    | DeliveryError(delivery: nat)
    | FirmwareError(status: u8)
    | Success(output: seq<u8>)

  /** One finished call: `seen` tells whether a poll saw the owner flip. */
  datatype Done = Done(call: Call, token: u8, seen: bool, outcome: Outcome)

  /** The next statement of mlx5_cmd_exec; Ready is outside any call. */
  datatype Pc =
    | Ready | ClearIn | ClearOut | Header | Payload | FillEntry | HandOver
    | Doorbell | Poll | Delivery | Reread | Response

  /** The driver's own variables: the command context and the locals of the current call. */
  datatype Driver = Driver(
    nextToken: u8, total: u32, failed: u32, doorbell: u32,
    pc: Pc, call: Call, token: u8, polls: nat, seen: bool, delivery: nat,
    done: seq<Done>)

  /** `ring` and `mail` are shared; `served` is the firmware's record of answered commands.
      `dma` is the driver's idea of the pool's bus address, `bus` the one at which the
      device reaches the pool, if any. */
  datatype State = State(
    ring: seq<Entry>, mail: seq<seq<u8>>, dma: u64, bus: Option<u64>,
    fw: Firmware, served: seq<Served>, drv: Driver)

  datatype FwAction = Take(slot: nat) | Write(pos: nat, val: u8) | Flip(delivery: nat)

  datatype Step = Begin(call: Call) | Drive | Device(action: FwAction)

  // ---------------------------------------------------------------- memory layout

  const INIT_ENTRY := Entry(0, 0, 0, 0, 0, 0xFFFF_FFFF, 0)

  predicate HwOwned(e: Entry) { e.status % 2 == 1 }

  /** Bus address of mailbox `box`. */
  function MailboxDma(dma: u64, box: nat): u64 { (dma + box * MAILBOX_SIZE) % TWO_64 }

  function TruncU8(x: nat): u8 { x % 0x100 }

  function IncU32(x: u32): u32 { (x + 1) % TWO_32 }

  /** Advance of the 8-bit token counter, skipping zero. */
  function NextToken(t: u8): u8 {
    var u := TruncU8(t + 1);
    if u == 0 then TruncU8(u + 1) else u
  }

  function Clamp(n: nat, limit: nat): nat { if n > limit then limit else n }

  function FillHeader(m: seq<u8>, c: Call): (r: seq<u8>)
    requires |m| == MAILBOX_SIZE
    ensures |r| == MAILBOX_SIZE
  {
    var m1 := Put(m, 0, LeBytes(Swap16(c.opcode), 2));
    var m2 := Put(m1, 2, LeBytes(Swap16(UID_DRIVER), 2));
    Put(m2, 6, LeBytes(Swap16(c.opMod), 2))
  }

  function CopyPayload(m: seq<u8>, c: Call): (r: seq<u8>)
    requires |m| == MAILBOX_SIZE
    ensures |r| == MAILBOX_SIZE
  {
    Put(m, 16, c.input[..Clamp(|c.input|, MAILBOX_SIZE - 16)])
  }

  function FillRingEntry(e: Entry, dma: u64, c: Call, token: u8): Entry {
    e.(inPtr := Swap64(MailboxDma(dma, 0)),
       inLen := Swap32(MAILBOX_SIZE),
       outPtr := Swap64(MailboxDma(dma, 1)),
       outLen := Swap32(if c.outLen > 0 then c.outLen else MAILBOX_SIZE),
       token := Swap32(token),
       signature := 0)
  }

  /** The bytes copied back to the caller: the mailbox from byte 8 on, clamped. */
  function CopyOut(m: seq<u8>, outLen: u32): seq<u8>
    requires |m| == MAILBOX_SIZE
  {
    m[8..8 + Clamp(outLen, MAILBOX_SIZE - 8)]
  }

  // ---------------------------------------------------------------- states

  ghost predicate Shape(s: State) {
    && |s.ring| >= 1
    && |s.mail| == 2 * |s.ring|
    && Boxes(s.mail)
    && (s.fw.FwBusy? ==> s.fw.slot < |s.ring| && s.fw.cmd.outBox < |s.mail| && |s.fw.resp| == MAILBOX_SIZE)
  }

  /** The state mlx5_cmd_init leaves behind: all entries software-owned. Without a bus
      mapping of the pool the driver uses address 0. */
  function StartState(entries: nat, bus: Option<u64>): (s: State)
    requires entries >= 1
    ensures Shape(s)
  {
    State(seq(entries, i => INIT_ENTRY), seq(2 * entries, i => Zeros(MAILBOX_SIZE)),
          if bus.Some? then bus.value else 0, bus, FwIdle, [],
          Driver(0, 0, 0, 0xFFFF_FFFF, Ready, Call(0, 0, [], 0), 0, 0, false, 0, []))
  }

  /** The start with a mapped pool. */
  function InitState(entries: nat, dma: u64): (s: State)
    requires entries >= 1
    ensures Shape(s)
  {
    StartState(entries, Some(dma))
  }

  // ---------------------------------------------------------------- driver steps

  function BeginCall(s: State, c: Call): State {
    if s.drv.pc != Ready then s
    else
      var t := NextToken(s.drv.nextToken);
      s.(drv := s.drv.(nextToken := t, token := t, call := c, pc := ClearIn, polls := 0, seen := false, delivery := 0))
  }

  function Finish(v: Driver, o: Outcome): Driver {
    v.(pc := Ready,
       failed := if o.Success? then v.failed else IncU32(v.failed),
       done := v.done + [Done(v.call, v.token, v.seen, o)])
  }

  predicate Boxes(mail: seq<seq<u8>>) {
    forall i :: 0 <= i < |mail| ==> |mail[i]| == MAILBOX_SIZE
  }

  /** Mailbox writes of the filling statements. */
  function FillMail(mail: seq<seq<u8>>, v: Driver): (r: seq<seq<u8>>)
    requires |mail| >= 2 && Boxes(mail)
    ensures |r| == |mail| && Boxes(r)
  {
    match v.pc
    case ClearIn => mail[0 := Zeros(MAILBOX_SIZE)]
    case ClearOut => mail[1 := Zeros(MAILBOX_SIZE)]
    case Header => mail[0 := FillHeader(mail[0], v.call)]
    case Payload => mail[0 := CopyPayload(mail[0], v.call)]
    case _ => mail
  }

  /** Ring-entry writes of the filling statements. */
  function FillRing(ring: seq<Entry>, dma: u64, v: Driver): (r: seq<Entry>)
    requires |ring| >= 1
    ensures |r| == |ring|
  {
    match v.pc
    case FillEntry => ring[0 := FillRingEntry(ring[0], dma, v.call, v.token)]
    case HandOver => ring[0 := ring[0].(status := 1)]
    case _ => ring
  }

  function FillNext(v: Driver): (r: Driver)
    ensures r == v.(pc := r.pc, doorbell := r.doorbell)
    ensures v.pc != Ready && !Waiting(v.pc) ==> Remaining(r) < Remaining(v)
  {
    match v.pc
    case ClearIn => v.(pc := ClearOut)
    case ClearOut => v.(pc := Header)
    case Header => v.(pc := Payload)
    case Payload => v.(pc := FillEntry)
    case FillEntry => v.(pc := HandOver)
    case HandOver => v.(pc := Doorbell)
    case Doorbell => v.(doorbell := Swap32(1), pc := Poll)
    case _ => v
  }

  /** The statements after the doorbell: they read entry 0 and mailbox 1 only. */
  function WaitStep(v: Driver, e: Entry, out: seq<u8>): (r: Driver)
    requires |out| == MAILBOX_SIZE
    ensures r == v.(pc := r.pc, polls := r.polls, seen := r.seen, delivery := r.delivery,
                    total := r.total, failed := r.failed, done := r.done)
    ensures Waiting(v.pc) ==> Remaining(r) < Remaining(v)
  {
    match v.pc
    case Poll =>
      if !HwOwned(e) then v.(pc := Delivery)
      else v.(polls := v.polls + 1, pc := if v.polls + 1 < MAX_POLLS then Poll else Reread)
    case Delivery => v.(delivery := (e.status / 2) % 0x80, seen := true, pc := Reread)
    case Reread =>
      if HwOwned(e) then Finish(v, Timeout)
      else if v.delivery != 0 then Finish(v.(total := IncU32(v.total)), DeliveryError(v.delivery))
      else v.(total := IncU32(v.total), pc := Response)
    case Response =>
      if out[0] != 0 then Finish(v, FirmwareError(out[0])) else Finish(v, Success(CopyOut(out, v.call.outLen)))
    case _ => v
  }

  predicate Waiting(pc: Pc) { pc == Poll || pc == Delivery || pc == Reread || pc == Response }

  function DriverStep(s: State): (r: State)
    requires Shape(s)
    ensures Shape(r)
    ensures r == s.(ring := r.ring, mail := r.mail, drv := r.drv) && |r.ring| == |s.ring|
    ensures Waiting(s.drv.pc) ==> r == s.(drv := r.drv)
    ensures s.drv.pc != Ready ==> Remaining(r.drv) < Remaining(s.drv)
  {
    if Waiting(s.drv.pc) then s.(drv := WaitStep(s.drv, s.ring[0], s.mail[1]))
    else s.(ring := FillRing(s.ring, s.dma, s.drv), mail := FillMail(s.mail, s.drv), drv := FillNext(s.drv))
  }

  // ---------------------------------------------------------------- firmware steps

  /** The mailbox index a stored DMA pointer refers to, if it is the start of one. */
  function Resolve(s: State, ptr: u64): (box: nat)
  {
    if s.bus.None? then |s.mail|
    else
      var off := (Swap64(ptr) - s.bus.value) % TWO_64;
      if off % MAILBOX_SIZE == 0 && off / MAILBOX_SIZE < |s.mail| then off / MAILBOX_SIZE else |s.mail|
  }

  /** The firmware may take any hardware-owned entry whose pointers resolve, then
      write response bytes, then flip the owner bit. It does not look at the owner
      bit again after taking. A step that is not enabled changes nothing. */
  function FwStep(s: State, a: FwAction): (r: State)
    requires Shape(s)
    ensures Shape(r)
    ensures r.drv == s.drv && r.dma == s.dma && r.bus == s.bus && |r.ring| == |s.ring|
  {
    match a
    case Take(i) =>
      if s.fw.FwIdle? && i < |s.ring| && HwOwned(s.ring[i]) then
        var e := s.ring[i];
        var inBox, outBox := Resolve(s, e.inPtr), Resolve(s, e.outPtr);
        if inBox < |s.mail| && outBox < |s.mail| then
          var cmd := Command(Swap32(e.token), Swap32(e.inLen), s.mail[inBox], outBox, Swap32(e.outLen));
          s.(fw := FwBusy(i, cmd, Zeros(MAILBOX_SIZE)))
        else s
      else s
    case Write(pos, val) =>
      if s.fw.FwBusy? && pos < MAILBOX_SIZE then
        var box := s.fw.cmd.outBox;
        s.(mail := s.mail[box := SetByte(s.mail[box], pos, val)], fw := s.fw.(resp := SetByte(s.fw.resp, pos, val)))
      else s
    case Flip(d) =>
      if s.fw.FwBusy? && d < 0x80 then
        var i := s.fw.slot;
        s.(ring := s.ring[i := s.ring[i].(status := 2 * d)],
           served := s.served + [Served(s.fw.cmd, d, s.fw.resp)],
           fw := FwIdle)
      else s
  }

  function FwRun(s: State, actions: seq<FwAction>): (r: State)
    requires Shape(s)
    ensures Shape(r)
    ensures r.drv == s.drv && r.dma == s.dma && r.bus == s.bus && |r.ring| == |s.ring|
    decreases |actions|
  {
    if actions == [] then s else FwRun(FwStep(s, actions[0]), actions[1..])
  }

  // ---------------------------------------------------------------- runs

  function Apply(s: State, step: Step): (r: State)
    requires Shape(s)
    ensures Shape(r)
  {
    match step
    case Begin(c) => BeginCall(s, c)
    case Drive => DriverStep(s)
    case Device(a) => FwStep(s, a)
  }

  /** Any interleaving of driver and firmware steps, over any number of calls. */
  function Run(s: State, steps: seq<Step>): (r: State)
    requires Shape(s)
    ensures Shape(r)
  {
    if steps == [] then s else Apply(Run(s, steps[..|steps| - 1]), steps[|steps| - 1])
  }

  /** A schedule says what the firmware does just before each driver statement of a call. */
  type Schedule = nat -> seq<FwAction>

  /** Driver statements left in the current call, at most. */
  function Remaining(v: Driver): nat {
    match v.pc
    case Ready => 0
    case Response => 1
    case Reread => 2
    case Delivery => 3
    case Poll => 4 + (if v.polls < MAX_POLLS then MAX_POLLS - v.polls else 0)
    case Doorbell => 5 + MAX_POLLS
    case HandOver => 6 + MAX_POLLS
    case FillEntry => 7 + MAX_POLLS
    case Payload => 8 + MAX_POLLS
    case Header => 9 + MAX_POLLS
    case ClearOut => 10 + MAX_POLLS
    case ClearIn => 11 + MAX_POLLS
  }

  /** One driver statement, preceded by what the firmware does just before it. */
  function Advance(s: State, actions: seq<FwAction>): (r: State)
    requires Shape(s)
    ensures Shape(r)
    ensures s.drv.pc != Ready ==> Remaining(r.drv) < Remaining(s.drv)
  {
    DriverStep(FwRun(s, actions))
  }

  /** The rest of the current call under a schedule; `k` counts driver statements. */
  function Execute(s: State, sched: Schedule, k: nat): (r: State)
    requires Shape(s)
    ensures Shape(r) && r.drv.pc == Ready
    decreases Remaining(s.drv)
  {
    if s.drv.pc == Ready then s else Execute(Advance(s, sched(k)), sched, k + 1)
  }

  /** A whole call, with what the firmware does before it starts. */
  function ExecuteCall(s: State, c: Call, sched: Schedule): (r: State)
    requires Shape(s) && s.drv.pc == Ready
    ensures Shape(r) && r.drv.pc == Ready
  {
    Execute(BeginCall(FwRun(s, sched(0)), c), sched, 1)
  }

  // ---------------------------------------------------------------- the atomic specification

  /** The input mailbox of call `c` as the protocol defines it, field by field. */
  function WireMailbox(c: Call): (m: seq<u8>)
    ensures |m| == MAILBOX_SIZE
  {
    var payload := c.input[..Clamp(|c.input|, MAILBOX_SIZE - 16)];
    BeBytes(c.opcode, 2) + BeBytes(UID_DRIVER, 2) + Zeros(2) + BeBytes(c.opMod, 2) + Zeros(8)
    + payload + Zeros(MAILBOX_SIZE - 16 - |payload|)
  }

  /** The command the firmware must see for call `c` under token `t`. */
  function Wire(c: Call, t: u8): Command {
    Command(t, MAILBOX_SIZE, WireMailbox(c), 1, if c.outLen > 0 then c.outLen else MAILBOX_SIZE)
  }

  /** What a call must return when the firmware answers it with `delivery` and `resp`. */
  function Classify(c: Call, delivery: nat, resp: seq<u8>): Outcome
    requires |resp| == MAILBOX_SIZE
  {
    if delivery != 0 then DeliveryError(delivery)
    else if resp[0] != 0 then FirmwareError(resp[0])
    else Success(CopyOut(resp, c.outLen))
  }
}
