/** Safety and refinement of the command-queue handshake. */
module CmdRefinement {
  import opened Words
  import opened Wrappers
  import opened CmdProtocol

  // ---------------------------------------------------------------- filling the slot

  predicate Filling(pc: Pc) {
    pc == ClearIn || pc == ClearOut || pc == Header || pc == Payload || pc == FillEntry || pc == HandOver
  }

  /** The header stores leave big-endian words. */
  lemma HeaderWords(m: seq<u8>, c: Call)
    requires |m| == MAILBOX_SIZE
    ensures FillHeader(m, c) ==
            Put(Put(Put(m, 0, BeBytes(c.opcode, 2)), 2, BeBytes(UID_DRIVER, 2)), 6, BeBytes(c.opMod, 2))
  {
    hide BeBytes, LeBytes, Put;
    StoreSwapped(c.opcode, 2);
    StoreSwapped(UID_DRIVER, 2);
    StoreSwapped(c.opMod, 2);
  }

  /** The filled input mailbox is the one the protocol defines. */
  lemma FilledMailbox(c: Call)
    ensures CopyPayload(FillHeader(Zeros(MAILBOX_SIZE), c), c) == WireMailbox(c)
  {
    hide BeBytes, LeBytes, Swap16, FillHeader;
    var z := Zeros(MAILBOX_SIZE);
    HeaderWords(z, c);
    var a, u, b := BeBytes(c.opcode, 2), BeBytes(UID_DRIVER, 2), BeBytes(c.opMod, 2);
    var m1 := Put(z, 0, a);
    var m2 := Put(m1, 2, u);
    var m3 := Put(m2, 6, b);
    assert m3 == FillHeader(z, c);
    assert m1 == a + Zeros(4094);
    assert m2 == a + u + Zeros(4092);
    assert m3 == a + u + Zeros(2) + b + Zeros(4088);
  }

  /** The fields of the defined mailbox as a big-endian reader sees them. */
  lemma WireFields(c: Call)
    ensures var m := WireMailbox(c);
            var n := if |c.input| > 4080 then 4080 else |c.input|;
            && BeValue(m[0..2]) == c.opcode
            && m[2..6] == Zeros(4)
            && BeValue(m[6..8]) == c.opMod
            && m[8..16] == Zeros(8)
            && m[16..16 + n] == c.input[..n]
            && |m| == 4096 && m[16 + n..] == Zeros(4080 - n)
  {
    hide BeBytes, BeValue, Pow256;
    var m := WireMailbox(c);
    assert m[0..2] == BeBytes(c.opcode, 2);
    assert m[2..6] == Zeros(4) by {
      TwoZeros();
      assert m[2..4] == BeBytes(UID_DRIVER, 2);
      assert m[2..6] == m[2..4] + m[4..6];
    }
    assert m[6..8] == BeBytes(c.opMod, 2);
    TwoBytes(c.opcode);
    TwoBytes(c.opMod);
  }

  /** The stored ring entry as a big-endian reader sees it: both mailboxes of slot 0, the
      input length, the caller's output length or 4096, the token, no signature, and the
      status untouched. */
  lemma EntryFields(e: Entry, dma: u64, c: Call, token: u8)
    ensures var r := FillRingEntry(e, dma, c, token);
            && BeValue(LeBytes(r.inPtr, 8)) == dma && BeValue(LeBytes(r.inLen, 4)) == 4096
            && BeValue(LeBytes(r.outPtr, 8)) == (dma + 4096) % TWO_64
            && BeValue(LeBytes(r.outLen, 4)) == (if c.outLen == 0 then 4096 else c.outLen)
            && BeValue(LeBytes(r.token, 4)) == token
            && r.signature == 0 && r.status == e.status
  {
    hide BeValue, LeBytes, Swap64, Swap32;
    Be64Reads(MailboxDma(dma, 0));
    Be64Reads(MailboxDma(dma, 1));
    Be32Reads(MAILBOX_SIZE);
    Be32Reads(if c.outLen > 0 then c.outLen else MAILBOX_SIZE);
    Be32Reads(token);
  }

  /** What the firmware sees of a call, and what the caller gets for its answer, byte by
      byte: the response from byte 8 on, clamped. */
  lemma AnswerInFull(c: Call, t: u8, sv: Served, o: Outcome)
    requires sv.cmd == Wire(c, t) && |sv.resp| == MAILBOX_SIZE && o == Classify(c, sv.delivery, sv.resp)
    ensures InFull(c, t, sv, o)
  {
    hide BeValue, WireMailbox;
    WireFields(c);
  }

  ghost predicate InFull(c: Call, t: u8, sv: Served, o: Outcome) {
    var n := if |c.input| > 4080 then 4080 else |c.input|;
    && |sv.resp| == 4096 && |sv.cmd.mailbox| == 4096
    && sv.cmd.token == t && sv.cmd.inLen == 4096 && sv.cmd.outLen == (if c.outLen == 0 then 4096 else c.outLen)
    && BeValue(sv.cmd.mailbox[0..2]) == c.opcode && BeValue(sv.cmd.mailbox[6..8]) == c.opMod
    && sv.cmd.mailbox[16..16 + n] == c.input[..n]
    && (sv.delivery != 0 ==> o == DeliveryError(sv.delivery))
    && (sv.delivery == 0 && sv.resp[0] != 0 ==> o == FirmwareError(sv.resp[0]))
    && (sv.delivery == 0 && sv.resp[0] == 0 ==>
         && o.Success? && |o.output| == (if c.outLen > 4088 then 4088 else c.outLen)
         && forall i :: 0 <= i < |o.output| ==> o.output[i] == sv.resp[8 + i])
  }

  lemma TwoZeros()
    ensures BeBytes(UID_DRIVER, 2) == Zeros(2)
  {
  }

  lemma TwoBytes(v: u16)
    ensures BeValue(BeBytes(v, 2)) == v
  {
    assert Pow256(2) == 0x1_0000;
    BeRoundTrip(v, 2);
  }

  lemma OffsetFromBase(base: u64, x: int)
    requires 0 <= x < TWO_64
    ensures ((base + x) % TWO_64 - base) % TWO_64 == x
  {
    if base + x < TWO_64 {
      assert (base + x) % TWO_64 == base + x;
    } else {
      assert (base + x) % TWO_64 == base + x - TWO_64;
      assert (x - TWO_64) % TWO_64 == x;
    }
  }

  lemma PointerResolves(s: State, box: nat)
    requires Shape(s) && s.bus == Some(s.dma) && box < |s.mail| && box < 2
    ensures Resolve(s, Swap64(MailboxDma(s.dma, box))) == box
  {
    hide Swap64;
    Swap64Involution(MailboxDma(s.dma, box));
    OffsetFromBase(s.dma, box * MAILBOX_SIZE);
  }

  // ---------------------------------------------------------------- every run

  ghost predicate Linked(s: State)
    requires Shape(s)
  {
    && s.ring[0].inPtr == Swap64(MailboxDma(s.dma, 0))
    && s.ring[0].outPtr == Swap64(MailboxDma(s.dma, 1))
  }

  /** Holds in every run with a mapped pool, timeouts included: slots above 0 keep their initial
      entry, the firmware answers slot 0 only and only while it is hardware-owned. */
  ghost predicate Sound(s: State) {
    && Shape(s)
    && s.bus == Some(s.dma)
    && (forall i :: 1 <= i < |s.ring| ==> s.ring[i] == INIT_ENTRY)
    && (s.fw.FwBusy? ==> s.fw.slot == 0 && HwOwned(s.ring[0]) && s.fw.cmd.outBox == 1)
    && (HwOwned(s.ring[0]) || s.drv.pc == HandOver ==> Linked(s))
    && (Filling(s.drv.pc) || s.drv.pc == Doorbell ==> s.drv.polls == 0)
    && (s.drv.pc == Poll ==> s.drv.polls < MAX_POLLS)
    && s.drv.polls <= MAX_POLLS
  }

  lemma SoundShape(s: State)
    requires Sound(s)
    ensures Shape(s)
  {
  }

  lemma FirmwareKeepsSound(s: State, a: FwAction)
    requires Sound(s)
    ensures Sound(FwStep(s, a))
  {
    hide Swap64, Swap32, MailboxDma, Resolve;
    PointerResolves(s, 0);
    PointerResolves(s, 1);
  }

  lemma DriverKeepsSound(s: State)
    requires Sound(s)
    ensures Sound(DriverStep(s))
  {
    hide Swap64, Swap32, MailboxDma, FillHeader, CopyPayload, CopyOut;
  }

  lemma {:induction false} RunSound(s: State, steps: seq<Step>)
    requires Sound(s)
    ensures Sound(Run(s, steps))
  {
    if steps != [] {
      var front, last := steps[..|steps| - 1], steps[|steps| - 1];
      RunSound(s, front);
      var r := Run(s, front);
      match last {
        case Begin(c) =>
        case Drive => DriverKeepsSound(r);
        case Device(a) => FirmwareKeepsSound(r, a);
      }
    }
  }

  ghost predicate EntryReady(s: State)
    requires Shape(s)
  {
    s.ring[0] == FillRingEntry(s.ring[0], s.dma, s.drv.call, s.drv.token)
  }

  /** What the filling statements have written so far. */
  ghost predicate Prepared(s: State)
    requires Shape(s)
  {
    var z := Zeros(MAILBOX_SIZE);
    match s.drv.pc
    case ClearOut => s.mail[0] == z
    case Header => s.mail[0] == z && s.mail[1] == z
    case Payload => s.mail[0] == FillHeader(z, s.drv.call) && s.mail[1] == z
    case FillEntry => s.mail[0] == WireMailbox(s.drv.call) && s.mail[1] == z
    case HandOver => s.mail[0] == WireMailbox(s.drv.call) && s.mail[1] == z && EntryReady(s)
    case _ => true
  }

  // ---------------------------------------------------------------- the command in flight

  /** Entry 0 holds the current call, which the firmware has not taken, is
      answering, or has answered; `log` is what it had answered before. */
  ghost predicate Flight(s: State, log: seq<Served>)
    requires Shape(s)
  {
    var e, cmd := s.ring[0], Wire(s.drv.call, s.drv.token);
    match s.fw
    case FwBusy(i, c, resp) => i == 0 && HwOwned(e) && c == cmd && resp == s.mail[1] && s.served == log
    case FwIdle =>
      if HwOwned(e) then
        && EntryReady(s) && s.mail[0] == WireMailbox(s.drv.call) && s.mail[1] == Zeros(MAILBOX_SIZE)
        && s.served == log
      else
        s.served == log + [Served(cmd, e.status / 2, s.mail[1])]
  }

  /** The invariant inside a call that began with an idle firmware. */
  ghost predicate Own(s: State, log: seq<Served>) {
    && Shape(s)
    && var v := s.drv;
    && v.pc != Ready
    && if Filling(v.pc) then
         s.fw.FwIdle? && s.served == log && Prepared(s) && !v.seen && v.delivery == 0
       else
         && Flight(s, log)
         && (v.pc == Delivery || v.pc == Response || v.seen ==> !HwOwned(s.ring[0]))
         && (v.pc == Doorbell || v.pc == Poll || v.pc == Delivery ==> !v.seen)
         && (v.pc == Response ==> v.delivery == 0)
         && v.delivery == if v.seen then s.ring[0].status / 2 else 0
  }

  /** How a call ends: a timeout leaves it in flight, anything else returns the
      firmware's answer to exactly this call. */
  ghost predicate Ended(s: State, log: seq<Served>, past: seq<Done>) {
    && Shape(s)
    && s.drv.pc == Ready
    && Flight(s, log)
    && |s.drv.done| == |past| + 1 && s.drv.done[..|past|] == past
    && var d := s.drv.done[|past|];
    && d.call == s.drv.call && d.token == s.drv.token
    && (d.outcome.Timeout? <==> HwOwned(s.ring[0]))
    && (d.outcome.Timeout? ==> !d.seen)
    && (!d.outcome.Timeout? ==>
         && s.fw.FwIdle?
         && |s.served| == |log| + 1 && s.served[..|log|] == log
         && Answers(d, s.served[|log|]))
  }

  /** Call `d` returned the answer `sv`, given for exactly its own command. */
  ghost predicate Answers(d: Done, sv: Served) {
    && sv.cmd == Wire(d.call, d.token)
    && |sv.resp| == MAILBOX_SIZE
    && d.outcome == Classify(d.call, if d.seen then sv.delivery else 0, sv.resp)
  }

  lemma FirmwareKeepsFlight(s: State, a: FwAction, log: seq<Served>)
    requires Sound(s) && Flight(s, log)
    ensures Flight(FwStep(s, a), log)
    ensures !HwOwned(s.ring[0]) ==> FwStep(s, a).ring[0] == s.ring[0] && FwStep(s, a).mail[1] == s.mail[1]
    ensures FwStep(s, a).served == s.served || (HwOwned(s.ring[0]) && !HwOwned(FwStep(s, a).ring[0]))
  {
    hide Swap64, Swap32, MailboxDma, Resolve, WireMailbox;
    PointerResolves(s, 0);
    PointerResolves(s, 1);
    Swap32Involution(s.drv.token);
    Swap32Involution(MAILBOX_SIZE);
    Swap32Involution(if s.drv.call.outLen > 0 then s.drv.call.outLen else MAILBOX_SIZE);
  }

  lemma FirmwareKeepsOwn(s: State, a: FwAction, log: seq<Served>)
    requires Sound(s) && Own(s, log)
    requires Filling(s.drv.pc) ==> !HwOwned(s.ring[0])
    ensures Own(FwStep(s, a), log)
    ensures Filling(s.drv.pc) ==> FwStep(s, a) == s
  {
    hide Swap64, Swap32, MailboxDma, Resolve, WireMailbox, Flight, FillRingEntry, FillHeader, CopyPayload;
    if !Filling(s.drv.pc) {
      FirmwareKeepsFlight(s, a, log);
    }
  }

  lemma FillKeepsOwn(s: State, log: seq<Served>)
    requires Sound(s) && Own(s, log) && Filling(s.drv.pc)
    ensures Own(DriverStep(s), log)
    ensures DriverStep(s).drv == s.drv.(pc := DriverStep(s).drv.pc)
    ensures Filling(DriverStep(s).drv.pc) && !HwOwned(s.ring[0]) ==> !HwOwned(DriverStep(s).ring[0])
  {
    hide Swap64, Swap32, MailboxDma, Resolve, WireMailbox, FillHeader, CopyPayload;
    FilledMailbox(s.drv.call);
  }

  lemma WaitKeepsOwn(s: State, log: seq<Served>)
    requires Sound(s) && Own(s, log) && !Filling(s.drv.pc)
    ensures var r := DriverStep(s);
            if r.drv.pc == Ready then Ended(r, log, s.drv.done)
            else
              && Own(r, log) && r.drv.done == s.drv.done && r.drv.call == s.drv.call && r.drv.token == s.drv.token
              && !Filling(r.drv.pc)
  {
    hide Swap64, Swap32, MailboxDma, Resolve, WireMailbox, FillRingEntry, FillHeader, CopyPayload, CopyOut;
  }

  lemma {:induction false} ActionsKeepOwn(s: State, actions: seq<FwAction>, log: seq<Served>)
    requires Sound(s) && Own(s, log)
    requires Filling(s.drv.pc) ==> !HwOwned(s.ring[0]) || actions == []
    ensures Sound(FwRun(s, actions)) && Own(FwRun(s, actions), log)
    ensures Filling(s.drv.pc) ==> FwRun(s, actions) == s
    decreases |actions|
  {
    if actions != [] {
      FirmwareKeepsSound(s, actions[0]);
      FirmwareKeepsOwn(s, actions[0], log);
      ActionsKeepOwn(FwStep(s, actions[0]), actions[1..], log);
    }
  }

  // ---------------------------------------------------------------- whole calls

  function FillSteps(pc: Pc): nat {
    match pc
    case ClearIn => 6
    case ClearOut => 5
    case Header => 4
    case Payload => 3
    case FillEntry => 2
    case HandOver => 1
    case _ => 0
  }

  /** The firmware leaves the slot alone while the driver fills it: either the
      entry is software-owned, so that no firmware step is enabled, or the
      firmware does nothing before the hand-over. */
  ghost predicate Quiet(s: State, sched: Schedule, k: nat)
    requires Shape(s)
  {
    HwOwned(s.ring[0]) ==> forall j: nat :: k <= j < k + FillSteps(s.drv.pc) ==> sched(j) == []
  }

  lemma {:induction false} CallEnds(s: State, log: seq<Served>, sched: Schedule, k: nat)
    requires Sound(s) && Own(s, log) && Quiet(s, sched, k)
    ensures var r := Execute(s, sched, k);
            Sound(r) && Ended(r, log, s.drv.done) && r.drv.call == s.drv.call && r.drv.token == s.drv.token
    decreases Remaining(s.drv)
  {
    hide Own, Sound, Ended;
    ActionsReady(s, log, sched, k);
    var t := FwRun(s, sched(k));
    var r := DriverStep(t);
    assert r == Advance(s, sched(k));
    DriverKeepsSound(t);
    if Filling(t.drv.pc) {
      FillKeepsOwn(t, log);
      QuietNext(s, sched, k, log);
      OwnNotReady(r, log);
      CallEnds(r, log, sched, k + 1);
    } else {
      WaitKeepsOwn(t, log);
      if r.drv.pc == Ready {
        EndedCall(r, log, t.drv.done, sched, k, t);
      } else {
        CallEnds(r, log, sched, k + 1);
      }
    }
    OwnNotReady(s, log);
  }

  lemma OwnNotReady(s: State, log: seq<Served>)
    requires Own(s, log)
    ensures Shape(s) && s.drv.pc != Ready
  {
  }

  lemma EndedCall(r: State, log: seq<Served>, past: seq<Done>, sched: Schedule, k: nat, t: State)
    requires Own(t, log) && Sound(t) && !Filling(t.drv.pc) && r == DriverStep(t) && r.drv.pc == Ready
             && Ended(r, log, past)
    ensures Execute(r, sched, k + 1) == r && r.drv.call == t.drv.call && r.drv.token == t.drv.token
  {
  }

  lemma ActionsReady(s: State, log: seq<Served>, sched: Schedule, k: nat)
    requires Sound(s) && Own(s, log) && Quiet(s, sched, k)
    ensures Shape(s)
    ensures Sound(FwRun(s, sched(k))) && Own(FwRun(s, sched(k)), log)
    ensures Filling(s.drv.pc) ==> FwRun(s, sched(k)) == s
  {
    if Filling(s.drv.pc) && HwOwned(s.ring[0]) {
      assert sched(k) == [];
    }
    ActionsKeepOwn(s, sched(k), log);
  }

  lemma QuietNext(s: State, sched: Schedule, k: nat, log: seq<Served>)
    requires Sound(s) && Own(s, log) && Filling(s.drv.pc) && Quiet(s, sched, k)
    ensures Quiet(DriverStep(s), sched, k + 1)
  {
    hide Own, Swap64, Swap32;
    FillKeepsOwn(s, log);
  }

  lemma EndedLength(r: State, log: seq<Served>, past: seq<Done>)
    requires Ended(r, log, past)
    ensures Shape(r) && |r.drv.done| == |past| + 1 && r.drv.done[..|past|] == past
  {
  }

  lemma BeginOwn(s: State, c: Call)
    requires Sound(s) && s.drv.pc == Ready && s.fw.FwIdle?
    ensures Sound(BeginCall(s, c)) && Own(BeginCall(s, c), s.served)
  {
  }

  lemma {:induction false} ActionsKeepSound(s: State, actions: seq<FwAction>)
    requires Sound(s)
    ensures Sound(FwRun(s, actions))
    decreases |actions|
  {
    if actions != [] {
      FirmwareKeepsSound(s, actions[0]);
      ActionsKeepSound(FwStep(s, actions[0]), actions[1..]);
    }
  }

  /** With the entry software-owned no firmware step is enabled. */
  lemma {:induction false} SoftwareOwnedIsQuiet(s: State, actions: seq<FwAction>)
    requires Sound(s) && !HwOwned(s.ring[0])
    ensures FwRun(s, actions) == s
    decreases |actions|
  {
    hide Swap64, Swap32, Resolve;
    if actions != [] {
      assert FwStep(s, actions[0]) == s;
      SoftwareOwnedIsQuiet(s, actions[1..]);
    }
  }

  /** A call refines one atomic firmware call. It may start after a timeout, as
      long as the firmware is idle then and leaves the slot alone during the fill. */
  lemma CallRefinesAtomic(s: State, c: Call, sched: Schedule)
    requires Sound(s) && s.drv.pc == Ready
    requires var t := FwRun(s, sched(0));
             t.fw.FwIdle? && (HwOwned(t.ring[0]) ==> forall j :: 1 <= j <= 6 ==> sched(j) == [])
    ensures var r := ExecuteCall(s, c, sched);
            Sound(r) && Ended(r, FwRun(s, sched(0)).served, s.drv.done)
            && r.drv.call == c && r.drv.token == NextToken(s.drv.nextToken)
  {
    var t := FwRun(s, sched(0));
    ActionsKeepSound(s, sched(0));
    BeginOwn(t, c);
    CallEnds(BeginCall(t, c), t.served, sched, 1);
  }
}
