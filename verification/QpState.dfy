/** The queue-pair state machine of mlx5_ib_modify_qp_full (kext/mlx5_qp.cpp)
    over the command queue, with lost acknowledgements. */
module QpState {
  import opened Words
  import opened Bits
  import opened CmdProtocol
  import opened CmdRefinement
  import opened CmdOutcome

  const OP_MODIFY_QP: u16 := 0x501

  // Driver states IB_QPS_RESET..IB_QPS_RTS and firmware states MLX5_QPC_QST_RST..RTS.
  const RESET := 0
  const INIT := 1
  const RTR := 2
  const RTS := 3

  /** The state byte of the command: the target in both nibbles. */
  function StateByte(target: nat): u8
    requires target <= RTS
  {
    OrDisjoint(target, 4, target);
    Or(Shl(target, 4), target)
  }

  function ModifyCall(target: nat): Call
    requires target <= RTS
  {
    Call(OP_MODIFY_QP, 0, [StateByte(target)] + Zeros(255), 16)
  }

  function OpcodeOf(cmd: Command): nat
    requires |cmd.mailbox| == MAILBOX_SIZE
  {
    BeValue(cmd.mailbox[..2])
  }

  /** The next-state nibble of a MODIFY_QP command, in mailbox byte 16. */
  function NextState(cmd: Command): nat
    requires |cmd.mailbox| == MAILBOX_SIZE
  {
    cmd.mailbox[16] % 16
  }

  ghost predicate Accepted(sv: Served) {
    && |sv.cmd.mailbox| == MAILBOX_SIZE && |sv.resp| == MAILBOX_SIZE
    && OpcodeOf(sv.cmd) == OP_MODIFY_QP && sv.delivery == 0 && sv.resp[0] == 0
  }

  /** The firmware's queue-pair state after answering `log`: an accepted command
      moves it to the next-state nibble. */
  ghost function FwQp(log: seq<Served>, start: nat): nat {
    if log == [] then start
    else
      var sv := log[|log| - 1];
      if Accepted(sv) then NextState(sv.cmd) else FwQp(log[..|log| - 1], start)
  }

  datatype QpWorld = QpWorld(s: State, qp: nat)

  /** One mlx5_ib_modify_qp_full call: the target follows from the driver's state,
      which moves only on success; in other states nothing is sent. */
  function Modify(w: QpWorld, sched: Schedule): (r: QpWorld)
    requires Shape(w.s) && w.s.drv.pc == Ready
    ensures Shape(r.s) && r.s.drv.pc == Ready
  {
    if w.qp >= RTS then w
    else
      var t := ExecuteCall(w.s, ModifyCall(w.qp + 1), sched);
      var acked := t.drv.done != [] && t.drv.done[|t.drv.done| - 1].outcome.Success?;
      QpWorld(t, if acked then w.qp + 1 else w.qp)
  }

  /** A timeout after the last success: an acknowledgement may have been lost. */
  ghost predicate Lost(ds: seq<Done>) {
    ds != [] &&
    var o := ds[|ds| - 1].outcome;
    o.Timeout? || (!o.Success? && Lost(ds[..|ds| - 1]))
  }

  lemma ModifyOnTheWire(target: nat, t: u8)
    requires target <= RTS
    ensures var cmd := Wire(ModifyCall(target), t);
            |cmd.mailbox| == MAILBOX_SIZE && OpcodeOf(cmd) == OP_MODIFY_QP && NextState(cmd) == target
  {
    hide BeValue, WireMailbox, StateByte;
    var c := ModifyCall(target);
    WireFields(c);
    assert WireMailbox(c)[16] == WireMailbox(c)[16..272][0] == StateByte(target);
    StateByteNibbles(target);
  }

  /** The whole command: opcode 0x501, op_mod 0, the target in both nibbles of the first
      payload byte, nothing else. */
  lemma ModifyInFull(target: nat, t: u8)
    requires target <= RTS
    ensures var m := Wire(ModifyCall(target), t).mailbox;
            && |m| == 4096 && BeValue(m[0..2]) == 0x501 && BeValue(m[6..8]) == 0
            && m[16] == 17 * target && m[17..] == Zeros(4079)
  {
    hide BeValue, WireMailbox, StateByte;
    var c := ModifyCall(target);
    var m := WireMailbox(c);
    WireFields(c);
    StateByteNibbles(target);
    assert m[16..272] == c.input[..256] == c.input;
    assert m[16] == m[16..272][0] && c.input[0] == StateByte(target);
    assert m[17..] == m[16..272][1..] + m[272..];
    assert c.input[1..] == Zeros(255);
  }

  lemma StateByteNibbles(target: nat)
    requires target <= RTS
    ensures StateByte(target) % 16 == target == StateByte(target) / 16
  {
    hide Or;
    assert Pow2(4) == 16;
    OrDisjoint(target, 4, target);
  }

  lemma FwQpAppend(log: seq<Served>, sv: Served, start: nat)
    ensures FwQp(log + [sv], start) == if Accepted(sv) then NextState(sv.cmd) else FwQp(log, start)
  {
    assert (log + [sv])[..|log|] == log;
  }

  // ---------------------------------------------------------------- commands that lead to one state

  /** The input mailbox as filled so far. */
  ghost predicate InBoxPrepared(s: State)
    requires Shape(s)
  {
    match s.drv.pc
    case ClearIn => true
    case ClearOut | Header => s.mail[0] == Zeros(MAILBOX_SIZE)
    case Payload => s.mail[0] == FillHeader(Zeros(MAILBOX_SIZE), s.drv.call)
    case _ => s.mail[0] == WireMailbox(s.drv.call)
  }

  /** The firmware's state is `base` or `target`, and every command it holds or can take
      leads to `target`. */
  ghost predicate Heading(s: State, target: nat, base: nat, start: nat)
    requires target <= RTS
  {
    && Sound(s)
    && FwQp(s.served, start) in {base, target}
    && (s.fw.FwBusy? ==> |s.fw.cmd.mailbox| == MAILBOX_SIZE && NextState(s.fw.cmd) == target)
    && (HwOwned(s.ring[0]) && s.fw.FwIdle? ==>
         !Filling(s.drv.pc) && s.drv.call == ModifyCall(target) && s.mail[0] == WireMailbox(s.drv.call))
    && (Filling(s.drv.pc) ==> s.drv.call == ModifyCall(target) && InBoxPrepared(s))
  }

  lemma HeadingSound(s: State, target: nat, base: nat, start: nat)
    requires target <= RTS && Heading(s, target, base, start)
    ensures Shape(s) && Sound(s) && FwQp(s.served, start) in {base, target}
  {
  }

  lemma FirmwareKeepsHeading(s: State, a: FwAction, target: nat, base: nat, start: nat)
    requires target <= RTS && Heading(s, target, base, start)
    ensures Heading(FwStep(s, a), target, base, start)
  {
    hide Swap64, Swap32, MailboxDma, Resolve, WireMailbox, FillHeader, ModifyCall, Accepted;
    FirmwareKeepsSound(s, a);
    PointerResolves(s, 0);
    PointerResolves(s, 1);
    ModifyOnTheWire(target, s.drv.token);
    if a.Flip? && s.fw.FwBusy? && a.delivery < 0x80 {
      FwQpAppend(s.served, Served(s.fw.cmd, a.delivery, s.fw.resp), start);
    }
  }

  lemma {:induction false} ActionsKeepHeading(s: State, actions: seq<FwAction>, target: nat, base: nat, start: nat)
    requires target <= RTS && Heading(s, target, base, start)
    ensures Shape(s) && Heading(FwRun(s, actions), target, base, start)
    decreases |actions|
  {
    hide Heading, Sound;
    HeadingSound(s, target, base, start);
    if actions != [] {
      FirmwareKeepsHeading(s, actions[0], target, base, start);
      ActionsKeepHeading(FwStep(s, actions[0]), actions[1..], target, base, start);
    }
  }

  lemma DriverKeepsHeading(s: State, target: nat, base: nat, start: nat)
    requires target <= RTS && Heading(s, target, base, start) && s.drv.pc != Ready
    ensures Heading(DriverStep(s), target, base, start)
  {
    hide Swap64, Swap32, MailboxDma, WireMailbox, FillHeader, CopyPayload, ModifyCall, Linked, CopyOut, FwQp;
    DriverKeepsSound(s);
    FilledMailbox(s.drv.call);
  }

  lemma {:induction false} ExecuteKeepsHeading(s: State, sched: Schedule, k: nat, target: nat, base: nat, start: nat)
    requires target <= RTS && Heading(s, target, base, start)
    ensures Shape(s) && Heading(Execute(s, sched, k), target, base, start)
    decreases Remaining(s.drv)
  {
    hide Heading, Sound, FwQp, DriverStep, FwStep;
    HeadingSound(s, target, base, start);
    if s.drv.pc != Ready {
      ActionsKeepHeading(s, sched(k), target, base, start);
      var t := FwRun(s, sched(k));
      HeadingSound(t, target, base, start);
      DriverKeepsHeading(t, target, base, start);
      assert DriverStep(t) == Advance(s, sched(k));
      ExecuteKeepsHeading(DriverStep(t), sched, k + 1, target, base, start);
    }
  }

  /** A firmware that is busy with, or has finished, a command to `target` stays headed
      there through another call to `target`. */
  lemma CallKeepsHeading(s: State, sched: Schedule, target: nat, base: nat, start: nat)
    requires target <= RTS && Shape(s) && s.drv.pc == Ready
    requires var t := FwRun(s, sched(0));
             Heading(t, target, base, start) && (HwOwned(t.ring[0]) ==> t.fw.FwBusy?)
    ensures Heading(ExecuteCall(s, ModifyCall(target), sched), target, base, start)
  {
    hide Execute, ModifyCall, Heading, FwRun;
    var t := FwRun(s, sched(0));
    BeginHeading(t, target, base, start);
    ExecuteKeepsHeading(BeginCall(t, ModifyCall(target)), sched, 1, target, base, start);
  }

  lemma BeginHeading(t: State, target: nat, base: nat, start: nat)
    requires target <= RTS && Heading(t, target, base, start) && t.drv.pc == Ready && (HwOwned(t.ring[0])
             ==> t.fw.FwBusy?)
    ensures Heading(BeginCall(t, ModifyCall(target)), target, base, start)
  {
    hide ModifyCall, WireMailbox, FwQp;
  }

  lemma HeadingTarget(t: State, target: nat, base: nat, start: nat)
    requires target <= RTS && Heading(t, target, base, start) && FwQp(t.served, start) == target
    ensures Heading(t, target, target, start)
  {
    hide ModifyCall, FwQp, WireMailbox, Sound;
  }

  lemma HeadingWidens(t: State, target: nat, base: nat, start: nat)
    requires target <= RTS && Heading(t, target, target, start)
    ensures Heading(t, target, base, start)
  {
    hide ModifyCall, FwQp, WireMailbox, Sound;
  }

  /** The firmware is still busy with the command it had at `log`, or its state is the
      target, or it refused that command. */
  ghost predicate Resolving(s: State, log: seq<Served>, target: nat, base: nat, start: nat)
    requires target <= RTS
  {
    && Heading(s, target, base, start)
    && (|| (s.fw.FwBusy? && s.served == log)
        || FwQp(s.served, start) == target
        || (|log| < |s.served| && !Accepted(s.served[|log|])))
  }

  lemma FirmwareResolves(s: State, a: FwAction, log: seq<Served>, target: nat, base: nat, start: nat)
    requires target <= RTS && Resolving(s, log, target, base, start)
    ensures Resolving(FwStep(s, a), log, target, base, start)
  {
    hide Sound, Heading, FwQp, Accepted, NextState;
    HeadingSound(s, target, base, start);
    FirmwareKeepsHeading(s, a, target, base, start);
    ServedStep(s, a);
    if FwQp(s.served, start) == target {
      HeadingTarget(s, target, base, start);
      FirmwareKeepsHeading(s, a, target, target, start);
      HeadingSound(FwStep(s, a), target, target, start);
    } else if s.fw.FwBusy? && s.served == log {
      HeldCommand(s, target, base, start);
      if FwStep(s, a).served != log {
        FwQpAppend(log, FwStep(s, a).served[|log|], start);
      }
    }
  }

  lemma HeldCommand(s: State, target: nat, base: nat, start: nat)
    requires target <= RTS && Heading(s, target, base, start) && s.fw.FwBusy?
    ensures |s.fw.cmd.mailbox| == MAILBOX_SIZE && NextState(s.fw.cmd) == target
  {
  }

  /** A firmware step answers at most the command it holds. */
  lemma ServedStep(s: State, a: FwAction)
    requires Shape(s)
    ensures var r := FwStep(s, a);
            || (r.served == s.served && (s.fw.FwBusy? ==> r.fw.FwBusy?))
            || (s.fw.FwBusy? && |r.served| == |s.served| + 1 && r.served == s.served + [r.served[|s.served|]]
                && r.served[|s.served|].cmd == s.fw.cmd)
  {
    hide Swap64, Swap32, Resolve;
  }

  lemma {:induction false} ActionsResolve(s: State, actions: seq<FwAction>, log: seq<Served>, target: nat, base: nat,
      start: nat)
    requires target <= RTS && Resolving(s, log, target, base, start)
    ensures Shape(s) && Resolving(FwRun(s, actions), log, target, base, start)
    decreases |actions|
  {
    hide Resolving, Sound, FwStep;
    ResolvingSound(s, log, target, base, start);
    if actions != [] {
      FirmwareResolves(s, actions[0], log, target, base, start);
      ActionsResolve(FwStep(s, actions[0]), actions[1..], log, target, base, start);
    }
  }

  lemma ResolvingSound(s: State, log: seq<Served>, target: nat, base: nat, start: nat)
    requires target <= RTS && Resolving(s, log, target, base, start)
    ensures Shape(s) && Sound(s)
  {
  }

  lemma DriverResolves(s: State, log: seq<Served>, target: nat, base: nat, start: nat)
    requires target <= RTS && Resolving(s, log, target, base, start) && s.drv.pc != Ready
    ensures Resolving(DriverStep(s), log, target, base, start)
  {
    hide Heading, Sound, FwQp, Accepted, FillMail, FillRing, FillNext, WaitStep;
    HeadingSound(s, target, base, start);
    DriverKeepsHeading(s, target, base, start);
  }

  lemma {:induction false} ExecuteResolves(s: State, sched: Schedule, k: nat, log: seq<Served>, target: nat,
      base: nat, start: nat)
    requires target <= RTS && Resolving(s, log, target, base, start)
    ensures Shape(s) && Resolving(Execute(s, sched, k), log, target, base, start)
    decreases Remaining(s.drv)
  {
    hide Resolving, Sound, DriverStep, FwStep;
    ResolvingSound(s, log, target, base, start);
    if s.drv.pc != Ready {
      ActionsResolve(s, sched(k), log, target, base, start);
      var t := FwRun(s, sched(k));
      ResolvingSound(t, log, target, base, start);
      DriverResolves(t, log, target, base, start);
      assert DriverStep(t) == Advance(s, sched(k));
      ExecuteResolves(DriverStep(t), sched, k + 1, log, target, base, start);
    }
  }

  // ---------------------------------------------------------------- agreement

  ghost predicate InStep(w: QpWorld, start: nat) {
    w.qp <= FwQp(w.s.served, start) <= w.qp + 1
  }

  /** The invariant between calls: the states are in step, the firmware is ahead only
      after a lost acknowledgement, and what is pending repeats the driver's next step. */
  ghost predicate Agree(w: QpWorld, start: nat) {
    && Sound(w.s) && w.s.drv.pc == Ready
    && InStep(w, start)
    && var f := FwQp(w.s.served, start);
    && f <= RTS
    && (f == w.qp + 1 ==> Lost(w.s.drv.done))
    && (HwOwned(w.s.ring[0]) ==> w.qp < RTS && Heading(w.s, w.qp + 1, w.qp, start) && Lost(w.s.drv.done))
  }

  lemma AgreeSound(w: QpWorld, start: nat)
    requires Agree(w, start)
    ensures Sound(w.s) && Shape(w.s) && w.s.drv.pc == Ready && InStep(w, start)
  {
  }

  /** No success of this call comes through the re-read gap. */
  ghost predicate NoGap(w: QpWorld, sched: Schedule)
    requires Shape(w.s) && w.s.drv.pc == Ready && w.qp < RTS
  {
    var r := ExecuteCall(w.s, ModifyCall(w.qp + 1), sched);
    r.drv.done != [] && r.drv.done[|r.drv.done| - 1].outcome.Success? ==> r.drv.done[|r.drv.done| - 1].seen
  }

  /** The schedules considered: no success through the gap, and when the call starts the
      slot is software-owned; or a command is pending that the firmware leaves alone
      while the driver refills the slot; or the firmware is busy with a command, which it
      does not refuse during the call or has carried out before. */
  ghost predicate Allowed(w: QpWorld, sched: Schedule, start: nat)
    requires Shape(w.s) && w.s.drv.pc == Ready
  {
    w.qp < RTS ==>
      && NoGap(w, sched)
      && var t, r := FwRun(w.s, sched(0)), ExecuteCall(w.s, ModifyCall(w.qp + 1), sched);
      || !HwOwned(t.ring[0])
      || (t.fw.FwIdle? && forall j :: 1 <= j <= 6 ==> sched(j) == [])
      || (t.fw.FwBusy? && (FwQp(t.served, start) == w.qp + 1 || !Refuses(t, r)))
  }

  /** The first command answered between the two states was refused. */
  ghost predicate Refuses(t: State, r: State) {
    |t.served| < |r.served| && !Accepted(r.served[|t.served|])
  }

  /** Between calls the firmware can only finish the pending command. */
  lemma BetweenCalls(w: QpWorld, actions: seq<FwAction>, start: nat)
    requires Agree(w, start) && w.qp < RTS
    ensures var t := FwRun(w.s, actions);
            var f := FwQp(t.served, start);
            && Sound(t) && w.qp <= f <= w.qp + 1 && (f == w.qp + 1 ==> Lost(w.s.drv.done))
            && (HwOwned(t.ring[0]) ==> Heading(t, w.qp + 1, w.qp, start))
            && (t.fw.FwBusy? ==> Lost(w.s.drv.done))
  {
    hide Lost, FwQp, FwStep, FwRun, Heading, Sound;
    AgreeSound(w, start);
    if HwOwned(w.s.ring[0]) {
      ActionsKeepHeading(w.s, actions, w.qp + 1, w.qp, start);
      HeadingSound(FwRun(w.s, actions), w.qp + 1, w.qp, start);
    } else {
      SoftwareOwnedIsQuiet(w.s, actions);
      NotBusy(w.s);
    }
  }

  lemma NotBusy(s: State)
    requires Sound(s) && !HwOwned(s.ring[0])
    ensures s.fw.FwIdle?
  {
  }

  lemma ModifyAgrees(w: QpWorld, sched: Schedule, start: nat)
    requires Agree(w, start) && Allowed(w, sched, start)
    ensures Agree(Modify(w, sched), start)
  {
    hide ModifyCall, Wire, ExecuteCall, Ended, Lost, FwQp, Flight, Sound, FwRun, Heading, Agree;
    AgreeSound(w, start);
    if w.qp < RTS {
      BetweenCalls(w, sched(0), start);
      var t := FwRun(w.s, sched(0));
      if t.fw.FwBusy? {
        OwnedWhenBusy(t);
        RepeatAgrees(w, sched, start);
      } else {
        var c := ModifyCall(w.qp + 1);
        CallRefinesAtomic(w.s, c, sched);
        EndedLength(ExecuteCall(w.s, c, sched), t.served, w.s.drv.done);
        AfterCall(w, t, ExecuteCall(w.s, c, sched), start);
      }
    }
  }

  lemma OwnedWhenBusy(t: State)
    requires Sound(t) && t.fw.FwBusy?
    ensures HwOwned(t.ring[0])
  {
  }

  /** What a timeout leaves in flight leads to its target. */
  lemma PendingHeads(r: State, log: seq<Served>, target: nat, base: nat, start: nat)
    requires target <= RTS && Sound(r) && Flight(r, log) && HwOwned(r.ring[0]) && r.drv.pc == Ready
    requires r.drv.call == ModifyCall(target) && FwQp(log, start) in {base, target}
    ensures r.served == log && Heading(r, target, base, start)
  {
    hide ModifyCall, WireMailbox, FwQp, Sound;
    ModifyOnTheWire(target, r.drv.token);
  }

  /** A call that refines an atomic one. */
  lemma AfterCall(w: QpWorld, t: State, r: State, start: nat)
    requires w.qp < RTS
    requires var f := FwQp(t.served, start); w.qp <= f <= w.qp + 1 && (f == w.qp + 1 ==> Lost(w.s.drv.done))
    requires Sound(r) && Ended(r, t.served, w.s.drv.done) && r.drv.call == ModifyCall(w.qp + 1)
    requires var d := r.drv.done[|w.s.drv.done|]; d.outcome.Success? ==> d.seen
    ensures Agree(QpWorld(r, if r.drv.done[|w.s.drv.done|].outcome.Success? then w.qp + 1 else w.qp), start)
  {
    hide ModifyCall, WireMailbox, CopyOut, Sound, FwQp, Heading, Flight;
    var past := w.s.drv.done;
    var d := r.drv.done[|past|];
    assert r.drv.done[..|r.drv.done| - 1] == past;
    ModifyOnTheWire(w.qp + 1, d.token);
    if d.outcome.Timeout? {
      PendingHeads(r, t.served, w.qp + 1, w.qp, start);
    } else {
      var sv := r.served[|t.served|];
      assert r.served == t.served + [sv];
      FwQpAppend(t.served, sv, start);
    }
  }

  /** A call that meets a busy firmware. */
  lemma RepeatAgrees(w: QpWorld, sched: Schedule, start: nat)
    requires Agree(w, start) && w.qp < RTS
    requires var t, r := FwRun(w.s, sched(0)), ExecuteCall(w.s, ModifyCall(w.qp + 1), sched);
             t.fw.FwBusy? && (FwQp(t.served, start) == w.qp + 1 || !Refuses(t, r))
    ensures Agree(Modify(w, sched), start)
  {
    hide Execute, ModifyCall, FwQp, FwRun, Lost, Sound, Agree, Decided, Heading, Resolving, Refuses;
    AgreeSound(w, start);
    var t, target := FwRun(w.s, sched(0)), w.qp + 1;
    var c := ModifyCall(target);
    var r := ExecuteCall(w.s, c, sched);
    BetweenCalls(w, sched(0), start);
    OwnedWhenBusy(t);
    BeginHeading(t, target, w.qp, start);
    BeginResolving(t, c, target, w.qp, start);
    ExecuteResolves(BeginCall(t, c), sched, 1, t.served, target, w.qp, start);
    OutcomeExact(w.s, c, sched);
    DecidedOutcome(r, w.s.drv.done, c);
    if FwQp(t.served, start) == target {
      HeadingTarget(t, target, w.qp, start);
      CallKeepsHeading(w.s, sched, target, target, start);
      HeadingSound(r, target, target, start);
      HeadingWidens(r, target, w.qp, start);
    } else {
      Resolved(r, t, target, w.qp, start);
    }
    RepeatEnds(w, r, start);
  }

  lemma BeginResolving(t: State, c: Call, target: nat, base: nat, start: nat)
    requires target <= RTS && Shape(t) && t.drv.pc == Ready && Heading(BeginCall(t, c), target, base, start)
             && t.fw.FwBusy?
    ensures Resolving(BeginCall(t, c), t.served, target, base, start)
  {
    hide Heading, FwQp;
  }

  lemma Resolved(r: State, t: State, target: nat, base: nat, start: nat)
    requires target <= RTS && Resolving(r, t.served, target, base, start) && !Refuses(t, r)
    ensures Heading(r, target, base, start) && (r.fw.FwIdle? ==> FwQp(r.served, start) == target)
    ensures Sound(r)
  {
    hide Heading, FwQp, Sound, Accepted;
    HeadingSound(r, target, base, start);
  }

  lemma RepeatEnds(w: QpWorld, r: State, start: nat)
    requires w.qp < RTS && Sound(r) && Heading(r, w.qp + 1, w.qp, start) && r.drv.pc == Ready && Lost(w.s.drv.done)
    requires |r.drv.done| == |w.s.drv.done| + 1 && r.drv.done[..|w.s.drv.done|] == w.s.drv.done
    requires r.drv.done[|w.s.drv.done|].outcome.Timeout? <==> HwOwned(r.ring[0])
    requires r.fw.FwIdle? && !HwOwned(r.ring[0]) ==> FwQp(r.served, start) == w.qp + 1
    ensures Agree(QpWorld(r, if r.drv.done[|w.s.drv.done|].outcome.Success? then w.qp + 1 else w.qp), start)
  {
    hide FwQp, Heading, Sound;
    HeadingSound(r, w.qp + 1, w.qp, start);
    if !HwOwned(r.ring[0]) {
      NotBusy(r);
    }
  }

  lemma DecidedOutcome(r: State, past: seq<Done>, c: Call)
    requires Decided(r, past, c)
    ensures Shape(r) && |r.drv.done| == |past| + 1 && r.drv.done[..|past|] == past
    ensures r.drv.done[|past|].outcome.Timeout? <==> HwOwned(r.ring[0])
  {
    hide CopyOut;
  }

  function ModifyRun(w: QpWorld, scheds: seq<Schedule>): (r: QpWorld)
    requires Shape(w.s) && w.s.drv.pc == Ready
    ensures Shape(r.s) && r.s.drv.pc == Ready
  {
    if scheds == [] then w else Modify(ModifyRun(w, scheds[..|scheds| - 1]), scheds[|scheds| - 1])
  }

  ghost predicate AllAllowed(w: QpWorld, scheds: seq<Schedule>, start: nat)
    requires Shape(w.s) && w.s.drv.pc == Ready
  {
    forall n :: 0 <= n < |scheds| ==> Allowed(ModifyRun(w, scheds[..n]), scheds[n], start)
  }

  /** Over any run of modify commands mixing success, rejection and timeout, the
      driver's state stays at the firmware's or one behind, and is behind only
      after a timeout with no later success. */
  lemma {:induction false} StatesAgree(w: QpWorld, scheds: seq<Schedule>, start: nat)
    requires Agree(w, start) && Shape(w.s) && w.s.drv.pc == Ready && AllAllowed(w, scheds, start)
    ensures Agree(ModifyRun(w, scheds), start)
  {
    hide Agree, Allowed, Modify;
    if scheds != [] {
      var front := scheds[..|scheds| - 1];
      forall n | 0 <= n < |front|
        ensures Allowed(ModifyRun(w, front[..n]), front[n], start)
      {
        assert front[..n] == scheds[..n];
      }
      StatesAgree(w, front, start);
      ModifyAgrees(ModifyRun(w, front), scheds[|scheds| - 1], start);
    }
  }

  /** A new queue pair on a fresh command queue. */
  lemma StartAgrees(entries: nat, dma: u64)
    requires entries >= 1
    ensures Agree(QpWorld(InitState(entries, dma), RESET), RESET)
  {
    hide Swap64, MailboxDma;
  }

  // ---------------------------------------------------------------- one call, every schedule

  /** A firmware that is answering a repeated command stays at the target state. */
  lemma RepeatedInStep(w: QpWorld, sched: Schedule, start: nat)
    requires Agree(w, start) && w.qp < RTS && w.s.fw.FwBusy? && FwQp(w.s.served, start) == w.qp + 1
    ensures InStep(Modify(w, sched), start)
  {
    hide ExecuteCall, ModifyCall, FwQp, FwRun, Lost, Sound, Heading, WireMailbox;
    var target := w.qp + 1;
    AgreeSound(w, start);
    OwnedWhenBusy(w.s);
    HeadingTarget(w.s, target, w.qp, start);
    ActionsKeepHeading(w.s, sched(0), target, target, start);
    BusyOrDone(w.s, sched(0));
    CallKeepsHeading(w.s, sched, target, target, start);
    HeadingSound(ExecuteCall(w.s, ModifyCall(target), sched), target, target, start);
  }

  /** A firmware that starts out busy is busy as long as it owns the entry. */
  lemma {:induction false} BusyOrDone(s: State, actions: seq<FwAction>)
    requires Sound(s) && (HwOwned(s.ring[0]) ==> s.fw.FwBusy?)
    ensures var t := FwRun(s, actions); HwOwned(t.ring[0]) ==> t.fw.FwBusy?
    decreases |actions|
  {
    hide Swap64, Swap32, Resolve;
    if actions != [] {
      FirmwareKeepsSound(s, actions[0]);
      BusyOrDone(FwStep(s, actions[0]), actions[1..]);
    }
  }

  lemma OwnedInStep(w: QpWorld, sched: Schedule, start: nat)
    requires Agree(w, start) && w.qp < RTS && !HwOwned(w.s.ring[0]) && NoGap(w, sched)
    ensures InStep(Modify(w, sched), start)
  {
    hide ExecuteCall, FwQp, Lost, ModifyCall, NoGap, Heading;
    SoftwareOwnedIsQuiet(w.s, sched(0));
    ModifyAgrees(w, sched, start);
  }

  /** The pending command is taken before the call and refused; the driver clears
      the refusal and takes the flip for its own success. */
  lemma RefusalOutOfStep(w: QpWorld, start: nat)
    requires Agree(w, start) && w.qp < RTS && HwOwned(w.s.ring[0]) && FwQp(w.s.served, start) == w.qp
    ensures NoGap(w, STALE_SCHEDULE) && !InStep(Modify(w, STALE_SCHEDULE), start)
  {
    hide ExecuteCall, FwQp, ModifyCall, Agree, Sound, HwOwned, Shape, NextState, Flight;
    AgreeSound(w, start);
    var sv := StaleAnswer(w.s, ModifyCall(w.qp + 1));
    FwQpAppend(w.s.served, sv, start);
  }

  lemma NoActions(s: State)
    requires Shape(s)
    ensures FwRun(s, []) == s
  {
  }

  lemma BeginSound(s: State, c: Call)
    requires Sound(s) && s.drv.pc == Ready
    ensures Sound(BeginCall(s, c))
  {
    hide Swap64, MailboxDma;
  }

  lemma ThreeFillsSound(b: State, t: State)
    requires Sound(b) && Shape(t) && t == b.(mail := t.mail, drv := b.drv.(pc := Payload)) && b.drv.pc == ClearIn
    ensures Sound(t)
  {
    hide Swap64, MailboxDma;
  }

  /** Taking the pending entry, and the payload statement after it. */
  lemma TakeHalf(t: State) returns (x: State)
    requires Sound(t) && Shape(t) && t.fw.FwIdle? && HwOwned(t.ring[0]) && t.drv.pc == Payload
    ensures Shape(x) && x == FwRun(t, [Take(0)]) && x == t.(fw := x.fw)
    ensures x.fw.FwBusy? && x.fw.slot == 0 && x.fw.cmd.outBox == 1 && x.fw.cmd.mailbox == t.mail[0]
            && x.fw.resp == Zeros(MAILBOX_SIZE)
    ensures var y := DriverStep(x); y == x.(mail := y.mail, drv := x.drv.(pc := FillEntry)) && y.mail[1] == x.mail[1]
  {
    hide Swap64, Swap32, MailboxDma, Resolve, CopyPayload;
    PointerResolves(t, 0);
    PointerResolves(t, 1);
    x := FwStep(t, Take(0));
    assert FwRun(x, []) == x;
    assert FwRun(t, [Take(0)]) == x;
  }

  /** Entry, hand-over and doorbell, undisturbed. */
  lemma FinishFill(y: State, sched: Schedule) returns (z: State)
    requires Shape(y) && y.drv.pc == FillEntry && sched(5) == sched(6) == sched(7) == []
    ensures Shape(z) && Execute(y, sched, 5) == Execute(z, sched, 8)
    ensures z == y.(ring := z.ring, drv := y.drv.(pc := Poll, doorbell := z.drv.doorbell)) && HwOwned(z.ring[0])
  {
    hide Execute, Swap32, Swap64, MailboxDma, FillRingEntry;
    Undisturbed(y, sched, 5);
    var a := DriverStep(y);
    Undisturbed(a, sched, 6);
    var b := DriverStep(a);
    Undisturbed(b, sched, 7);
    z := DriverStep(b);
  }

  lemma FlipBack(y: State)
    requires Shape(y) && y.fw.FwBusy? && y.fw.slot == 0
    ensures var u := FwStep(y, Flip(0));
            && u == y.(ring := u.ring, served := u.served, fw := FwIdle)
            && u.ring[0].status == 0 && u.served == y.served + [Served(y.fw.cmd, 0, y.fw.resp)]
  {
  }

  lemma ThreeFills(b: State, sched: Schedule) returns (t: State)
    requires Shape(b) && b.drv.pc == ClearIn && sched(1) == sched(2) == sched(3) == []
    ensures Shape(t) && Execute(b, sched, 1) == Execute(t, sched, 4)
    ensures t == b.(mail := t.mail, drv := b.drv.(pc := Payload))
    ensures t.mail[0] == FillHeader(Zeros(MAILBOX_SIZE), b.drv.call) && t.mail[1] == Zeros(MAILBOX_SIZE)
  {
    hide Execute, FillHeader;
    Undisturbed(b, sched, 1);
    var x := DriverStep(b);
    Undisturbed(x, sched, 2);
    var y := DriverStep(x);
    Undisturbed(y, sched, 3);
    t := DriverStep(y);
  }

  /** The pending entry is taken between the header and the payload of the new
      command and answered after the hand-over. */
  const HALF_TAKE_SCHEDULE: Schedule := k => if k == 4 then [Take(0)] else if k == 8 then [Flip(0)] else []

  /** The fill, with the take in the middle: the firmware holds a header with an empty
      payload. */
  lemma HalfFilled(s: State, c: Call) returns (y: State)
    requires Sound(s) && Shape(s) && s.drv.pc == Ready && HwOwned(s.ring[0]) && s.fw.FwIdle?
    ensures Shape(y) && ExecuteCall(s, c, HALF_TAKE_SCHEDULE) == Execute(y, HALF_TAKE_SCHEDULE, 8)
    ensures y.drv.pc == Poll && !y.drv.seen && y.drv.delivery == 0 && HwOwned(y.ring[0])
    ensures y.served == s.served && y.mail[1] == Zeros(MAILBOX_SIZE)
    ensures y.fw.FwBusy? && y.fw.slot == 0 && y.fw.resp == Zeros(MAILBOX_SIZE)
    ensures y.fw.cmd.mailbox == FillHeader(Zeros(MAILBOX_SIZE), c)
  {
    hide Execute, FwRun, Remaining, FillHeader, Sound, FwStep, DriverStep, HwOwned, Boxes;
    var sched := HALF_TAKE_SCHEDULE;
    assert FwRun(s, sched(0)) == s by { NoActions(s); }
    var b := BeginCall(s, c);
    BeginSound(s, c);
    var t := ThreeFills(b, sched);
    ThreeFillsSound(b, t);
    var x := TakeHalf(t);
    Disturbed(t, sched, 4);
    y := FinishFill(DriverStep(x), sched);
  }

  /** The firmware answers that; the driver sees a success. */
  lemma HalfTaken(s: State, c: Call) returns (sv: Served)
    requires Sound(s) && Shape(s) && s.drv.pc == Ready && HwOwned(s.ring[0]) && s.fw.FwIdle?
    ensures var r := ExecuteCall(s, c, HALF_TAKE_SCHEDULE);
            && r.served == s.served + [sv]
            && r.drv.done != [] && r.drv.done[|r.drv.done| - 1].seen && r.drv.done[|r.drv.done| - 1].outcome.Success?
    ensures sv.cmd.mailbox == FillHeader(Zeros(MAILBOX_SIZE), c) && sv.delivery == 0 && sv.resp == Zeros(MAILBOX_SIZE)
  {
    hide Execute, ExecuteCall, FwRun, FillHeader, Sound, FwStep, DriverStep, CopyOut, Boxes;
    var sched := HALF_TAKE_SCHEDULE;
    var y := HalfFilled(s, c);
    var u := FwStep(y, Flip(0));
    FlipBack(y);
    FlipAlone(y);
    StaleTail(y, u, DriverStep(u), sched);
    sv := Served(y.fw.cmd, 0, y.fw.resp);
  }

  lemma ModifyOpcode(target: nat)
    requires target <= RTS
    ensures ModifyCall(target).opcode == OP_MODIFY_QP
  {
  }

  /** The header without a payload is a MODIFY_QP command to state 0. */
  lemma HeaderOnly(c: Call)
    requires c.opcode == OP_MODIFY_QP
    ensures BeValue(FillHeader(Zeros(MAILBOX_SIZE), c)[..2]) == OP_MODIFY_QP
    ensures FillHeader(Zeros(MAILBOX_SIZE), c)[16] == 0
  {
    var e := c.(input := []);
    FilledMailbox(e);
    WireFields(e);
    var m := FillHeader(Zeros(MAILBOX_SIZE), c);
    assert m == FillHeader(Zeros(MAILBOX_SIZE), e);
    assert CopyPayload(m, e) == m;
    assert m[16] == m[16..][0];
  }

  lemma HalfCommandResets(sv: Served, c: Call)
    requires c.opcode == OP_MODIFY_QP && sv.cmd.mailbox == FillHeader(Zeros(MAILBOX_SIZE), c)
    requires sv.delivery == 0 && sv.resp == Zeros(MAILBOX_SIZE)
    ensures Accepted(sv) && NextState(sv.cmd) == RESET
  {
    hide FillHeader, BeValue;
    HeaderOnly(c);
  }

  /** A half-filled command carries next state 0: the firmware resets the queue
      pair while the driver moves on. */
  lemma HalfTakeOutOfStep(w: QpWorld, start: nat)
    requires Agree(w, start) && w.qp < RTS && HwOwned(w.s.ring[0]) && w.s.fw.FwIdle?
    ensures NoGap(w, HALF_TAKE_SCHEDULE) && FwQp(Modify(w, HALF_TAKE_SCHEDULE).s.served, start) == RESET
    ensures !InStep(Modify(w, HALF_TAKE_SCHEDULE), start)
  {
    hide ExecuteCall, FwQp, Agree, Sound, FillHeader, ModifyCall, HwOwned, Shape, Accepted, NextState, Zeros;
    AgreeSound(w, start);
    var c := ModifyCall(w.qp + 1);
    ModifyOpcode(w.qp + 1);
    var sv := HalfTaken(w.s, c);
    HalfCommandResets(sv, c);
    FwQpAppend(w.s.served, sv, start);
  }

  /** Without a success through the gap: one call keeps the two states in step under
      every schedule exactly when the slot is software-owned at the start, or the
      firmware is already answering a repeat of a command it has carried out. */
  lemma InStepWithoutGap(w: QpWorld, start: nat)
    requires Agree(w, start) && w.qp < RTS
    ensures (forall sched: Schedule :: NoGap(w, sched) ==> InStep(Modify(w, sched), start))
            <==> !HwOwned(w.s.ring[0]) || (w.s.fw.FwBusy? && FwQp(w.s.served, start) == w.qp + 1)
  {
    hide Modify, NoGap, FwQp, Lost, Flight, InStep;
    if !HwOwned(w.s.ring[0]) {
      forall sched: Schedule | NoGap(w, sched)
        ensures InStep(Modify(w, sched), start)
      {
        OwnedInStep(w, sched, start);
      }
    } else if w.s.fw.FwIdle? {
      HalfTakeOutOfStep(w, start);
    } else if FwQp(w.s.served, start) == w.qp {
      RefusalOutOfStep(w, start);
    } else {
      forall sched: Schedule | NoGap(w, sched)
        ensures InStep(Modify(w, sched), start)
      {
        RepeatedInStep(w, sched, start);
      }
    }
  }

  /** The firmware reports a delivery error between the last poll and the re-read: the
      driver moves on alone. */
  lemma GapOutOfStep(w: QpWorld, start: nat)
    requires Agree(w, start) && w.qp < RTS && !HwOwned(w.s.ring[0]) && FwQp(w.s.served, start) == w.qp
    ensures Modify(w, GAP_SCHEDULE).qp == w.qp + 1 && FwQp(Modify(w, GAP_SCHEDULE).s.served, start) == w.qp
    ensures !InStep(Modify(w, GAP_SCHEDULE), start)
  {
    hide ExecuteCall, FwQp, ModifyCall, Agree, Sound, Shape, NextState, Flight;
    AgreeSound(w, start);
    var c := ModifyCall(w.qp + 1);
    GapAcceptsFailedDelivery(w.s, c);
    OrderlyCall(w.s, c, GAP_SCHEDULE);
    var r := ExecuteCall(w.s, c, GAP_SCHEDULE);
    EndedServed(r, w.s.served, w.s.drv.done);
    FwQpAppend(w.s.served, r.served[|w.s.served|], start);
  }

  /** A call that succeeded ended with one new answer. */
  lemma EndedServed(r: State, log: seq<Served>, past: seq<Done>)
    requires Ended(r, log, past) && r.drv.done[|r.drv.done| - 1].outcome.Success?
    ensures |r.served| == |log| + 1 && r.served == log + [r.served[|log|]]
  {
    hide Flight, Answers;
  }

  lemma NothingPending(s: State, target: nat, start: nat)
    requires target <= RTS && Sound(s) && s.drv.pc == Ready && !HwOwned(s.ring[0]) && FwQp(s.served, start) == target
    ensures Heading(s, target, target, start)
  {
    hide FwQp;
  }

  /** With the slot software-owned a repeat can only be answered again. */
  lemma RepeatedCallInStep(w: QpWorld, sched: Schedule, start: nat)
    requires Agree(w, start) && w.qp < RTS && !HwOwned(w.s.ring[0]) && FwQp(w.s.served, start) == w.qp + 1
    ensures InStep(Modify(w, sched), start)
  {
    hide ExecuteCall, ModifyCall, FwQp, Lost, Heading, Sound, FwRun;
    var target := w.qp + 1;
    AgreeSound(w, start);
    SoftwareOwnedIsQuiet(w.s, sched(0));
    NothingPending(w.s, target, start);
    CallKeepsHeading(w.s, sched, target, target, start);
    HeadingSound(ExecuteCall(w.s, ModifyCall(target), sched), target, target, start);
  }

  /** One call keeps the two states in step under every schedule exactly when the firmware
      has carried out the command already and no command is pending that it could take
      during the fill. A first attempt never is safe: the re-read gap is open to it. */
  lemma InStepExact(w: QpWorld, start: nat)
    requires Agree(w, start) && w.qp < RTS
    ensures (forall sched: Schedule :: InStep(Modify(w, sched), start))
            <==> FwQp(w.s.served, start) == w.qp + 1 && (!HwOwned(w.s.ring[0]) || w.s.fw.FwBusy?)
  {
    hide Modify, NoGap, FwQp, Lost, InStep, Heading;
    AgreeRange(w, start);
    if HwOwned(w.s.ring[0]) && w.s.fw.FwIdle? {
      HalfTakeOutOfStep(w, start);
    } else if FwQp(w.s.served, start) == w.qp {
      if HwOwned(w.s.ring[0]) {
        RefusalOutOfStep(w, start);
      } else {
        GapOutOfStep(w, start);
      }
    } else {
      forall sched: Schedule
        ensures InStep(Modify(w, sched), start)
      {
        if HwOwned(w.s.ring[0]) {
          RepeatedInStep(w, sched, start);
        } else {
          RepeatedCallInStep(w, sched, start);
        }
      }
    }
  }

  lemma AgreeRange(w: QpWorld, start: nat)
    requires Agree(w, start)
    ensures FwQp(w.s.served, start) == w.qp || FwQp(w.s.served, start) == w.qp + 1
  {
    hide FwQp, Heading, Sound, Lost;
  }

  // ---------------------------------------------------------------- these states are reached

  lemma FirstTimeout(entries: nat, dma: u64) returns (w: QpWorld)
    requires entries >= 1
    ensures var init := QpWorld(InitState(entries, dma), RESET);
            && w == Modify(init, SILENT) && Agree(w, RESET) && w.qp == RESET
            && HwOwned(w.s.ring[0]) && w.s.fw.FwIdle? && w.s.served == []
  {
    hide ExecuteCall, ModifyCall, Agree, FwQp, Flight, Sound;
    var init := QpWorld(InitState(entries, dma), RESET);
    StartAgrees(entries, dma);
    InitSound(entries, dma);
    SilentTimesOut(init.s, ModifyCall(INIT));
    w := Modify(init, SILENT);
    assert FwRun(init.s, SILENT(0)) == init.s;
    ModifyAgrees(init, SILENT, RESET);
  }

  /** From a fresh queue: one call whose failure slips through the gap, or a timeout and
      then a half-filled or a refused command, and the driver is ahead of the firmware. */
  lemma OutOfStepRuns(entries: nat, dma: u64)
    requires entries >= 1
    ensures var init := QpWorld(InitState(entries, dma), RESET);
            && !InStep(ModifyRun(init, [GAP_SCHEDULE]), RESET)
            && !InStep(ModifyRun(init, [SILENT, HALF_TAKE_SCHEDULE]), RESET)
            && !InStep(ModifyRun(init, [SILENT, STALE_SCHEDULE]), RESET)
  {
    hide Modify, Agree, InStep;
    var init := QpWorld(InitState(entries, dma), RESET);
    var w := FirstTimeout(entries, dma);
    OneCall(init, GAP_SCHEDULE);
    TwoCalls(init, SILENT, HALF_TAKE_SCHEDULE);
    TwoCalls(init, SILENT, STALE_SCHEDULE);
    StartAgrees(entries, dma);
    InitSound(entries, dma);
    GapOutOfStep(init, RESET);
    HalfTakeOutOfStep(w, RESET);
    RefusalOutOfStep(w, RESET);
  }

  lemma OneCall(w: QpWorld, a: Schedule)
    requires Shape(w.s) && w.s.drv.pc == Ready
    ensures ModifyRun(w, [a]) == Modify(w, a)
  {
    hide Modify;
    assert [a][..0] == [];
  }

  lemma TwoCalls(w: QpWorld, a: Schedule, b: Schedule)
    requires Shape(w.s) && w.s.drv.pc == Ready
    ensures ModifyRun(w, [a, b]) == Modify(Modify(w, a), b)
  {
    hide Modify;
    assert [a, b][..1] == [a];
    assert [a][..0] == [];
    assert ModifyRun(w, [a]) == Modify(ModifyRun(w, []), a);
  }

  /** The firmware takes the command and never answers it. */
  const TAKEN_SCHEDULE: Schedule := k => if k == 8 then [Take(0)] else []

  /** It answers the earlier command before the call, takes the new one and falls silent. */
  const RETAKEN_SCHEDULE: Schedule := k => if k == 0 then [Flip(0)] else if k == 8 then [Take(0)] else []

  /** After two such calls the firmware is busy with a repeat of a command it has carried
      out: the other way in which every schedule stays in step. */
  lemma BusyRepeatReached(entries: nat, dma: u64)
    requires entries >= 1
    ensures var w := ModifyRun(QpWorld(InitState(entries, dma), RESET), [TAKEN_SCHEDULE, RETAKEN_SCHEDULE]);
            && Agree(w, RESET) && w.qp < RTS
            && HwOwned(w.s.ring[0]) && w.s.fw.FwBusy? && FwQp(w.s.served, RESET) == w.qp + 1
  {
    hide Modify, Agree, FwQp;
    TwoCalls(QpWorld(InitState(entries, dma), RESET), TAKEN_SCHEDULE, RETAKEN_SCHEDULE);
    var v := FirstTaken(entries, dma);
    SecondTaken(v);
  }

  lemma FirstTaken(entries: nat, dma: u64) returns (v: QpWorld)
    requires entries >= 1
    ensures v == Modify(QpWorld(InitState(entries, dma), RESET), TAKEN_SCHEDULE)
    ensures Agree(v, RESET) && v.qp == RESET && v.s.served == []
    ensures v.s.fw.FwBusy? && v.s.fw.slot == 0 && v.s.fw.resp == Zeros(MAILBOX_SIZE)
    ensures v.s.fw.cmd == Wire(ModifyCall(INIT), v.s.drv.token)
  {
    hide ExecuteCall, ModifyCall, Agree, FwQp, Sound, Wire, NextToken;
    var init := QpWorld(InitState(entries, dma), RESET);
    StartAgrees(entries, dma);
    InitSound(entries, dma);
    assert FwRun(init.s, TAKEN_SCHEDULE(0)) == init.s;
    Unanswered(init.s, ModifyCall(INIT), TAKEN_SCHEDULE);
    OrderlyCall(init.s, ModifyCall(INIT), TAKEN_SCHEDULE);
    v := Modify(init, TAKEN_SCHEDULE);
    ModifyAgrees(init, TAKEN_SCHEDULE, RESET);
  }

  lemma SecondTaken(v: QpWorld)
    requires Agree(v, RESET) && v.qp == RESET && v.s.served == []
    requires v.s.fw.FwBusy? && v.s.fw.slot == 0 && v.s.fw.resp == Zeros(MAILBOX_SIZE)
    requires v.s.fw.cmd == Wire(ModifyCall(INIT), v.s.drv.token)
    ensures var w := Modify(v, RETAKEN_SCHEDULE);
            && Agree(w, RESET) && w.qp == RESET && HwOwned(w.s.ring[0]) && w.s.fw.FwBusy?
            && FwQp(w.s.served, RESET) == INIT
  {
    hide ExecuteCall, ModifyCall, Agree, Wire, Sound, NextToken, FwRun, FwQp;
    AgreeSound(v, RESET);
    var t := FwStep(v.s, Flip(0));
    FlipAlone(v.s);
    var sv := Served(v.s.fw.cmd, 0, v.s.fw.resp);
    ModifyOnTheWire(INIT, v.s.drv.token);
    FwQpAppend([], sv, RESET);
    assert [] + [sv] == [sv];
    Unanswered(v.s, ModifyCall(INIT), RETAKEN_SCHEDULE);
    ModifyAgrees(v, RETAKEN_SCHEDULE, RESET);
  }
}
