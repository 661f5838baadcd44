/** Theorems about whole runs of the command queue: any number of calls, any
    interleaving of driver and firmware steps. */
module CmdRuns {
  import opened Words
  import Bits
  import opened Wrappers
  import opened CmdProtocol
  import opened CmdRefinement

  // ---------------------------------------------------------------- ownership

  /** With timeouts allowed, slot 0 is the only entry the firmware may own, it
      answers nothing while the entry is software-owned, and every other entry
      keeps its initial value. */
  lemma SingleOwner(entries: nat, dma: u64, steps: seq<Step>)
    requires entries >= 1
    ensures var r := Run(InitState(entries, dma), steps);
            && (forall i :: 0 <= i < |r.ring| && HwOwned(r.ring[i]) ==> i == 0)
            && (forall i :: 1 <= i < |r.ring| ==> r.ring[i] == INIT_ENTRY)
            && (r.fw.FwBusy? ==> r.fw.slot == 0 && HwOwned(r.ring[0]))
            && r.drv.polls <= MAX_POLLS
  {
    hide Swap64, Swap32, MailboxDma;
    RunSound(InitState(entries, dma), steps);
  }

  /** With an unmapped pool no run ever gets the firmware to take a command. */
  lemma {:induction false} UnmappedNeverTaken(entries: nat, steps: seq<Step>)
    requires entries >= 1
    ensures var r := Run(StartState(entries, None), steps);
            r.bus == None && r.fw == FwIdle && r.served == []
  {
    hide DriverStep;
    if steps != [] {
      UnmappedNeverTaken(entries, steps[..|steps| - 1]);
    }
  }

  ghost predicate NoTimeout(ds: seq<Done>) {
    forall i :: 0 <= i < |ds| ==> !ds[i].outcome.Timeout?
  }

  ghost predicate Paired(ds: seq<Done>, sv: seq<Served>) {
    |ds| == |sv| && forall i :: 0 <= i < |ds| ==> Answers(ds[i], sv[i])
  }

  /** The invariant of timeout-free runs. */
  ghost predicate Orderly(s: State) {
    && Sound(s)
    && var n := |s.drv.done|;
    && if s.drv.pc == Ready then
         !HwOwned(s.ring[0]) && s.fw.FwIdle? && Paired(s.drv.done, s.served)
       else
         && n <= |s.served| && Paired(s.drv.done, s.served[..n])
         && Own(s, s.served[..n])
         && (Filling(s.drv.pc) ==> !HwOwned(s.ring[0]))
  }

  lemma StepKeepsOrderly(s: State, step: Step)
    requires Orderly(s)
    requires NoTimeout(Apply(s, step).drv.done)
    ensures Orderly(Apply(s, step))
  {
    hide Orderly;
    OrderlyShape(s);
    match step {
      case Begin(c) => BeginOrderly(s, c);
      case Drive => DriverOrderly(s);
      case Device(a) => FirmwareOrderly(s, a);
    }
  }

  lemma OrderlyShape(s: State)
    requires Orderly(s)
    ensures Shape(s)
  {
  }

  lemma BeginOrderly(s: State, c: Call)
    requires Orderly(s)
    ensures Shape(s) && Orderly(BeginCall(s, c))
  {
    hide Answers, Sound;
    SoundShape(s);
    if s.drv.pc == Ready {
      assert s.served[..|s.drv.done|] == s.served;
      BeginOwn(s, c);
    }
  }

  lemma DriverOrderly(s: State)
    requires Orderly(s) && Shape(s) && NoTimeout(DriverStep(s).drv.done)
    ensures Orderly(DriverStep(s))
  {
    hide Answers, Own, Sound, DriverStep;
    DriverKeepsSound(s);
    if s.drv.pc == Ready {
      ReadyStays(s);
    } else if Filling(s.drv.pc) {
      FillOrderly(s);
    } else {
      DriveOrderly(s);
    }
  }

  lemma ReadyStays(s: State)
    requires Shape(s) && s.drv.pc == Ready
    ensures DriverStep(s) == s
  {
  }

  lemma FillOrderly(s: State)
    requires Orderly(s) && Shape(s) && Filling(s.drv.pc)
    ensures Orderly(DriverStep(s))
  {
    hide Answers, Own, Sound, FillHeader, CopyPayload, FillRingEntry;
    DriverKeepsSound(s);
    FillKeepsOwn(s, s.served[..|s.drv.done|]);
  }

  lemma FirmwareOrderly(s: State, a: FwAction)
    requires Orderly(s)
    ensures Shape(s) && Orderly(FwStep(s, a))
  {
    hide Answers, Own, Resolve, Swap64, Swap32, MailboxDma;
    if s.drv.pc != Ready {
      DeviceOrderly(s, a);
    }
  }

  lemma DeviceOrderly(s: State, a: FwAction)
    requires Orderly(s) && s.drv.pc != Ready
    ensures Orderly(FwStep(s, a))
  {
    hide Own, Sound, Answers;
    var log := s.served[..|s.drv.done|];
    SoundShape(s);
    FirmwareKeepsSound(s, a);
    FirmwareKeepsOwn(s, a, log);
    OwnLog(FwStep(s, a), log);
  }

  lemma OwnLog(s: State, log: seq<Served>)
    requires Own(s, log)
    ensures |log| <= |s.served| && s.served[..|log|] == log
  {
  }

  lemma DriveOrderly(s: State)
    requires Orderly(s) && s.drv.pc != Ready && !Filling(s.drv.pc)
    requires Sound(DriverStep(s)) && NoTimeout(DriverStep(s).drv.done)
    ensures Orderly(DriverStep(s))
  {
    hide Own, Sound, Answers, Flight;
    var n := |s.drv.done|;
    var log := s.served[..n];
    var r := DriverStep(s);
    WaitKeepsOwn(s, log);
    if r.drv.pc == Ready {
      forall i | 0 <= i < |r.drv.done|
        ensures Answers(r.drv.done[i], r.served[i])
      {
        if i < n { assert r.drv.done[i] == r.drv.done[..n][i] && r.served[i] == r.served[..n][i]; }
      }
    } else {
      OwnLog(r, log);
    }
  }

  lemma DoneGrows(s: State, step: Step)
    requires Shape(s)
    ensures |s.drv.done| <= |Apply(s, step).drv.done|
    ensures Apply(s, step).drv.done[..|s.drv.done|] == s.drv.done
  {
    hide Swap64, Swap32, FillMail, FillRing, CopyOut, MailboxDma;
  }

  lemma {:induction false} RunOrderly(s: State, steps: seq<Step>)
    requires Orderly(s) && NoTimeout(Run(s, steps).drv.done)
    ensures Orderly(Run(s, steps))
  {
    hide Sound, Own, Answers, Apply;
    SoundShape(s);
    if steps != [] {
      var front, last := steps[..|steps| - 1], steps[|steps| - 1];
      var t := Run(s, front);
      DoneGrows(t, last);
      assert forall i :: 0 <= i < |t.drv.done| ==> t.drv.done[i] == Run(s, steps).drv.done[..|t.drv.done|][i];
      RunOrderly(s, front);
      StepKeepsOrderly(t, last);
    }
  }

  /** In a timeout-free run the driver writes the slot only while the entry is
      software-owned and the firmware idle, the firmware works only after the
      hand-over, and between calls nothing is hardware-owned. */
  lemma ExclusiveOwnership(entries: nat, dma: u64, steps: seq<Step>)
    requires entries >= 1 && NoTimeout(Run(InitState(entries, dma), steps).drv.done)
    ensures var r := Run(InitState(entries, dma), steps);
            && (Filling(r.drv.pc) || r.drv.pc == Ready ==>
                 r.fw.FwIdle? && forall i :: 0 <= i < |r.ring| ==> !HwOwned(r.ring[i]))
            && (r.fw.FwBusy? ==> HwOwned(r.ring[0]) && r.drv.pc in {Doorbell, Poll, Reread})
            && (r.drv.pc in {Delivery, Response} ==> !HwOwned(r.ring[0]))
  {
    OrderlyInit(entries, dma);
    RunOrderly(InitState(entries, dma), steps);
    OrderlyOwnership(Run(InitState(entries, dma), steps));
  }

  lemma OrderlyOwnership(r: State)
    requires Orderly(r)
    ensures Filling(r.drv.pc) || r.drv.pc == Ready ==>
              r.fw.FwIdle? && forall i :: 0 <= i < |r.ring| ==> !HwOwned(r.ring[i])
    ensures r.fw.FwBusy? ==> HwOwned(r.ring[0]) && r.drv.pc in {Doorbell, Poll, Reread}
    ensures r.drv.pc in {Delivery, Response} ==> !HwOwned(r.ring[0])
  {
    hide Swap64, Swap32, MailboxDma, Wire, Prepared, Linked;
    assert forall i :: 1 <= i < |r.ring| ==> r.ring[i] == INIT_ENTRY && !HwOwned(r.ring[i]);
  }

  // ---------------------------------------------------------------- refinement

  /** The calls issued in a run, in program order. */
  function Issued(s: State, steps: seq<Step>): seq<Call>
    requires Shape(s)
  {
    if steps == [] then []
    else
      var front, last := steps[..|steps| - 1], steps[|steps| - 1];
      var before := Issued(s, front);
      if last.Begin? && Run(s, front).drv.pc == Ready then before + [last.call] else before
  }

  /** Token of the i-th command after initialisation. */
  function TokenAt(i: nat): u8 { i % 255 + 1 }

  /** The log of an atomic command interface: call `i` gets answer `i`. */
  function AtomicLog(calls: seq<Call>, answers: seq<Served>): seq<Done>
    requires |calls| == |answers|
    requires forall i :: 0 <= i < |answers| ==> |answers[i].resp| == MAILBOX_SIZE
  {
    seq(|calls|, i requires 0 <= i < |calls| =>
      Done(calls[i], TokenAt(i), true, Classify(calls[i], answers[i].delivery, answers[i].resp)))
  }

  /** Token counter and issue order, in every run. */
  ghost predicate Sequenced(s: State, calls: seq<Call>) {
    && |calls| == |s.drv.done| + (if s.drv.pc == Ready then 0 else 1)
    && (forall i :: 0 <= i < |s.drv.done| ==> s.drv.done[i].call == calls[i] && s.drv.done[i].token == TokenAt(i))
    && s.drv.nextToken == (if calls == [] then 0 else TokenAt(|calls| - 1))
    && (s.drv.pc != Ready ==> s.drv.call == calls[|calls| - 1] && s.drv.token == s.drv.nextToken)
  }

  lemma TokenStep(i: nat)
    ensures NextToken(TokenAt(i)) == TokenAt(i + 1)
    ensures NextToken(0) == TokenAt(0)
  {
    var q, r := i / 255, i % 255;
    Bits.DivMod(i, 255);
    if r < 254 {
      Bits.Unique(i + 1, 255, q, r + 1);
    } else {
      Bits.Unique(i + 1, 255, q + 1, 0);
    }
  }

  /** What one driver statement does to the call bookkeeping and the statistics. */
  lemma DriverEffect(s: State)
    requires Shape(s)
    ensures var v, w := s.drv, DriverStep(s).drv;
            && w.nextToken == v.nextToken && w.token == v.token && w.call == v.call
            && if v.pc != Ready && w.pc == Ready then
                 && |w.done| == |v.done| + 1 && w.done[..|v.done|] == v.done
                 && w.done[|v.done|].call == v.call && w.done[|v.done|].token == v.token
                 && var o := w.done[|v.done|].outcome;
                 && w.failed == (if o.Success? then v.failed else IncU32(v.failed))
                 && w.total == (if v.pc == Reread && !o.Timeout? then IncU32(v.total) else v.total)
                 && (v.pc == Reread || (v.pc == Response && !o.Timeout?))
               else
                 && w.done == v.done && w.failed == v.failed && (w.pc == Ready <==> v.pc == Ready)
                 && w.total == (if w.pc == Response then IncU32(v.total) else v.total)
  {
    hide Swap64, Swap32, FillMail, FillRing, CopyOut, MailboxDma, IncU32;
  }

  lemma SequencedStep(s: State, step: Step, calls: seq<Call>)
    requires Shape(s) && Sequenced(s, calls)
    ensures Sequenced(Apply(s, step), if step.Begin? && s.drv.pc == Ready then calls + [step.call] else calls)
  {
    hide DriverStep, FwStep, NextToken, TokenAt;
    if step.Drive? {
      DriverEffect(s);
      var v, w := s.drv, DriverStep(s).drv;
      assert forall i :: 0 <= i < |v.done| ==> w.done[i] == w.done[..|v.done|][i];
    }
    TokenStep(if calls == [] then 0 else |calls| - 1);
  }

  lemma {:induction false} RunSequenced(s: State, steps: seq<Step>)
    requires Shape(s) && s.drv.pc == Ready && s.drv.done == [] && s.drv.nextToken == 0
    ensures Sequenced(Run(s, steps), Issued(s, steps))
  {
    hide Apply, Sequenced;
    if steps != [] {
      var front, last := steps[..|steps| - 1], steps[|steps| - 1];
      RunSequenced(s, front);
      SequencedStep(Run(s, front), last, Issued(s, front));
    } else {
      SequencedStart(s);
    }
  }

  lemma SequencedStart(s: State)
    requires Shape(s) && s.drv.pc == Ready && s.drv.done == [] && s.drv.nextToken == 0
    ensures Sequenced(s, [])
  {
  }

  /** In every run from initialisation no command carries token 0, and any 255
      consecutive ones carry distinct tokens. */
  lemma TokensDistinct(entries: nat, dma: u64, steps: seq<Step>, i: nat, j: nat)
    requires entries >= 1
    requires i < j < i + 255 && j < |Run(InitState(entries, dma), steps).drv.done|
    ensures var ds := Run(InitState(entries, dma), steps).drv.done;
            ds[i].token == i % 255 + 1 && ds[i].token != 0 && ds[i].token != ds[j].token
  {
    hide Run, Issued;
    RunSequenced(InitState(entries, dma), steps);
    assert (j - i) % 255 != 0;
  }

  /** Refinement: when a timeout-free run is between calls and every owner flip
      was seen by a poll, the driver's log is that of an atomic interface, fed by
      firmware answers to exactly the commands issued, in order, each answer
      given once. */
  lemma CommandQueueRefinesAtomic(entries: nat, dma: u64, steps: seq<Step>)
    requires entries >= 1
    requires var r := Run(InitState(entries, dma), steps);
             && r.drv.pc == Ready && NoTimeout(r.drv.done)
             && forall i :: 0 <= i < |r.drv.done| ==> r.drv.done[i].seen
    ensures var s := InitState(entries, dma);
            var r, calls := Run(s, steps), Issued(s, steps);
            && |calls| == |r.served|
            && (forall i :: 0 <= i < |calls| ==>
                 |r.served[i].resp| == MAILBOX_SIZE && r.served[i].cmd == Wire(calls[i], TokenAt(i)))
            && r.drv.done == AtomicLog(calls, r.served)
  {
    hide Own, Sound, Classify, Wire;
    var s := InitState(entries, dma);
    OrderlyInit(entries, dma);
    RunOrderly(s, steps);
    RunSequenced(s, steps);
    var r, calls := Run(s, steps), Issued(s, steps);
    forall i | 0 <= i < |calls|
      ensures |r.served[i].resp| == MAILBOX_SIZE && r.served[i].cmd == Wire(calls[i], TokenAt(i))
      ensures r.drv.done[i] ==
                Done(calls[i], TokenAt(i), true, Classify(calls[i], r.served[i].delivery, r.served[i].resp))
    {
      assert Answers(r.drv.done[i], r.served[i]);
    }
  }

  /** The same, spelled out: in a timeout-free run with every flip seen, the i-th command
      the firmware answers carries token (i mod 255) + 1 and the header, clamped payload
      and lengths of the i-th call, and that call returns its delivery code, its status
      byte, or on success output bytes equal to the response bytes from 8 on. */
  lemma AnswersInFull(entries: nat, dma: u64, steps: seq<Step>, i: nat)
    requires entries >= 1
    requires var r := Run(InitState(entries, dma), steps);
             && r.drv.pc == Ready && NoTimeout(r.drv.done) && i < |r.drv.done|
             && forall i :: 0 <= i < |r.drv.done| ==> r.drv.done[i].seen
    ensures var s := InitState(entries, dma);
            var r, calls := Run(s, steps), Issued(s, steps);
            && i < |calls| && i < |r.served| && r.drv.done[i].call == calls[i]
            && InFull(calls[i], i % 255 + 1, r.served[i], r.drv.done[i].outcome)
  {
    hide Run, Issued, Wire, Classify, NoTimeout, InFull;
    var s := InitState(entries, dma);
    CommandQueueRefinesAtomic(entries, dma, steps);
    var r, calls := Run(s, steps), Issued(s, steps);
    AnswerInFull(calls[i], TokenAt(i), r.served[i], r.drv.done[i].outcome);
  }

  lemma OrderlyInit(entries: nat, dma: u64)
    requires entries >= 1
    ensures Orderly(InitState(entries, dma))
  {
    hide Swap64, Swap32, MailboxDma, Own, Answers;
  }

  // ---------------------------------------------------------------- statistics

  function Successes(ds: seq<Done>): nat {
    if ds == [] then 0 else Successes(ds[..|ds| - 1]) + if ds[|ds| - 1].outcome.Success? then 1 else 0
  }

  function Timeouts(ds: seq<Done>): nat {
    if ds == [] then 0 else Timeouts(ds[..|ds| - 1]) + if ds[|ds| - 1].outcome.Timeout? then 1 else 0
  }

  /** The counters modulo 2^32; a call between its re-read and its response is
      already in `total`. */
  ghost predicate Tallied(s: State) {
    var v := s.drv;
    && (Successes(v.done) + v.failed - |v.done|) % TWO_32 == 0
    && (v.total + Timeouts(v.done) - |v.done| - (if v.pc == Response then 1 else 0)) % TWO_32 == 0
  }

  lemma Congruent(a: int, b: u32)
    requires (a + b) % TWO_32 == 0
    ensures (a - 1 + IncU32(b)) % TWO_32 == 0
  {
  }

  lemma TalliedStep(s: State, step: Step)
    requires Shape(s) && Tallied(s)
    ensures Tallied(Apply(s, step))
  {
    hide DriverStep, FwStep, NextToken, IncU32;
    if step.Drive? {
      DriverEffect(s);
      var v, w := s.drv, DriverStep(s).drv;
      Congruent(Successes(v.done) - |v.done|, v.failed);
      if v.pc != Response { Congruent(Timeouts(v.done) - |v.done|, v.total); }
      if v.pc != Ready && w.pc == Ready {
        assert w.done[..|w.done| - 1] == v.done;
      }
    }
  }

  /** Over any run, whatever mix of timeouts, delivery errors and firmware errors:
      successes + failed = calls and total + timeouts = calls, modulo 2^32. */
  lemma {:induction false} StatisticsConserved(s: State, steps: seq<Step>)
    requires Shape(s) && s.drv.pc == Ready && s.drv.done == [] && s.drv.total == s.drv.failed == 0
    ensures Tallied(Run(s, steps))
  {
    hide Apply;
    if steps != [] {
      StatisticsConserved(s, steps[..|steps| - 1]);
      TalliedStep(Run(s, steps[..|steps| - 1]), steps[|steps| - 1]);
    }
  }

  // ---------------------------------------------------------------- schedules are runs

  function Devices(actions: seq<FwAction>): seq<Step> { seq(|actions|,
      i requires 0 <= i < |actions| => Device(actions[i])) }

  /** The interleaving that a schedule stands for. */
  function ExecuteSteps(s: State, sched: Schedule, k: nat): seq<Step>
    requires Shape(s)
    decreases Remaining(s.drv)
  {
    if s.drv.pc == Ready then [] else Devices(sched(k)) + [Drive] + ExecuteSteps(Advance(s, sched(k)), sched, k + 1)
  }

  lemma {:induction false} RunConcat(s: State, a: seq<Step>, b: seq<Step>)
    requires Shape(s)
    ensures Run(s, a + b) == Run(Run(s, a), b)
    decreases |b|
  {
    hide Apply;
    if b == [] {
      assert a + b == a;
    } else {
      assert (a + b)[..|a + b| - 1] == a + b[..|b| - 1];
      RunConcat(s, a, b[..|b| - 1]);
    }
  }

  lemma {:induction false} DevicesRun(s: State, actions: seq<FwAction>)
    requires Shape(s)
    ensures Run(s, Devices(actions)) == FwRun(s, actions)
    decreases |actions|
  {
    hide FwStep;
    if actions != [] {
      assert Devices(actions) == [Device(actions[0])] + Devices(actions[1..]);
      RunConcat(s, [Device(actions[0])], Devices(actions[1..]));
      assert Run(s, [Device(actions[0])]) == Apply(Run(s, []), Device(actions[0]));
      DevicesRun(FwStep(s, actions[0]), actions[1..]);
    }
  }

  lemma {:induction false} ExecuteIsRun(s: State, sched: Schedule, k: nat)
    requires Shape(s)
    ensures Run(s, ExecuteSteps(s, sched, k)) == Execute(s, sched, k)
    decreases Remaining(s.drv)
  {
    hide FwStep, DriverStep, Remaining;
    if s.drv.pc != Ready {
      var t := FwRun(s, sched(k));
      var rest := ExecuteSteps(Advance(s, sched(k)), sched, k + 1);
      DevicesRun(s, sched(k));
      RunConcat(s, Devices(sched(k)), [Drive] + rest);
      RunConcat(t, [Drive], rest);
      assert Run(t, [Drive]) == Apply(Run(t, []), Drive);
      assert Devices(sched(k)) + [Drive] + rest == Devices(sched(k)) + ([Drive] + rest);
      ExecuteIsRun(Advance(s, sched(k)), sched, k + 1);
    }
  }

  /** A scheduled call is one of the runs, so the theorems on runs apply to it. */
  lemma ScheduledCallIsRun(s: State, c: Call, sched: Schedule)
    requires Shape(s) && s.drv.pc == Ready
    ensures var b := BeginCall(FwRun(s, sched(0)), c);
            Run(s, Devices(sched(0)) + [Begin(c)] + ExecuteSteps(b, sched, 1)) == ExecuteCall(s, c, sched)
  {
    hide FwStep, DriverStep, BeginCall;
    var t := FwRun(s, sched(0));
    var b := BeginCall(t, c);
    DevicesRun(s, sched(0));
    RunConcat(s, Devices(sched(0)), [Begin(c)]);
    assert Run(t, [Begin(c)]) == Apply(Run(t, []), Begin(c));
    RunConcat(s, Devices(sched(0)) + [Begin(c)], ExecuteSteps(b, sched, 1));
    ExecuteIsRun(b, sched, 1);
  }
}
