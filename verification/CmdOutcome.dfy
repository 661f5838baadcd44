/** What one mlx5_cmd_exec call returns, for every starting state and every
    firmware schedule, and the two places where the answer can be wrong. */
module CmdOutcome {
  import opened Words
  import opened Wrappers
  import opened CmdProtocol
  import opened CmdRefinement
  import opened CmdRuns

  // ---------------------------------------------------------------- classification

  ghost predicate Watched(s: State) {
    && Sound(s)
    && var v, e := s.drv, s.ring[0];
    && v.pc != Ready
    && (v.seen ==> !HwOwned(e) && !Filling(v.pc) && v.pc != Doorbell && v.pc != Poll && v.pc != Delivery)
    && v.delivery == (if v.seen then e.status / 2 else 0)
    && (v.pc == Delivery || v.pc == Response ==> !HwOwned(e))
    && (v.pc == Response ==> v.delivery == 0)
    && ((v.pc == Reread || v.pc == Response) && !v.seen ==> v.polls == MAX_POLLS)
  }

  /** The outcome is decided by the entry and the output mailbox as they are on return. */
  ghost predicate Decided(r: State, past: seq<Done>, c: Call) {
    && Sound(r)
    && r.drv.pc == Ready
    && |r.drv.done| == |past| + 1 && r.drv.done[..|past|] == past
    && r.drv.polls <= 6000
    && var d, e := r.drv.done[|past|], r.ring[0];
    && d.call == c
    && (!d.seen ==> r.drv.polls == 6000)
    && (d.seen ==> !HwOwned(e))
    && d.outcome == if HwOwned(e) then Timeout
                    else Classify(c, if d.seen then e.status / 2 else 0, r.mail[1])
  }

  lemma DriverWatched(s: State)
    requires Watched(s)
    ensures var r := DriverStep(s);
            if r.drv.pc == Ready then Decided(r, s.drv.done, s.drv.call)
            else Watched(r) && r.drv.done == s.drv.done && r.drv.call == s.drv.call
  {
    hide Swap64, Swap32, MailboxDma, FillHeader, CopyPayload, CopyOut, Linked, FillRingEntry;
    DriverKeepsSound(s);
  }

  lemma {:induction false} ActionsWatched(s: State, actions: seq<FwAction>)
    requires Watched(s)
    ensures Watched(FwRun(s, actions))
    decreases |actions|
  {
    hide Swap64, Swap32, MailboxDma, Resolve, Linked;
    if actions != [] {
      FirmwareKeepsSound(s, actions[0]);
      ActionsWatched(FwStep(s, actions[0]), actions[1..]);
    }
  }

  lemma {:induction false} ExecuteDecided(s: State, sched: Schedule, k: nat)
    requires Watched(s)
    ensures Decided(Execute(s, sched, k), s.drv.done, s.drv.call)
    decreases Remaining(s.drv)
  {
    hide Decided, DriverStep, FwStep, Sound;
    assert Shape(s) && s.drv.pc != Ready by { WatchedShape(s); }
    var t := FwRun(s, sched(k));
    ActionsWatched(s, sched(k));
    DriverWatched(t);
    var r := DriverStep(t);
    assert r == Advance(s, sched(k));
    if r.drv.pc != Ready { ExecuteDecided(r, sched, k + 1); }
  }

  lemma WatchedShape(s: State)
    requires Watched(s)
    ensures Shape(s) && s.drv.pc != Ready
  {
  }

  /** For every reachable starting state, stale commands included, and every
      schedule, a call ends within 6000 polls. It times out exactly when the entry
      is hardware-owned at the re-read; otherwise it returns what the delivery code
      (if a poll saw the flip) and the output mailbox say. */
  lemma OutcomeExact(s: State, c: Call, sched: Schedule)
    requires Sound(s) && s.drv.pc == Ready
    ensures Decided(ExecuteCall(s, c, sched), s.drv.done, c)
  {
    ActionsKeepSound(s, sched(0));
    ExecuteDecided(BeginCall(FwRun(s, sched(0)), c), sched, 1);
  }

  // ---------------------------------------------------------------- what the polls see

  /** The state after `n` more driver statements. */
  function Advances(s: State, sched: Schedule, k: nat, n: nat): (r: State)
    requires Shape(s)
    ensures Shape(r)
    decreases n
  {
    if n == 0 then s else Advances(Advance(s, sched(k)), sched, k + 1, n - 1)
  }

  /** The entry is hardware-owned just before each of the next `n` driver statements. */
  ghost predicate OwnedBefore(s: State, sched: Schedule, k: nat, n: nat)
    requires Shape(s)
    decreases n
  {
    n == 0 || (HwOwned(FwRun(s, sched(k)).ring[0]) && OwnedBefore(Advance(s, sched(k)), sched, k + 1, n - 1))
  }

  /** Under `sched` a call of `c` from `s` has every one of its polls find the entry
      hardware-owned: the polls start after seven statements. */
  ghost predicate OwnedAtPolls(s: State, c: Call, sched: Schedule)
    requires Shape(s) && s.drv.pc == Ready
  {
    OwnedBefore(Advances(BeginCall(FwRun(s, sched(0)), c), sched, 1, 7), sched, 8, 6000)
  }

  /** The remaining statements up to the doorbell lead to the first poll. */
  lemma {:induction false} FillEnds(s: State, sched: Schedule, k: nat)
    requires Shape(s) && (Filling(s.drv.pc) || s.drv.pc == Doorbell) && s.drv.polls == 0 && !s.drv.seen
    ensures var t := Advances(s, sched, k, FillSteps(s.drv.pc) + 1);
            && t.drv.pc == Poll && t.drv.polls == 0 && !t.drv.seen
            && Execute(s, sched, k) == Execute(t, sched, k + FillSteps(s.drv.pc) + 1)
    decreases FillSteps(s.drv.pc)
  {
    hide FwRun, Execute, DriverStep;
    Disturbed(s, sched, k);
    var t := Advance(s, sched(k));
    FillAdvances(FwRun(s, sched(k)));
    if s.drv.pc != Doorbell {
      FillEnds(t, sched, k + 1);
    }
  }

  lemma FillAdvances(s: State)
    requires Shape(s) && (Filling(s.drv.pc) || s.drv.pc == Doorbell)
    ensures var v, w := s.drv, DriverStep(s).drv;
            && w == v.(pc := w.pc, doorbell := w.doorbell)
            && (v.pc == Doorbell ==> w.pc == Poll)
            && (v.pc != Doorbell ==> (Filling(w.pc) || w.pc == Doorbell) && FillSteps(w.pc) == FillSteps(v.pc) - 1)
  {
    hide FillMail, FillRing, Swap32;
  }

  /** A call remembers a flip exactly when one of its polls found it. */
  lemma {:induction false} PollsSeen(s: State, sched: Schedule, k: nat)
    requires Shape(s) && s.drv.pc == Poll && s.drv.polls < MAX_POLLS && !s.drv.seen
    ensures var ds := Execute(s, sched, k).drv.done;
            ds != [] && (ds[|ds| - 1].seen <==> !OwnedBefore(s, sched, k, MAX_POLLS - s.drv.polls))
    decreases MAX_POLLS - s.drv.polls
  {
    hide FwRun, FillMail, FillRing, FillNext, Execute, CopyOut;
    Disturbed(s, sched, k);
    var t := Advance(s, sched(k));
    assert t == DriverStep(FwRun(s, sched(k)));
    if t.drv.pc == Poll {
      PollsSeen(t, sched, k + 1);
    } else {
      TailSeen(t, sched, k + 1);
    }
  }

  lemma {:induction false} TailSeen(s: State, sched: Schedule, k: nat)
    requires Shape(s) && s.drv.pc in {Delivery, Reread, Response}
    ensures var ds := Execute(s, sched, k).drv.done;
            ds != [] && ds[|ds| - 1].seen == (s.drv.pc == Delivery || s.drv.seen)
    decreases Remaining(s.drv)
  {
    hide FwRun, FillMail, FillRing, FillNext, Execute, CopyOut;
    Disturbed(s, sched, k);
    var t := Advance(s, sched(k));
    assert t == DriverStep(FwRun(s, sched(k)));
    if t.drv.pc == Ready {
      CallReturned(t, sched, k + 1);
    } else {
      TailSeen(t, sched, k + 1);
    }
  }

  lemma SeenExact(s: State, c: Call, sched: Schedule)
    requires Shape(s) && s.drv.pc == Ready
    ensures var ds := ExecuteCall(s, c, sched).drv.done;
            ds != [] && (ds[|ds| - 1].seen <==> !OwnedAtPolls(s, c, sched))
  {
    hide FwRun, Execute, DriverStep, Advances, OwnedBefore;
    var b := BeginCall(FwRun(s, sched(0)), c);
    assert FillSteps(b.drv.pc) + 1 == 7;
    FillEnds(b, sched, 1);
    PollsSeen(Advances(b, sched, 1, 7), sched, 8);
  }

  // ---------------------------------------------------------------- the re-read gap

  /** In a call that starts software-owned and completes, a delivery error of the
      firmware turns into success exactly when the schedule keeps the entry
      hardware-owned at all 6000 polls (the flip lands between the last poll and the
      re-read) and the status byte is zero. */
  lemma DeliveryErrorLost(s: State, c: Call, sched: Schedule)
    requires Sound(s) && s.drv.pc == Ready && !HwOwned(s.ring[0])
    requires HwOwned(ExecuteCall(s, c, sched).ring[0]) == false
    ensures var r := ExecuteCall(s, c, sched);
            && |r.served| == |s.served| + 1 && |r.drv.done| == |s.drv.done| + 1
            && var d, sv := r.drv.done[|s.drv.done|], r.served[|s.served|];
            && |sv.resp| == MAILBOX_SIZE
            && (sv.delivery != 0 ==> (d.outcome.Success? <==> OwnedAtPolls(s, c, sched) && sv.resp[0] == 0))
  {
    hide Ended, ExecuteCall, OwnedAtPolls;
    OrderlyCall(s, c, sched);
    EndedAnswer(ExecuteCall(s, c, sched), s.served, s.drv.done);
    SeenExact(s, c, sched);
  }

  lemma EndedAnswer(r: State, log: seq<Served>, past: seq<Done>)
    requires Ended(r, log, past) && !HwOwned(r.ring[0])
    ensures |r.served| == |log| + 1 && |r.drv.done| == |past| + 1
    ensures var d, sv := r.drv.done[|past|], r.served[|log|];
            && |sv.resp| == MAILBOX_SIZE
            && (sv.delivery != 0 ==> (d.outcome.Success? <==> !d.seen && sv.resp[0] == 0))
  {
    hide CopyOut, Wire, Flight;
  }

  /** A call that starts software-owned refines one atomic firmware call. */
  lemma OrderlyCall(s: State, c: Call, sched: Schedule)
    requires Sound(s) && s.drv.pc == Ready && !HwOwned(s.ring[0])
    ensures var r := ExecuteCall(s, c, sched);
            Sound(r) && Ended(r, s.served, s.drv.done) && r.drv.call == c && r.drv.token == NextToken(s.drv.nextToken)
  {
    hide Ended, ExecuteCall;
    SoftwareOwnedIsQuiet(s, sched(0));
    CallRefinesAtomic(s, c, sched);
  }

  /** One driver statement before which the firmware does nothing. */
  lemma Undisturbed(s: State, sched: Schedule, k: nat)
    requires Shape(s) && s.drv.pc != Ready && sched(k) == []
    ensures Execute(s, sched, k) == Execute(DriverStep(s), sched, k + 1)
  {
  }

  /** The seven statements from clearing the mailboxes to the doorbell. */
  lemma UndisturbedFill(s: State, sched: Schedule, k: nat) returns (t: State)
    requires Shape(s) && s.drv.pc == ClearIn
    requires forall j :: k <= j < k + 7 ==> sched(j) == []
    ensures Shape(t) && Execute(s, sched, k) == Execute(t, sched, k + 7)
    ensures t == s.(ring := t.ring, mail := t.mail, drv := s.drv.(pc := Poll, doorbell := t.drv.doorbell))
    ensures HwOwned(t.ring[0]) && t.mail[1] == Zeros(MAILBOX_SIZE)
    ensures t.ring[0] == FillRingEntry(s.ring[0], s.dma, s.drv.call, s.drv.token).(status := 1)
  {
    hide Execute, FillHeader, CopyPayload, Swap64, Swap32, MailboxDma;
    t := s;
    for i := 0 to 7
      invariant Shape(t) && Execute(s, sched, k) == Execute(t, sched, k + i)
      invariant t == s.(ring := t.ring, mail := t.mail, drv := s.drv.(pc := t.drv.pc, doorbell := t.drv.doorbell))
      invariant t.drv.pc == [ClearIn, ClearOut, Header, Payload, FillEntry, HandOver, Doorbell, Poll][i]
      invariant i >= 2 ==> t.mail[1] == Zeros(MAILBOX_SIZE)
      invariant i <= 4 ==> t.ring == s.ring
      invariant i >= 5 ==>
        t.ring[0].(status := 1) == FillRingEntry(s.ring[0], s.dma, s.drv.call, s.drv.token).(status := 1)
      invariant i >= 6 ==> t.ring[0].status == 1
    {
      Undisturbed(t, sched, k + i);
      t := DriverStep(t);
    }
  }

  /** Polls of a hardware-owned entry until the loop gives up. */
  lemma UndisturbedPolls(s: State, sched: Schedule, k: nat) returns (t: State)
    requires Shape(s) && s.drv.pc == Poll && s.drv.polls < MAX_POLLS && HwOwned(s.ring[0])
    requires forall j :: k <= j < k + MAX_POLLS - s.drv.polls ==> sched(j) == []
    ensures Shape(t) && Execute(s, sched, k) == Execute(t, sched, k + MAX_POLLS - s.drv.polls)
    ensures t == s.(drv := s.drv.(pc := Reread, polls := MAX_POLLS))
  {
    hide Execute, FillMail, FillRing, FillNext;
    t := s;
    while t.drv.pc == Poll
      invariant s.drv.polls <= t.drv.polls <= MAX_POLLS && Shape(t)
      invariant t == s.(drv := s.drv.(pc := t.drv.pc, polls := t.drv.polls))
      invariant t.drv.pc == if t.drv.polls < MAX_POLLS then Poll else Reread
      invariant Execute(s, sched, k) == Execute(t, sched, k + t.drv.polls - s.drv.polls)
      decreases MAX_POLLS - t.drv.polls
    {
      Undisturbed(t, sched, k + t.drv.polls - s.drv.polls);
      t := DriverStep(t);
    }
  }

  /** A firmware that does nothing. */
  const SILENT: Schedule := k => []

  /** A call to which the firmware does not respond: after what happens before the call
      it takes the command at once or not at all. */
  lemma Unanswered(s: State, c: Call, sched: Schedule)
    requires Sound(s) && s.drv.pc == Ready && !HwOwned(FwRun(s, sched(0)).ring[0])
    requires sched(8) == [] || sched(8) == [Take(0)]
    requires forall k :: k >= 1 && k != 8 ==> sched(k) == []
    ensures var t, r := FwRun(s, sched(0)), ExecuteCall(s, c, sched);
            && HwOwned(r.ring[0]) && r.served == t.served && (r.fw.FwBusy? <==> sched(8) != [])
            && (r.fw.FwBusy? ==> r.fw.slot == 0 && r.fw.resp == Zeros(MAILBOX_SIZE))
            && r.drv.done == s.drv.done + [Done(c, NextToken(s.drv.nextToken), false, Timeout)]
  {
    hide Execute, FwRun, FillRingEntry, NextToken, MailboxDma, Swap64, Swap32;
    ActionsKeepSound(s, sched(0));
    var a := FwRun(s, sched(0));
    var t := UndisturbedFill(BeginCall(a, c), sched, 1);
    EntryLinks(a.ring[0], c, a.drv.nextToken, t);
    var u := TakenOrNot(t, sched);
    PollsOut(t, u, sched);
  }

  lemma EntryLinks(e: Entry, c: Call, last: u8, t: State)
    requires Shape(t) && t.ring[0] == FillRingEntry(e, t.dma, c, NextToken(last)).(status := 1)
    ensures Linked(t)
  {
    hide Swap64, Swap32, MailboxDma;
  }

  /** What the firmware does before the first poll. */
  lemma TakenOrNot(t: State, sched: Schedule) returns (u: State)
    requires Shape(t) && t.bus == Some(t.dma) && Linked(t) && t.fw.FwIdle? && HwOwned(t.ring[0])
    requires sched(8) == [] || sched(8) == [Take(0)]
    ensures Shape(u) && u == FwRun(t, sched(8)) && u == t.(fw := u.fw) && (u.fw.FwBusy? <==> sched(8) != [])
    ensures u.fw.FwBusy? ==> u.fw.slot == 0 && u.fw.resp == Zeros(MAILBOX_SIZE)
  {
    hide Swap64, Swap32, MailboxDma, Resolve;
    PointerResolves(t, 0);
    PointerResolves(t, 1);
    u := if sched(8) == [] then t else FwStep(t, Take(0));
    assert FwRun(t, sched(8)) == u by { assert FwRun(u, []) == u; }
  }

  /** From the first poll on nothing happens. */
  lemma PollsOut(t: State, u: State, sched: Schedule)
    requires Shape(t) && Shape(u) && u == FwRun(t, sched(8)) && u == t.(fw := u.fw)
    requires t.drv.pc == Poll && t.drv.polls == 0 && !t.drv.seen && HwOwned(t.ring[0])
    requires forall k :: k >= 9 ==> sched(k) == []
    ensures var r := Execute(t, sched, 8);
            && HwOwned(r.ring[0]) && r.served == t.served && r.fw == u.fw
            && r.drv.done == t.drv.done + [Done(t.drv.call, t.drv.token, false, Timeout)]
  {
    hide Execute, FwRun, DriverStep, Remaining, Boxes;
    Disturbed(t, sched, 8);
    OnePoll(u);
    RestOut(DriverStep(u), sched);
  }

  lemma RestOut(x: State, sched: Schedule)
    requires Shape(x) && x.drv.pc == Poll && x.drv.polls == 1 && HwOwned(x.ring[0])
    requires forall k :: k >= 9 ==> sched(k) == []
    ensures var v, r := x.drv, Execute(x, sched, 9);
            r == x.(drv := r.drv) && r.drv.done == v.done + [Done(v.call, v.token, v.seen, Timeout)]
  {
    hide Execute, FwRun, DriverStep, Remaining, Boxes;
    var w := UndisturbedPolls(x, sched, 9);
    Undisturbed(w, sched, 8 + MAX_POLLS);
    GivesUp(w);
    CallReturned(DriverStep(w), sched, 9 + MAX_POLLS);
  }

  lemma OnePoll(u: State)
    requires Shape(u) && u.drv.pc == Poll && u.drv.polls == 0 && HwOwned(u.ring[0])
    ensures DriverStep(u) == u.(drv := u.drv.(polls := 1))
  {
  }

  lemma GivesUp(w: State)
    requires Shape(w) && w.drv.pc == Reread && HwOwned(w.ring[0])
    ensures var v := w.drv;
            && DriverStep(w) == w.(drv := DriverStep(w).drv) && DriverStep(w).drv.pc == Ready
            && DriverStep(w).drv.done == v.done + [Done(v.call, v.token, v.seen, Timeout)]
  {
  }

  /** With a silent firmware a call times out and stays in flight. */
  lemma SilentTimesOut(s: State, c: Call)
    requires Sound(s) && s.drv.pc == Ready && !HwOwned(s.ring[0])
    ensures var r := ExecuteCall(s, c, SILENT);
            && Sound(r) && r.drv.pc == Ready && HwOwned(r.ring[0]) && r.fw.FwIdle? && r.served == s.served
            && r.drv.done == s.drv.done + [Done(c, NextToken(s.drv.nextToken), false, Timeout)]
            && Flight(r, s.served) && r.drv.call == c && r.drv.token == NextToken(s.drv.nextToken)
  {
    hide ExecuteCall, Flight, Sound, NextToken;
    SoundShape(s);
    assert FwRun(s, SILENT(0)) == s;
    Unanswered(s, c, SILENT);
    OrderlyCall(s, c, SILENT);
    var r := ExecuteCall(s, c, SILENT);
    assert r.fw.FwIdle? by { assert !r.fw.FwBusy?; }
  }

  /** The firmware takes the command at once and reports delivery error 0x06
      after the last of the 6000 polls. */
  const GAP_SCHEDULE: Schedule :=
    k => if k == 8 then [Take(0)] else if k == 8 + MAX_POLLS then [Flip(6)] else []

  /** The gap is real: the driver reports success for a command whose delivery failed. */
  lemma GapAcceptsFailedDelivery(s: State, c: Call)
    requires Sound(s) && s.drv.pc == Ready && !HwOwned(s.ring[0])
    ensures var r := ExecuteCall(s, c, GAP_SCHEDULE);
            && r.drv.done != [] && r.drv.done[|r.drv.done| - 1].outcome.Success?
            && r.served != [] && r.served[|r.served| - 1].delivery == 6
  {
    hide Execute, FillHeader, CopyPayload, Swap64, Swap32, MailboxDma, Resolve, CopyOut, Remaining;
    var sched := GAP_SCHEDULE;
    assert FwRun(s, sched(0)) == s;
    var t := UndisturbedFill(BeginCall(s, c), sched, 1);
    PointerResolves(t, 0);
    PointerResolves(t, 1);
    Disturbed(t, sched, 8);
    var u := FwStep(t, Take(0));
    assert FwRun(t, sched(8)) == u by { assert FwRun(u, []) == u; }
    var w := UndisturbedPolls(DriverStep(u), sched, 9);
    Disturbed(w, sched, 8 + MAX_POLLS);
    var x := FwStep(w, Flip(6));
    assert FwRun(w, sched(8 + MAX_POLLS)) == x by { assert FwRun(x, []) == x; }
    var y := DriverStep(x);
    Undisturbed(y, sched, 9 + MAX_POLLS);
    CallReturned(DriverStep(y), sched, 10 + MAX_POLLS);
  }

  // ---------------------------------------------------------------- stale commands

  /** The call completed with the firmware's latest answer, given for its own command. */
  ghost predicate Faithful(s: State, c: Call, sched: Schedule)
    requires Sound(s) && s.drv.pc == Ready
  {
    var r := ExecuteCall(s, c, sched);
    r.drv.done != [] &&
    var d := r.drv.done[|r.drv.done| - 1];
    !d.outcome.Timeout? ==> r.served != [] && Answers(d, r.served[|r.served| - 1])
  }

  const STALE_SCHEDULE: Schedule :=
    k => if k == 0 then [Take(0), Write(0, 1)] else if k == 8 then [Flip(0)] else []

  /** A command left over from a timeout: the firmware answers it with an error
      status, the driver clears that answer while filling, and the flip that ends
      the old command completes the new call as a success. */
  lemma StaleAnswer(s: State, c: Call) returns (sv: Served)
    requires Sound(s) && s.drv.pc == Ready && HwOwned(s.ring[0])
    ensures var r := ExecuteCall(s, c, STALE_SCHEDULE);
            && r.served == s.served + [sv] && sv.delivery == 0 && |sv.resp| == MAILBOX_SIZE && sv.resp[0] == 1
            && r.drv.done != [] && r.drv.done[|r.drv.done| - 1].seen && r.drv.done[|r.drv.done| - 1].outcome.Success?
            && (Flight(s, s.served) ==> sv.cmd == Wire(s.drv.call, s.drv.token))
  {
    hide Execute, FillHeader, CopyPayload, Swap64, Swap32, MailboxDma, Resolve, CopyOut, FillRingEntry, Wire, Flight,
         FwRun;
    var sched := STALE_SCHEDULE;
    var b := RefusedBefore(s);
    var t := UndisturbedFill(BeginCall(b, c), sched, 1);
    var u := FwStep(t, Flip(0));
    FlipAlone(t);
    sv := Served(t.fw.cmd, 0, t.fw.resp);
    StaleTail(t, u, DriverStep(u), sched);
  }

  /** Before the call the firmware takes the pending entry, unless it has, and writes an
      error status. */
  lemma RefusedBefore(s: State) returns (b: State)
    requires Sound(s) && s.drv.pc == Ready && HwOwned(s.ring[0])
    ensures Shape(b) && b == FwRun(s, STALE_SCHEDULE(0)) && b == s.(mail := b.mail, fw := b.fw)
    ensures b.fw.FwBusy? && b.fw.slot == 0 && |b.fw.resp| == MAILBOX_SIZE && b.fw.resp[0] == 1
    ensures Flight(s, s.served) ==> b.fw.cmd == Wire(s.drv.call, s.drv.token)
  {
    hide Swap64, Swap32, MailboxDma, Resolve, Wire;
    PointerResolves(s, 0);
    PointerResolves(s, 1);
    var a := FwStep(s, Take(0));
    if Flight(s, s.served) {
      FirmwareKeepsFlight(s, Take(0), s.served);
    }
    b := FwStep(a, Write(0, 1));
    assert [Take(0), Write(0, 1)][1..] == [Write(0, 1)];
    assert FwRun(b, []) == b;
    assert FwRun(a, [Write(0, 1)]) == b;
  }

  lemma FlipAlone(t: State)
    requires Shape(t)
    ensures FwRun(t, [Flip(0)]) == FwStep(t, Flip(0))
  {
    assert FwRun(FwStep(t, Flip(0)), []) == FwStep(t, Flip(0));
  }

  lemma StaleAnswerAccepted(s: State, c: Call)
    requires Sound(s) && s.drv.pc == Ready && HwOwned(s.ring[0])
    ensures !Faithful(s, c, STALE_SCHEDULE)
  {
    hide ExecuteCall, CopyOut, Sound;
    var sv := StaleAnswer(s, c);
  }

  lemma StaleTail(t: State, u: State, w: State, sched: Schedule)
    requires Shape(t) && t.drv.pc == Poll && !t.drv.seen && t.drv.delivery == 0
    requires Shape(u) && u == FwRun(t, sched(8)) && u.drv == t.drv
    requires !HwOwned(u.ring[0]) && u.ring[0].status == 0 && u.mail[1] == Zeros(MAILBOX_SIZE)
    requires w == DriverStep(u) && forall k :: k >= 9 ==> sched(k) == []
    ensures var r := Execute(t, sched, 8);
            && r.served == u.served && r.drv.done != [] && r.drv.done[|r.drv.done| - 1].seen
            && r.drv.done[|r.drv.done| - 1].outcome == Success(CopyOut(u.mail[1], u.drv.call.outLen))
  {
    hide CopyOut, Execute, WaitStep, FwRun, FillMail, FillRing, FillNext, Remaining;
    WaitTail(u.drv, u.ring[0], u.mail[1]);
    Disturbed(t, sched, 8);
    Undisturbed(w, sched, 9);
    var x := DriverStep(w);
    Undisturbed(x, sched, 10);
    var y := DriverStep(x);
    Undisturbed(y, sched, 11);
    CallReturned(DriverStep(y), sched, 12);
  }

  lemma WaitTail(v: Driver, e: Entry, out: seq<u8>)
    requires v.pc == Poll && v.delivery == 0 && e.status == 0 && out == Zeros(MAILBOX_SIZE)
    ensures var x := WaitStep(v, e, out);
            var y := WaitStep(x, e, out);
            var z := WaitStep(y, e, out);
            var r := WaitStep(z, e, out);
            && x.pc == Delivery && y.pc == Reread && z.pc == Response && r.pc == Ready
            && r.done == v.done + [Done(v.call, v.token, true, Success(CopyOut(out, v.call.outLen)))]
  {
    hide CopyOut;
  }

  lemma Disturbed(s: State, sched: Schedule, k: nat)
    requires Shape(s) && s.drv.pc != Ready
    ensures Execute(s, sched, k) == Execute(DriverStep(FwRun(s, sched(k))), sched, k + 1)
  {
  }

  lemma CallReturned(s: State, sched: Schedule, k: nat)
    requires Shape(s) && s.drv.pc == Ready
    ensures Execute(s, sched, k) == s
  {
  }

  /** An end-to-end run: the first command times out and is refused when the second is
      sent; the second counts as a success although nothing but the first was answered. */
  lemma StaleRun(entries: nat, dma: u64, c1: Call, c2: Call) returns (steps: seq<Step>, sv: Served)
    requires entries >= 1
    ensures var r := Run(InitState(entries, dma), steps);
            && r.drv.pc == Ready && |r.drv.done| == 2
            && r.drv.done[0].call == c1 && r.drv.done[0].outcome == Timeout
            && r.drv.done[1].call == c2 && r.drv.done[1].outcome.Success?
            && r.served == [sv] && |sv.resp| == MAILBOX_SIZE && sv.resp[0] == 1 && sv.cmd == Wire(c1, 1)
  {
    hide ExecuteCall, Execute, Wire, Flight, Sound, Run, ExecuteSteps, NextToken;
    var s := InitState(entries, dma);
    assert Sound(s) && !HwOwned(s.ring[0]) by { InitSound(entries, dma); }
    SilentTimesOut(s, c1);
    var t := ExecuteCall(s, c1, SILENT);
    sv := StaleAnswer(t, c2);
    OutcomeExact(t, c2, STALE_SCHEDULE);
    DecidedAfter(t, c2, STALE_SCHEDULE);
    assert NextToken(0) == 1 by { FirstToken(); }
    ScheduledCallIsRun(s, c1, SILENT);
    ScheduledCallIsRun(t, c2, STALE_SCHEDULE);
    var first := Devices(SILENT(0)) + [Begin(c1)] + ExecuteSteps(BeginCall(FwRun(s, SILENT(0)), c1), SILENT, 1);
    var second := Devices(STALE_SCHEDULE(0)) + [Begin(c2)]
                  + ExecuteSteps(BeginCall(FwRun(t, STALE_SCHEDULE(0)), c2), STALE_SCHEDULE, 1);
    RunConcat(s, first, second);
    steps := first + second;
  }

  lemma FirstToken()
    ensures NextToken(0) == 1
  {
  }

  lemma InitSound(entries: nat, dma: u64)
    requires entries >= 1
    ensures var s := InitState(entries, dma); Sound(s) && s.drv.pc == Ready && !HwOwned(s.ring[0]) && s.fw.FwIdle?
  {
    hide Swap64, Swap32, MailboxDma, Linked, Zeros;
  }

  lemma DecidedAfter(s: State, c: Call, sched: Schedule)
    requires Shape(s) && s.drv.pc == Ready && Decided(ExecuteCall(s, c, sched), s.drv.done, c)
    ensures var ds := ExecuteCall(s, c, sched).drv.done;
            |ds| == |s.drv.done| + 1 && ds[..|s.drv.done|] == s.drv.done && ds[|s.drv.done|].call == c
  {
  }

  /** Exactly when the slot is software-owned at the start does every schedule
      give the call the answer to its own command. */
  lemma FaithfulIffSoftwareOwned(s: State, c: Call)
    requires Sound(s) && s.drv.pc == Ready
    ensures (forall sched: Schedule :: Faithful(s, c, sched)) <==> !HwOwned(s.ring[0])
  {
    if HwOwned(s.ring[0]) {
      StaleAnswerAccepted(s, c);
    } else {
      forall sched: Schedule
        ensures Faithful(s, c, sched)
      {
        OrderlyFaithful(s, c, sched);
      }
    }
  }

  lemma OrderlyFaithful(s: State, c: Call, sched: Schedule)
    requires Sound(s) && s.drv.pc == Ready && !HwOwned(s.ring[0])
    ensures Faithful(s, c, sched)
  {
    hide Answers, Sound, Flight, ExecuteCall;
    OrderlyCall(s, c, sched);
  }

  // ---------------------------------------------------------------- the unmapped pool

  /** A call with an unmapped pool: what the firmware tries has no effect. */
  ghost predicate Unreachable(s: State) {
    && Shape(s) && s.bus.None? && s.fw.FwIdle? && s.drv.pc != Ready
    && s.drv.pc != Delivery && s.drv.pc != Response
    && (s.drv.pc in {Doorbell, Poll, Reread} ==> HwOwned(s.ring[0]))
  }

  lemma {:induction false} UnreachableQuiet(s: State, actions: seq<FwAction>)
    requires Shape(s) && s.bus.None? && s.fw.FwIdle?
    ensures FwRun(s, actions) == s
    decreases |actions|
  {
    if actions != [] {
      assert FwStep(s, actions[0]) == s;
      UnreachableQuiet(s, actions[1..]);
    }
  }

  lemma {:induction false} UnreachableTimesOut(s: State, sched: Schedule, k: nat)
    requires Unreachable(s)
    ensures var ds := Execute(s, sched, k).drv.done; ds != [] && ds[|ds| - 1].outcome.Timeout?
    decreases Remaining(s.drv)
  {
    hide Execute, FwRun, FillMail, Swap64, Swap32, MailboxDma;
    UnreachableQuiet(s, sched(k));
    Disturbed(s, sched, k);
    var t := DriverStep(s);
    assert t == Advance(s, sched(k));
    if t.drv.pc == Ready {
      CallReturned(t, sched, k + 1);
    } else {
      UnreachableTimesOut(t, sched, k + 1);
    }
  }

  ghost predicate Completes(s: State, c: Call, sched: Schedule)
    requires Shape(s) && s.drv.pc == Ready
  {
    var ds := ExecuteCall(s, c, sched).drv.done;
    ds != [] && !ds[|ds| - 1].outcome.Timeout?
  }

  /** After initialisation some firmware can complete a call exactly when the pool's
      mapping succeeded; mlx5_cmd_init reports success either way. */
  lemma CompletesIffMapped(entries: nat, bus: Option<u64>, c: Call)
    requires entries >= 1
    ensures (exists sched: Schedule :: Completes(StartState(entries, bus), c, sched)) <==> bus.Some?
  {
    hide ExecuteCall;
    var s := StartState(entries, bus);
    if bus.Some? {
      InitSound(entries, bus.value);
      GapAcceptsFailedDelivery(s, c);
      assert Completes(s, c, GAP_SCHEDULE);
    } else {
      forall sched: Schedule
        ensures !Completes(s, c, sched)
      {
        UnmappedCall(entries, c, sched);
      }
    }
  }

  lemma UnmappedCall(entries: nat, c: Call, sched: Schedule)
    requires entries >= 1
    ensures !Completes(StartState(entries, None), c, sched)
  {
    hide Execute, FwRun;
    var s := StartState(entries, None);
    UnreachableQuiet(s, sched(0));
    UnreachableTimesOut(BeginCall(s, c), sched, 1);
  }
}
