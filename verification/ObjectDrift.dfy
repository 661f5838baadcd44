/** The object table when commands time out or answers go astray: how far the driver's
    objects can drift from the firmware's table, for every schedule. */
module ObjectDrift {
  import opened Words
  import opened CmdProtocol
  import opened CmdRefinement
  import opened CmdOutcome
  import opened ObjectTable

  /** The handle an answered command created or destroyed. */
  function Touched(sv: Served): set<Handle> {
    if !WellSized(sv) || !Accepted(sv) then {}
    else
      match Decode(sv.cmd)
      case Create(k) => {(k, Be32(sv.resp, 16))}
      case Destroy(k, h) => {(k, h)}
      case Other => {}
  }

  function TouchedAll(log: seq<Served>): set<Handle> {
    if log == [] then {} else TouchedAll(log[..|log| - 1]) + Touched(log[|log| - 1])
  }

  /** The commands answered during a call. */
  function Answered(s: State, r: State): seq<Served> {
    if |s.served| <= |r.served| then r.served[|s.served|..] else []
  }

  /** The call of `c` returned the last answer, given for its own command. */
  predicate Backed(s: State, r: State, c: Call) {
    && Answered(s, r) != []
    && r.drv.done != []
    && var d, sv := r.drv.done[|r.drv.done| - 1], r.served[|r.served| - 1];
    && WellSized(sv)
    && sv.cmd == Wire(c, d.token)
    && d.outcome == Classify(c, sv.delivery, sv.resp)
  }

  /** The handle the driver starts or stops using in a successful verb. */
  function Recorded(w: World, op: VerbOp, r: State): set<Handle>
    requires Sends(w, op)
  {
    match op
    case CreateVerb(k, _, kept) =>
      if Returned(r).None? then {}
      else if k.MR? && !kept then {(k, Returned(r).value)}
      else {NameOf(Object(k, Stored(k, Returned(r).value)))}
    case DestroyVerb(id) => if Succeeded(r) then {NameOf(ObjectOf(w, id))} else {}
  }

  /** The verb's result rests on an answer of its own, and it is no second destroy. */
  predicate Sure(w: World, op: VerbOp, r: State)
    requires Sends(w, op)
  {
    Backed(w.s, r, CallOf(w, op)) && !Again(w, op)
  }

  /** What a verb leaves in doubt: the handles of the commands answered meanwhile whose
      answer is not its own, and, when it is not sure of its result, the handle it
      recorded. */
  function Doubts(w: World, op: VerbOp, sched: Schedule): set<Handle>
    requires Settled(w.s)
  {
    if !Sends(w, op) then {}
    else
      var r := Verb(w, op, sched).s;
      var answered := Answered(w.s, r);
      if Sure(w, op, r) then TouchedAll(answered[..|answered| - 1])
      else TouchedAll(answered) + Recorded(w, op, r)
  }

  /** The handles in doubt after a run. */
  function DoubtRun(w: World, jobs: seq<Job>): set<Handle>
    requires Settled(w.s)
  {
    if jobs == [] then {}
    else
      var front, j := jobs[..|jobs| - 1], jobs[|jobs| - 1];
      DoubtRun(w, front) + Doubts(VerbRun(w, front), j.op, j.sched)
  }

  /** Driver and firmware agree one to one on every handle not in doubt. */
  ghost predicate Drifted(table: set<Handle>, w: World, doubt: set<Handle>) {
    && (forall h :: h !in doubt ==> (h in table <==> h in Names(w.objs) || h in w.orphans))
    && (forall h :: h in Names(w.objs) && h in w.orphans ==> h in doubt)
    && (forall i, j :: i in w.objs && j in w.objs && i != j && NameOf(w.objs[i]) == NameOf(w.objs[j]) ==>
         NameOf(w.objs[i]) in doubt)
    && (forall i :: i in w.objs ==> i < w.next)
  }

  // ---------------------------------------------------------------- answers and the table

  lemma {:induction false} TableUntouched(log: seq<Served>, more: seq<Served>, h: Handle)
    requires h !in TouchedAll(more)
    ensures h in TableOf(log + more, 16) <==> h in TableOf(log, 16)
    decreases |more|
  {
    hide Decode, Be32;
    if more == [] {
      assert log + more == log;
    } else {
      var front, sv := more[..|more| - 1], more[|more| - 1];
      assert log + more == (log + front) + [sv];
      LogAppend(log + front, sv, 16);
      TableUntouched(log, front, h);
    }
  }

  lemma {:induction false} ServedGrowsRun(s: State, actions: seq<FwAction>)
    requires Shape(s)
    ensures s.served <= FwRun(s, actions).served
    decreases |actions|
  {
    hide Swap64, Swap32, Resolve;
    if actions != [] {
      ServedGrowsRun(FwStep(s, actions[0]), actions[1..]);
    }
  }

  lemma {:induction false} ServedGrows(s: State, sched: Schedule, k: nat)
    requires Shape(s)
    ensures s.served <= Execute(s, sched, k).served
    decreases Remaining(s.drv)
  {
    hide FwStep, DriverStep, Remaining;
    if s.drv.pc != Ready {
      ServedGrowsRun(s, sched(k));
      ServedGrows(Advance(s, sched(k)), sched, k + 1);
    }
  }

  lemma VerbServed(w: World, op: VerbOp, sched: Schedule)
    requires Settled(w.s)
    ensures var r := Verb(w, op, sched).s;
            && r.served == w.s.served + Answered(w.s, r)
            && (Sends(w, op) ==> r == ExecuteCall(w.s, CallOf(w, op), sched))
  {
    hide Execute, CreateCall, DestroyCall, HandleIn, NextToken;
    if Sends(w, op) {
      var c := CallOf(w, op);
      ServedGrowsRun(w.s, sched(0));
      ServedGrows(BeginCall(FwRun(w.s, sched(0)), c), sched, 1);
    }
  }

  // ---------------------------------------------------------------- one verb

  /** Changes confined to handles in doubt. */
  lemma DriftWidens(before: set<Handle>, after: set<Handle>, w: World, doubt: set<Handle>, more: set<Handle>)
    requires Drifted(before, w, doubt)
    requires forall h :: h !in more ==> (h in after <==> h in before)
    ensures Drifted(after, w, doubt + more)
  {
    hide Names, NameOf;
  }

  /** A new object under a handle that is in doubt or new to the table. */
  lemma DriftCreates(table: set<Handle>, w: World, o: Object, doubt: set<Handle>)
    requires Drifted(table, w, doubt) && (NameOf(o) in doubt || NameOf(o) !in table)
    ensures Drifted(table + {NameOf(o)}, w.(objs := w.objs[w.next := o], next := w.next + 1), doubt)
    ensures Drifted(table + {NameOf(o)}, w.(orphans := w.orphans + {NameOf(o)}), doubt)
  {
    hide NameOf;
    NamesInsert(w.objs, w.next, o);
    assert forall i :: i in w.objs ==> NameOf(w.objs[i]) in Names(w.objs);
  }

  /** An object goes, and with it the table's entry. */
  lemma DriftDestroys(table: set<Handle>, w: World, id: nat, doubt: set<Handle>)
    requires Drifted(table, w, doubt) && id in w.objs
    ensures Drifted(table - {NameOf(w.objs[id])}, w.(objs := w.objs - {id}), doubt)
  {
    hide NameOf;
    var n, less := NameOf(w.objs[id]), w.objs - {id};
    NamesInsert(less, id, w.objs[id]);
    assert less[id := w.objs[id]] == w.objs;
    assert n in Names(w.objs);
  }

  /** Only membership outside doubt matters. */
  lemma DriftIgnores(table: set<Handle>, other: set<Handle>, w: World, doubt: set<Handle>)
    requires Drifted(table, w, doubt) && forall h :: h !in doubt ==> (h in table <==> h in other)
    ensures Drifted(other, w, doubt)
  {
    hide Names, NameOf;
  }

  /** A verb sure of its result. */
  lemma BackedDrift(w: World, op: VerbOp, sched: Schedule, doubt: set<Handle>)
    requires Settled(w.s) && Sends(w, op) && Drifted(TableOf(w.s.served, 16), w, doubt)
    requires var r := Verb(w, op, sched).s; Sure(w, op, r) && ConformsAll(r.served, 16)
    ensures var r := Verb(w, op, sched); Drifted(TableOf(r.s.served, 16), r, doubt + Doubts(w, op, sched))
  {
    hide ExecuteCall, Drifted, TableOf, Wire, CreateCall, DestroyCall, HandleIn, Be32, Decode, CopyOut, Conforms,
         Accepted, Update, Stored;
    var r := Verb(w, op, sched).s;
    VerbServed(w, op, sched);
    var answered := Answered(w.s, r);
    var n := |answered| - 1;
    var mid, sv := w.s.served + answered[..n], answered[n];
    assert r.served == mid + [sv];
    LogAppend(mid, sv, 16);
    forall h | h !in TouchedAll(answered[..n])
      ensures h in TableOf(mid, 16) <==> h in TableOf(w.s.served, 16)
    {
      TableUntouched(w.s.served, answered[..n], h);
    }
    DriftWidens(TableOf(w.s.served, 16), TableOf(mid, 16), w, doubt, TouchedAll(answered[..n]));
    match op
    case CreateVerb(k, payload, kept) =>
      OwnCreate(w, k, payload, kept, r, sv, TableOf(mid, 16), doubt + TouchedAll(answered[..n]));
    case DestroyVerb(id) => OwnDestroy(w, id, r, sv, TableOf(mid, 16), doubt + TouchedAll(answered[..n]));
  }

  lemma OwnCreate(w: World, k: Kind, payload: seq<u8>, kept: bool, r: State, sv: Served, table: set<Handle>,
      doubt: set<Handle>)
    requires Drifted(table, w, doubt) && Conforms(table, sv, 16) && WellSized(sv) && r.drv.done != []
    requires var d := r.drv.done[|r.drv.done| - 1];
             sv.cmd == Wire(CreateCall(k, payload), d.token)
               && d.outcome == Classify(CreateCall(k, payload), sv.delivery, sv.resp)
    ensures Drifted(Update(table, sv, 16), AfterCreate(w, k, kept, r), doubt)
  {
    hide Drifted, Wire, Be32, Decode, CopyOut, HandleIn, Conforms, Update;
    CreateDecodes(k, payload, r.drv.done[|r.drv.done| - 1].token);
    HandleIsAt16(k, sv.resp);
    CreateOutLen(k, payload);
    SameObjects(table, w, AfterCreate(w, k, kept, r), r, doubt);
    if Accepted(sv) {
      var h := Be32(sv.resp, 16);
      AcceptedCreate(table, sv, k);
      DriftCreates(table, w, Object(k, Stored(k, h)), doubt);
      SameObjects(table + {(k, h)}, w.(objs := w.objs[w.next := Object(k, Stored(k, h))], next := w.next + 1),
                  AfterCreate(w, k, kept, r), r, doubt);
      SameObjects(table + {(k, h)}, w.(orphans := w.orphans + {(k, h)}), AfterCreate(w, k, kept, r), r, doubt);
    } else {
      RefusedUpdate(table, sv);
    }
  }

  lemma RefusedUpdate(table: set<Handle>, sv: Served)
    requires WellSized(sv) && !Accepted(sv)
    ensures Update(table, sv, 16) == table
  {
  }

  /** The queue's state is no part of the comparison. */
  lemma SameObjects(table: set<Handle>, w: World, v: World, r: State, doubt: set<Handle>)
    requires Drifted(table, w, doubt)
    ensures v == w.(s := r, gone := v.gone) ==> Drifted(table, v, doubt)
  {
  }

  lemma OwnDestroy(w: World, id: nat, r: State, sv: Served, table: set<Handle>, doubt: set<Handle>)
    requires Drifted(table, w, doubt) && id in w.objs && WellSized(sv) && r.drv.done != []
    requires var d, c := r.drv.done[|r.drv.done| - 1], CallOf(w, DestroyVerb(id));
             sv.cmd == Wire(c, d.token) && d.outcome == Classify(c, sv.delivery, sv.resp)
    ensures Drifted(Update(table, sv, 16), AfterDestroy(w, id, r), doubt)
  {
    hide Drifted, Wire, Be32, Decode, CopyOut, Update, DestroyCall;
    var o := w.objs[id];
    DestroyDecodes(o.kind, Named(o.kind, o.field), r.drv.done[|r.drv.done| - 1].token);
    AnsweredDestroy(table, sv, NameOf(o));
    SameObjects(table, w, w.(s := r), r, doubt);
    DriftDestroys(table, w, id, doubt);
    SameObjects(table - {NameOf(o)}, w.(objs := w.objs - {id}), AfterDestroy(w, id, r), r, doubt);
  }

  /** A verb not sure of its result. */
  lemma UnbackedDrift(w: World, op: VerbOp, sched: Schedule, doubt: set<Handle>)
    requires Settled(w.s) && Sends(w, op) && Drifted(TableOf(w.s.served, 16), w, doubt)
    requires !Sure(w, op, Verb(w, op, sched).s)
    ensures var r := Verb(w, op, sched); Drifted(TableOf(r.s.served, 16), r, doubt + Doubts(w, op, sched))
  {
    hide ExecuteCall, Drifted, TableOf, CreateCall, DestroyCall, HandleIn, Sure, Stored;
    var r := Verb(w, op, sched);
    VerbServed(w, op, sched);
    var answered := Answered(w.s, r.s);
    var more := TouchedAll(answered) + Recorded(w, op, r.s);
    forall h | h !in more
      ensures h in TableOf(r.s.served, 16) <==> h in TableOf(w.s.served, 16)
    {
      TableUntouched(w.s.served, answered, h);
    }
    var table, all := TableOf(r.s.served, 16), doubt + more;
    DriftWidens(TableOf(w.s.served, 16), table, w, doubt, more);
    SameObjects(table, w, r, r.s, all);
    match op
    case CreateVerb(k, payload, kept) =>
      if Returned(r.s).Some? {
        var h := Returned(r.s).value;
        if k.MR? && !kept {
          OrphanInDoubt(table, w, (k, h), all);
          SameObjects(table, w.(orphans := w.orphans + {(k, h)}), r, r.s, all);
        } else {
          var o := Object(k, Stored(k, h));
          DriftCreates(table, w, o, all);
          DriftIgnores(table + {NameOf(o)}, table, w.(objs := w.objs[w.next := o], next := w.next + 1), all);
          SameObjects(table, w.(objs := w.objs[w.next := o], next := w.next + 1), r, r.s, all);
        }
      }
    case DestroyVerb(id) =>
      if id in w.objs && Succeeded(r.s) {
        DriftDestroys(table, w, id, all);
        DriftIgnores(table - {NameOf(w.objs[id])}, table, w.(objs := w.objs - {id}), all);
        SameObjects(table, w.(objs := w.objs - {id}), r, r.s, all);
      }
  }

  lemma OrphanInDoubt(table: set<Handle>, w: World, h: Handle, doubt: set<Handle>)
    requires Drifted(table, w, doubt) && h in doubt
    ensures Drifted(table, w.(orphans := w.orphans + {h}), doubt)
  {
    hide Names, NameOf;
  }

  // ---------------------------------------------------------------- runs

  lemma VerbDrift(w: World, op: VerbOp, sched: Schedule, doubt: set<Handle>)
    requires Settled(w.s) && Drifted(TableOf(w.s.served, 16), w, doubt)
    requires ConformsAll(Verb(w, op, sched).s.served, 16)
    ensures var r := Verb(w, op, sched); Drifted(TableOf(r.s.served, 16), r, doubt + Doubts(w, op, sched))
  {
    hide Drifted, Sure, TableOf, ConformsAll;
    if !Sends(w, op) {
      assert Verb(w, op, sched) == w && doubt + {} == doubt;
    } else if Sure(w, op, Verb(w, op, sched).s) {
      BackedDrift(w, op, sched, doubt);
    } else {
      UnbackedDrift(w, op, sched, doubt);
    }
  }

  /** Over every run of create and destroy verbs and every schedule, timeouts, late
      flips, stale answers, half-filled commands and second destroys included, driver and
      firmware table agree one to one on all handles except those of commands whose
      answer no verb took for its own, and those of verbs not sure of their result. */
  lemma {:induction false} DriftBounded(w: World, jobs: seq<Job>)
    requires Settled(w.s) && Drifted(TableOf(w.s.served, 16), w, {})
    requires ConformsAll(VerbRun(w, jobs).s.served, 16)
    ensures var r := VerbRun(w, jobs); Drifted(TableOf(r.s.served, 16), r, DoubtRun(w, jobs))
    decreases |jobs|
  {
    hide Drifted, Verb, Doubts, ConformsAll, TableOf;
    if jobs != [] {
      var front, j := jobs[..|jobs| - 1], jobs[|jobs| - 1];
      var v := VerbRun(w, front);
      VerbServed(v, j.op, j.sched);
      var r := Verb(v, j.op, j.sched);
      ConformsPrefix(r.s.served, |v.s.served|, 16);
      assert r.s.served[..|v.s.served|] == v.s.served;
      DriftBounded(w, front);
      VerbDrift(v, j.op, j.sched, DoubtRun(w, front));
    }
  }

  /** A verb that starts software-owned, completes, and whose flip a poll saw leaves
      nothing in doubt, unless it is a second destroy. */
  lemma CleanNoDoubt(w: World, op: VerbOp, sched: Schedule)
    requires Idle(w) && Settled(w.s)
    requires Sends(w, op) ==> Clean(Verb(w, op, sched).s) && !Again(w, op)
    ensures Doubts(w, op, sched) == {}
  {
    hide ExecuteCall, Wire, Sound, CreateCall, DestroyCall, HandleIn, Classify, HwOwned, NextToken;
    if Sends(w, op) {
      VerbServed(w, op, sched);
      CleanIsBacked(w.s, CallOf(w, op), sched);
    }
  }

  lemma CleanIsBacked(s: State, c: Call, sched: Schedule)
    requires Sound(s) && s.drv.pc == Ready && !HwOwned(s.ring[0]) && Clean(ExecuteCall(s, c, sched))
    ensures var r := ExecuteCall(s, c, sched); Backed(s, r, c) && |Answered(s, r)| == 1
  {
    hide ExecuteCall, WireMailbox, Sound, CopyOut, Flight, NextToken, Classify;
    SoundShape(s);
    OrderlyCall(s, c, sched);
    var r := ExecuteCall(s, c, sched);
    assert r.served == s.served + [r.served[|s.served|]];
  }

  lemma StartDrifted(entries: nat, dma: u64)
    requires entries >= 1
    ensures var w := World(InitState(entries, dma), map[], 0, map[], {});
            Settled(w.s) && Drifted(TableOf(w.s.served, 16), w, {})
  {
  }

  // ---------------------------------------------------------------- how many

  function Owed(s: State): nat
    requires Shape(s)
  {
    if HwOwned(s.ring[0]) then 1 else 0
  }

  /** Answers given, answers the firmware may still give, and the hand-over to come. */
  function Credit(s: State): nat
    requires Shape(s)
  {
    |s.served| + Owed(s) + (if Filling(s.drv.pc) then 1 else 0)
  }

  lemma FirmwareSpends(s: State, a: FwAction)
    requires Sound(s)
    ensures Credit(FwStep(s, a)) <= Credit(s)
  {
    hide Swap64, Swap32, Resolve, MailboxDma;
  }

  lemma {:induction false} ActionsSpend(s: State, actions: seq<FwAction>)
    requires Sound(s)
    ensures Sound(FwRun(s, actions)) && Credit(FwRun(s, actions)) <= Credit(s)
    decreases |actions|
  {
    hide Sound, Credit, FwStep;
    SoundShape(s);
    if actions != [] {
      FirmwareKeepsSound(s, actions[0]);
      FirmwareSpends(s, actions[0]);
      SoundShape(FwStep(s, actions[0]));
      ActionsSpend(FwStep(s, actions[0]), actions[1..]);
    }
  }

  lemma DriverSpends(s: State)
    requires Shape(s)
    ensures Credit(DriverStep(s)) <= Credit(s)
  {
    hide Swap64, Swap32, MailboxDma, FillMail, CopyOut;
  }

  lemma {:induction false} ExecuteSpends(s: State, sched: Schedule, k: nat)
    requires Sound(s)
    ensures Shape(s) && Credit(Execute(s, sched, k)) <= Credit(s)
    decreases Remaining(s.drv)
  {
    hide Sound, Credit, FwStep, DriverStep;
    SoundShape(s);
    if s.drv.pc != Ready {
      ActionsSpend(s, sched(k));
      var t := FwRun(s, sched(k));
      SoundShape(t);
      DriverKeepsSound(t);
      DriverSpends(t);
      assert DriverStep(t) == Advance(s, sched(k));
      ExecuteSpends(DriverStep(t), sched, k + 1);
    }
  }

  /** During a call the firmware answers its command and the one pending, if any, and no
      other. */
  lemma AnsweredAtMost(s: State, c: Call, sched: Schedule)
    requires Sound(s) && s.drv.pc == Ready
    ensures Shape(s) && var r := ExecuteCall(s, c, sched); |r.served| + Owed(r) <= |s.served| + Owed(s) + 1
  {
    hide Sound, Execute, FwRun;
    SoundShape(s);
    ActionsSpend(s, sched(0));
    var t := FwRun(s, sched(0));
    BeginSpends(t, c);
    ExecuteSpends(BeginCall(t, c), sched, 1);
  }

  lemma BeginSpends(t: State, c: Call)
    requires Sound(t) && t.drv.pc == Ready
    ensures Sound(BeginCall(t, c)) && Credit(BeginCall(t, c)) == Credit(t) + 1
  {
    hide Swap64, MailboxDma;
  }

  lemma {:induction false} TouchedAtMost(log: seq<Served>)
    ensures |TouchedAll(log)| <= |log|
  {
    hide Decode, Be32, Accepted;
    if log != [] {
      var front, sv := log[..|log| - 1], log[|log| - 1];
      TouchedAtMost(front);
      assert |Touched(sv)| <= 1;
      UnionAtMost(TouchedAll(front), Touched(sv));
    }
  }

  lemma UnionAtMost<T>(a: set<T>, b: set<T>)
    ensures |a + b| <= |a| + |b|
  {
    assert a + b == a + (b - a);
    assert b == (b - a) + (b * a);
  }

  /** One verb: two handles at most when it is not sure of its result, and one less for
      every command that stays pending. */
  lemma DoubtsCounted(w: World, op: VerbOp, sched: Schedule)
    requires Settled(w.s) && Sound(w.s)
    ensures var r := Verb(w, op, sched).s;
            |Doubts(w, op, sched)| + Owed(r) <= Owed(w.s) + (if Sends(w, op) && !Sure(w, op, r) then 2 else 0)
  {
    hide ExecuteCall, Sound, Backed, Touched, CreateCall, DestroyCall;
    if Sends(w, op) {
      var r := Verb(w, op, sched).s;
      VerbServed(w, op, sched);
      AnsweredAtMost(w.s, CallOf(w, op), sched);
      var answered := Answered(w.s, r);
      if Sure(w, op, r) {
        SureAnswered(w, op, r);
        TouchedAtMost(answered[..|answered| - 1]);
      } else {
        TouchedAtMost(answered);
        assert |Recorded(w, op, r)| <= 1;
        UnionAtMost(TouchedAll(answered), Recorded(w, op, r));
      }
    }
  }

  lemma SureAnswered(w: World, op: VerbOp, r: State)
    requires Sends(w, op) && Sure(w, op, r)
    ensures Answered(w.s, r) != []
  {
  }

  /** How many verbs of a run were not sure of their result. */
  function Unsure(w: World, jobs: seq<Job>): nat
    requires Settled(w.s)
  {
    if jobs == [] then 0
    else
      var front, j := jobs[..|jobs| - 1], jobs[|jobs| - 1];
      var v := VerbRun(w, front);
      Unsure(w, front) + (if Sends(v, j.op) && !Sure(v, j.op, Verb(v, j.op, j.sched).s) then 1 else 0)
  }

  /** Over every run and schedule, the handles in doubt are at most two per verb that was
      not sure of its result, and one for a command pending at the start. */
  lemma {:induction false} DoubtCounted(w: World, jobs: seq<Job>)
    requires Settled(w.s) && Sound(w.s)
    ensures Sound(VerbRun(w, jobs).s)
    ensures |DoubtRun(w, jobs)| + Owed(VerbRun(w, jobs).s) <= Owed(w.s) + 2 * Unsure(w, jobs)
    decreases |jobs|
  {
    hide Verb, Doubts, Sure, Sound, Owed;
    if jobs != [] {
      var front, j := jobs[..|jobs| - 1], jobs[|jobs| - 1];
      var v := VerbRun(w, front);
      DoubtCounted(w, front);
      VerbGrows(v, j.op, j.sched);
      DoubtsCounted(v, j.op, j.sched);
      UnionAtMost(DoubtRun(w, front), Doubts(v, j.op, j.sched));
    }
  }

  // ---------------------------------------------------------------- one verb from agreement

  /** The verb reports a success that the firmware did not grant, or, for a second
      destroy, one that it did; a memory key already among the orphans changes nothing. */
  predicate Misled(w: World, op: VerbOp, r: State)
    requires Sends(w, op)
  {
    && Succeeded(r) && r.served != []
    && var granted := r.served[|r.served| - 1].delivery == 0;
    match op
    case CreateVerb(k, _, kept) =>
      !granted && !(k.MR? && !kept && Returned(r).Some? && (k, Returned(r).value) in w.orphans)
    case DestroyVerb(id) => if id in w.objs then !granted else granted
  }

  /** From agreement, one verb under any schedule, timeouts included, ends the one-to-one
      agreement exactly when it is misled. */
  lemma MatchesExact(w: World, op: VerbOp, sched: Schedule)
    requires Registered(w) && Settled(w.s) && Sends(w, op)
    requires ConformsAll(Verb(w, op, sched).s.served, 16)
    ensures var r := Verb(w, op, sched);
            Matches(TableOf(r.s.served, 16), r.objs, r.next, r.orphans) <==> !Misled(w, op, r.s)
  {
    hide ExecuteCall, Sound, CreateCall, DestroyCall, Matches, ConformsAll, TableOf, Wire, Returned, HwOwned,
         AnsweredOnce,
         Update, Conforms;
    var c := CallOf(w, op);
    var r := ExecuteCall(w.s, c, sched);
    var past := w.s.drv.done;
    OrderlyCall(w.s, c, sched);
    EndedKinds(r, w.s.served, past, c);
    if r.served == w.s.served {
      NotReturned(r);
    } else {
      OneAnswer(r, w.s.served, c);
      var sv := r.served[|w.s.served|];
      assert r.served == w.s.served + [sv];
      LogAppend(w.s.served, sv, 16);
      match op
      case CreateVerb(k, payload, kept) => CreateExact(w, k, payload, kept, r, sv);
      case DestroyVerb(id) => DestroyExact(w, id, r, sv);
    }
  }

  lemma NotReturned(r: State)
    requires !Succeeded(r)
    ensures Returned(r).None?
  {
  }

  /** A call from a software-owned slot times out unanswered, or returns one answer. */
  lemma EndedKinds(r: State, log: seq<Served>, past: seq<Done>, c: Call)
    requires Sound(r) && Ended(r, log, past) && r.drv.call == c
    ensures if r.served == log then !Succeeded(r)
            else AnsweredOnce(r, log, c)
  {
    hide WireMailbox, Sound, CopyOut;
    assert r.drv.done[..|past|] == past;
  }

  /** The one new answer, and what the call made of it. */
  predicate AnsweredOnce(r: State, log: seq<Served>, c: Call) {
    && |r.served| == |log| + 1 && r.drv.done != []
    && var sv, d := r.served[|log|], r.drv.done[|r.drv.done| - 1];
    && r.served == log + [sv] && WellSized(sv)
    && sv.cmd == Wire(c, d.token)
    && (Accepted(sv) ==> Succeeded(r))
    && (Succeeded(r) ==> sv.resp[0] == 0 && d.outcome == Success(CopyOut(sv.resp, c.outLen)))
  }

  lemma OneAnswer(r: State, log: seq<Served>, c: Call)
    requires AnsweredOnce(r, log, c)
    ensures |r.served| == |log| + 1 && r.served == log + [r.served[|log|]]
  {
  }

  /** A handle recorded although the table does not list it. */
  lemma FalseCreate(table: set<Handle>, w: World, o: Object)
    requires Matches(table, w.objs, w.next, w.orphans)
    ensures !Matches(table, w.objs[w.next := o], w.next + 1, w.orphans)
    ensures Matches(table, w.objs, w.next, w.orphans + {NameOf(o)}) <==> NameOf(o) in w.orphans
  {
    hide NameOf;
    NamesInsert(w.objs, w.next, o);
    if NameOf(o) in Names(w.objs) {
      var i :| i in w.objs && NameOf(w.objs[i]) == NameOf(o);
      var more := w.objs[w.next := o];
      assert i in more && w.next in more && i != w.next && NameOf(more[i]) == NameOf(more[w.next]);
    }
    if NameOf(o) in w.orphans {
      assert w.orphans + {NameOf(o)} == w.orphans;
    } else {
      assert NameOf(o) in w.orphans + {NameOf(o)};
    }
  }

  /** An object forgotten although the table still lists it. */
  lemma FalseDestroy(table: set<Handle>, w: World, id: nat)
    requires Matches(table, w.objs, w.next, w.orphans) && id in w.objs
    ensures !Matches(table, w.objs - {id}, w.next, w.orphans)
  {
    hide NameOf;
    NamesRemove(w.objs, id);
    assert NameOf(w.objs[id]) in Names(w.objs);
  }

  lemma CreateExact(w: World, k: Kind, payload: seq<u8>, kept: bool, r: State, sv: Served)
    requires Registered(w) && AnsweredOnce(r, w.s.served, CreateCall(k, payload)) && sv == r.served[|w.s.served|]
    requires Conforms(TableOf(w.s.served, 16), sv, 16)
    ensures var table, v := Update(TableOf(w.s.served, 16), sv, 16), AfterCreate(w, k, kept, r);
            Matches(table, v.objs, v.next, v.orphans) <==> !Misled(w, CreateVerb(k, payload, kept), r)
  {
    hide Sound, Wire, Be32, Decode, CopyOut, HandleIn, Conforms, Update, TableOf, Matches, ConformsAll, HwOwned;
    var table := TableOf(w.s.served, 16);
    CreateDecodes(k, payload, r.drv.done[|r.drv.done| - 1].token);
    HandleIsAt16(k, sv.resp);
    CreateOutLen(k, payload);
    var h := Be32(sv.resp, 16);
    var o := Object(k, Stored(k, h));
    if Accepted(sv) {
      AcceptedCreate(table, sv, k);
      MatchesCreate(table, w.objs, w.next, w.orphans, o);
    } else {
      RefusedUpdate(table, sv);
      if Succeeded(r) {
        FalseCreate(table, w, o);
        FalseOrphan(table, w, (k, h));
      }
    }
  }

  lemma FalseOrphan(table: set<Handle>, w: World, h: Handle)
    requires Matches(table, w.objs, w.next, w.orphans)
    ensures Matches(table, w.objs, w.next, w.orphans + {h}) <==> h in w.orphans
  {
    hide NameOf, Names;
    if h in w.orphans {
      assert w.orphans + {h} == w.orphans;
    } else {
      assert h in w.orphans + {h};
    }
  }

  lemma DestroyExact(w: World, id: nat, r: State, sv: Served)
    requires Registered(w) && (id in w.objs || id in w.gone)
    requires AnsweredOnce(r, w.s.served, CallOf(w, DestroyVerb(id))) && sv == r.served[|w.s.served|]
    requires Conforms(TableOf(w.s.served, 16), sv, 16)
    ensures var table, v := Update(TableOf(w.s.served, 16), sv, 16), AfterDestroy(w, id, r);
            Matches(table, v.objs, v.next, v.orphans) <==> !Misled(w, DestroyVerb(id), r)
  {
    hide Sound, Wire, Be32, Decode, CopyOut, HandleIn, Update, TableOf, Matches, ConformsAll, HwOwned, DestroyCall;
    var table, o := TableOf(w.s.served, 16), ObjectOf(w, id);
    DestroyDecodes(o.kind, Named(o.kind, o.field), r.drv.done[|r.drv.done| - 1].token);
    AnsweredDestroy(table, sv, NameOf(o));
    if id in w.objs {
      MatchesDestroy(table, w.objs, w.next, w.orphans, id);
      FalseDestroy(table, w, id);
    } else if Accepted(sv) {
      assert NameOf(o) in table;
      MissingEntry(table, w, NameOf(o));
    }
  }

  lemma MissingEntry(table: set<Handle>, w: World, h: Handle)
    requires Matches(table, w.objs, w.next, w.orphans) && h in table
    ensures !Matches(table - {h}, w.objs, w.next, w.orphans)
  {
    hide NameOf, Names;
  }

  /** A run that drifts: the firmware fails to deliver a create, the driver takes it for
      a success and uses a handle the firmware never gave out. */
  lemma DriftRun(entries: nat, dma: u64)
    requires entries >= 1
    ensures var w := World(InitState(entries, dma), map[], 0, map[], {});
            var r := Verb(w, CreateVerb(PD, [], true), GAP_SCHEDULE);
            && ConformsAll(r.s.served, 16) && TableOf(r.s.served, 16) == {} && 0 in r.objs
            && !Matches(TableOf(r.s.served, 16), r.objs, r.next, r.orphans)
  {
    hide ExecuteCall, Sound, Wire, HandleIn, CopyOut, Matches, Registered, HwOwned;
    var w := World(InitState(entries, dma), map[], 0, map[], {});
    var op := CreateVerb(PD, [], true);
    var c := CallOf(w, op);
    StartRegistered(entries, dma);
    InitSound(entries, dma);
    GapAcceptsFailedDelivery(w.s, c);
    OrderlyCall(w.s, c, GAP_SCHEDULE);
    var r := ExecuteCall(w.s, c, GAP_SCHEDULE);
    EndedKinds(r, [], [], c);
    var sv := r.served[0];
    LogAppend([], sv, 16);
    assert [] + [sv] == [sv];
    HandleIsAt16(PD, sv.resp);
    MatchesExact(w, op, GAP_SCHEDULE);
  }
}
