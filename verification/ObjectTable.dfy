/** The verbs of kext/mlx5_verbs.cpp, mlx5_mr.cpp and mlx5_qp.cpp that create and
    destroy firmware objects, as a refinement of an abstract object table. */
module ObjectTable {
  import opened Words
  import opened Wrappers
  import opened CmdProtocol
  import opened CmdRefinement
  import opened CmdOutcome

  datatype Kind = PD | CQ | MR | QP

  type Handle = (Kind, u32)

  // ---------------------------------------------------------------- commands of the verbs

  function CreateOpcode(k: Kind): u16 {
    match k case PD => 0x200 case MR => 0x200 case CQ => 0x400 case QP => 0x500
  }

  function DestroyOpcode(k: Kind): u16 {
    match k case PD => 0x201 case MR => 0x201 case CQ => 0x401 case QP => 0x502
  }

  /** PDs share the memory-key opcodes and differ in op_mod. */
  function OpMod(k: Kind): u16 { if k.PD? then 1 else 0 }

  /** Size of the verb's output buffer. */
  function OutLen(k: Kind): u32 { if k.MR? || k.QP? then 64 else 16 }

  function CreateCall(k: Kind, payload: seq<u8>): Call {
    Call(CreateOpcode(k), OpMod(k), if k.PD? then [] else payload, OutLen(k))
  }

  function DestroyCall(k: Kind, handle: u32): Call {
    Call(DestroyOpcode(k), OpMod(k), Be32Bytes(handle), 16)
  }

  /** The handle a create verb reads: the swapped word at byte 8 of its output buffer. */
  function HandleIn(out: seq<u8>): u32
    requires |out| >= 12
  {
    assert Pow256(4) == TWO_32;
    Swap32(LeValue(out[8..12]))
  }

  /** The field the verb keeps: the handle, shifted left by 8 for a memory region. */
  function Stored(k: Kind, h: u32): u32 { if k.MR? then (h * 256) % TWO_32 else h }

  /** The handle the destroy verb derives from that field. */
  function Named(k: Kind, field: u32): u32 { if k.MR? then field / 256 else field }

  lemma NamedIsStored(k: Kind, h: u32)
    ensures Named(k, Stored(k, h)) == h <==> !k.MR? || h < 0x100_0000
    ensures !k.MR? ==> Stored(k, h) == h
    ensures k.MR? ==> Stored(k, h) % 0x100 == 0 && Stored(k, h) / 0x100 == h % 0x100_0000
  {
  }

  // ---------------------------------------------------------------- the firmware's table

  datatype Request = Create(kind: Kind) | Destroy(kind: Kind, handle: u32) | Other

  function Be32(m: seq<u8>, at: nat): u32
    requires at + 4 <= |m|
  {
    assert Pow256(4) == TWO_32;
    BeValue(m[at..at + 4])
  }

  function Decode(cmd: Command): Request
    requires |cmd.mailbox| == MAILBOX_SIZE
  {
    var op, mod := BeValue(cmd.mailbox[0..2]), BeValue(cmd.mailbox[6..8]);
    if op == 0x200 && mod == 1 then Create(PD)
    else if op == 0x200 && mod == 0 then Create(MR)
    else if op == 0x400 && mod == 0 then Create(CQ)
    else if op == 0x500 && mod == 0 then Create(QP)
    else if op == 0x201 && mod == 1 then Destroy(PD, Be32(cmd.mailbox, 16))
    else if op == 0x201 && mod == 0 then Destroy(MR, Be32(cmd.mailbox, 16))
    else if op == 0x401 && mod == 0 then Destroy(CQ, Be32(cmd.mailbox, 16))
    else if op == 0x502 && mod == 0 then Destroy(QP, Be32(cmd.mailbox, 16))
    else Other
  }

  predicate WellSized(sv: Served) { |sv.cmd.mailbox| == MAILBOX_SIZE && |sv.resp| == MAILBOX_SIZE }

  predicate Accepted(sv: Served)
    requires WellSized(sv)
  {
    sv.delivery == 0 && sv.resp[0] == 0
  }

  /** A firmware that keeps a table of objects and returns the handle of a new one
      as a big-endian word at response byte `at`. */
  predicate Conforms(table: set<Handle>, sv: Served, at: nat)
    requires at + 4 <= MAILBOX_SIZE
  {
    WellSized(sv) &&
    (Accepted(sv) ==>
      match Decode(sv.cmd)
      case Create(k) => (k, Be32(sv.resp, at)) !in table && (k.MR? ==> Be32(sv.resp, at) < 0x100_0000)
      case Destroy(k, h) => (k, h) in table
      case Other => true)
  }

  function Update(table: set<Handle>, sv: Served, at: nat): set<Handle>
    requires at + 4 <= MAILBOX_SIZE
  {
    if !WellSized(sv) || !Accepted(sv) then table
    else
      match Decode(sv.cmd)
      case Create(k) => table + {(k, Be32(sv.resp, at))}
      case Destroy(k, h) => table - {(k, h)}
      case Other => table
  }

  function TableOf(log: seq<Served>, at: nat): set<Handle>
    requires at + 4 <= MAILBOX_SIZE
  {
    if log == [] then {} else Update(TableOf(log[..|log| - 1], at), log[|log| - 1], at)
  }

  predicate ConformsAll(log: seq<Served>, at: nat)
    requires at + 4 <= MAILBOX_SIZE
  {
    log == [] || (ConformsAll(log[..|log| - 1], at) && Conforms(TableOf(log[..|log| - 1], at), log[|log| - 1], at))
  }

  // ---------------------------------------------------------------- verbs on the queue

  datatype Object = Object(kind: Kind, field: u32)

  /** `kept` is false when IOMalloc fails after CREATE_MKEY succeeded. */
  datatype VerbOp = CreateVerb(kind: Kind, payload: seq<u8>, kept: bool) | DestroyVerb(id: nat)

  /** `gone` are the destroyed objects with the field they keep; `orphans` are the firmware
      objects whose memory region was never handed out. */
  datatype World = World(s: State, objs: map<nat, Object>, next: nat, gone: map<nat, Object>, orphans: set<Handle>)

  ghost predicate Settled(s: State) { Shape(s) && s.drv.pc == Ready }

  function LastOutcome(s: State): Outcome
    requires s.drv.done != []
  {
    s.drv.done[|s.drv.done| - 1].outcome
  }

  predicate Succeeded(s: State) { s.drv.done != [] && LastOutcome(s).Success? }

  /** The handle a create verb gets from the call it just made, if it succeeded. */
  function Returned(s: State): Option<u32> {
    if Succeeded(s) && |LastOutcome(s).output| >= 12 then Some(HandleIn(LastOutcome(s).output)) else None
  }

  /** The driver's records once a create verb's call has led to queue state `t`. */
  function AfterCreate(w: World, k: Kind, kept: bool, t: State): World {
    if Returned(t).None? then w.(s := t)
    else
      var h := Returned(t).value;
      if k.MR? && !kept then w.(s := t, orphans := w.orphans + {(k, h)})
      else w.(s := t, objs := w.objs[w.next := Object(k, Stored(k, h))], next := w.next + 1)
  }

  /** The driver's records once a destroy verb's call has led to queue state `t`. The
      destroyed object keeps its field. */
  function AfterDestroy(w: World, id: nat, t: State): World {
    if id in w.objs && Succeeded(t) then w.(s := t, objs := w.objs - {id}, gone := w.gone[id := w.objs[id]])
    else w.(s := t)
  }

  /** A verb sends a command unless it names no object at all. */
  predicate Sends(w: World, op: VerbOp) { op.CreateVerb? || op.id in w.objs || op.id in w.gone }

  /** A destroy of an object that is gone already. */
  predicate Again(w: World, op: VerbOp) { op.DestroyVerb? && op.id !in w.objs && op.id in w.gone }

  function ObjectOf(w: World, id: nat): Object
    requires id in w.objs || id in w.gone
  {
    if id in w.objs then w.objs[id] else w.gone[id]
  }

  /** The call a verb makes. */
  function CallOf(w: World, op: VerbOp): Call
    requires Sends(w, op)
  {
    match op
    case CreateVerb(k, payload, _) => CreateCall(k, payload)
    case DestroyVerb(id) =>
      var o := ObjectOf(w, id);
      DestroyCall(o.kind, Named(o.kind, o.field))
  }

  function Verb(w: World, op: VerbOp, sched: Schedule): (r: World)
    requires Settled(w.s)
    ensures Settled(r.s)
  {
    if !Sends(w, op) then w
    else
      var t := ExecuteCall(w.s, CallOf(w, op), sched);
      match op
      case CreateVerb(k, _, kept) => AfterCreate(w, k, kept, t)
      case DestroyVerb(id) => AfterDestroy(w, id, t)
  }

  function NameOf(o: Object): Handle { (o.kind, Named(o.kind, o.field)) }

  function Names(objs: map<nat, Object>): set<Handle> {
    set id | id in objs :: NameOf(objs[id])
  }

  /** The objects, with the orphans, name exactly the entries of the table, one to one. */
  ghost predicate Matches(table: set<Handle>, objs: map<nat, Object>, next: nat, orphans: set<Handle>) {
    && table == Names(objs) + orphans
    && Names(objs) !! orphans
    && (forall i, j :: i in objs && j in objs && i != j ==> NameOf(objs[i]) != NameOf(objs[j]))
    && (forall i :: i in objs ==> i < next)
  }

  /** The driver's objects and the firmware's table agree. */
  ghost predicate Registered(w: World) {
    && Sound(w.s) && w.s.drv.pc == Ready && !HwOwned(w.s.ring[0])
    && ConformsAll(w.s.served, 16)
    && Matches(TableOf(w.s.served, 16), w.objs, w.next, w.orphans)
  }

  // ---------------------------------------------------------------- one verb

  /** A command is decoded as the request the verb meant. */
  lemma CreateDecodes(k: Kind, payload: seq<u8>, t: u8)
    ensures Decode(Wire(CreateCall(k, payload), t)) == Create(k)
  {
    hide BeValue, WireMailbox;
    WireFields(CreateCall(k, payload));
  }

  /** The header and lengths of every create command, and the empty input of a PD's. */
  lemma CreateInFull(k: Kind, payload: seq<u8>, t: u8)
    ensures var cmd := Wire(CreateCall(k, payload), t);
            && |cmd.mailbox| == 4096
            && BeValue(cmd.mailbox[0..2]) ==
               (match k case PD => 0x200 case MR => 0x200 case CQ => 0x400 case QP => 0x500)
            && BeValue(cmd.mailbox[6..8]) == (if k.PD? then 1 else 0)
            && cmd.outLen == (match k case PD => 16 case CQ => 16 case MR => 64 case QP => 64)
            && (k.PD? ==> cmd.mailbox[16..] == Zeros(4080))
            && (!k.PD? && |payload| <= 4080 ==> cmd.mailbox[16..] == payload + Zeros(4080 - |payload|))
  {
    hide BeValue, WireMailbox;
    var c := CreateCall(k, payload);
    var m := WireMailbox(c);
    WireFields(c);
    if |c.input| <= 4080 {
      assert m[16..] == m[16..16 + |c.input|] + m[16 + |c.input|..];
      assert c.input[..|c.input|] == c.input;
    }
  }

  /** The header of every destroy command and the handle, big-endian at byte 16. */
  lemma DestroyInFull(k: Kind, h: u32, t: u8)
    ensures var cmd := Wire(DestroyCall(k, h), t);
            && |cmd.mailbox| == 4096
            && BeValue(cmd.mailbox[0..2]) ==
               (match k case PD => 0x201 case MR => 0x201 case CQ => 0x401 case QP => 0x502)
            && BeValue(cmd.mailbox[6..8]) == (if k.PD? then 1 else 0)
            && BeValue(cmd.mailbox[16..20]) == h && cmd.mailbox[20..] == Zeros(4076) && cmd.outLen == 16
  {
    hide BeValue, WireMailbox, Be32Bytes;
    var c := DestroyCall(k, h);
    WireFields(c);
    assert c.input[..4] == c.input;
    Be32Reads(h);
  }

  lemma DestroyDecodes(k: Kind, h: u32, t: u8)
    ensures Decode(Wire(DestroyCall(k, h), t)) == Destroy(k, h)
  {
    hide BeValue, WireMailbox, Be32Bytes, BeBytes;
    var c := DestroyCall(k, h);
    WireFields(c);
    assert c.input[..4] == c.input;
    Be32Reads(h);
  }

  /** The handle a create verb reads is the big-endian word at response byte 16:
      eight bytes are dropped by the copy and eight more by the verb. */
  lemma HandleIsAt16(k: Kind, resp: seq<u8>)
    requires |resp| == MAILBOX_SIZE
    ensures |CopyOut(resp, OutLen(k))| >= 12
    ensures HandleIn(CopyOut(resp, OutLen(k))) == Be32(resp, 16)
  {
    hide LeValue, Reverse, LeBytes;
    var out := CopyOut(resp, OutLen(k));
    var n := Clamp(OutLen(k), MAILBOX_SIZE - 8);
    assert n >= 16 && out == resp[8..8 + n];
    SliceOfSlice(resp, 8, 8 + n, 8, 12);
    LoadSwapped(resp[16..20]);
  }

  lemma Be32Digits(m: seq<u8>, at: nat)
    requires at + 4 <= |m|
    ensures Be32(m, at) ==
            (m[at] as int) * 0x100_0000 + (m[at + 1] as int) * 0x1_0000 + (m[at + 2] as int) * 0x100 + m[at + 3]
  {
    var bs := m[at..at + 4];
    var r := Reverse(bs);
    assert r == [bs[3], bs[2], bs[1], bs[0]];
    assert LeValue(r) == r[0] + 256 * LeValue(r[1..]);
    assert LeValue(r[1..]) == r[1] + 256 * LeValue(r[1..][1..]);
    assert r[1..][1..] == [r[2], r[3]];
    assert LeValue([r[2], r[3]]) == r[2] + 256 * LeValue([r[3]]) by { assert [r[2], r[3]][1..] == [r[3]]; }
    assert LeValue([r[3]]) == r[3];
  }

  ghost predicate ReadsHandle(k: Kind, resp: seq<u8>, at: nat)
    requires at + 4 <= MAILBOX_SIZE
  {
    |resp| == MAILBOX_SIZE ==>
      var out := CopyOut(resp, OutLen(k));
      |out| >= 12 && HandleIn(out) == Be32(resp, at)
  }

  /** The documented offset 8 would not do: the verbs find the firmware's handle in
      every response exactly when the firmware puts it at byte 16. */
  lemma HandleOffsetExact(k: Kind, at: nat)
    requires at + 4 <= MAILBOX_SIZE
    ensures (forall resp: seq<u8> :: ReadsHandle(k, resp, at)) <==> at == 16
  {
    hide CopyOut, Be32, HandleIn;
    if at == 16 {
      forall resp: seq<u8>
        ensures ReadsHandle(k, resp, at)
      {
        if |resp| == MAILBOX_SIZE { HandleIsAt16(k, resp); }
      }
    } else {
      var resp := SetByte(Zeros(MAILBOX_SIZE), at, 1);
      HandleIsAt16(k, resp);
      Be32Digits(resp, at);
      Be32Digits(resp, 16);
      assert !ReadsHandle(k, resp, at);
    }
  }

  lemma NamesInsert(objs: map<nat, Object>, id: nat, o: Object)
    requires id !in objs
    ensures Names(objs[id := o]) == Names(objs) + {NameOf(o)}
  {
    var more := objs[id := o];
    forall h
      ensures h in Names(more) <==> h in Names(objs) + {NameOf(o)}
    {
      if h in Names(more) {
        var i :| i in more && NameOf(more[i]) == h;
        if i != id { assert i in objs; }
      }
      if h in Names(objs) {
        var i :| i in objs && NameOf(objs[i]) == h;
        assert i in more;
      }
      if h == NameOf(o) { assert id in more; }
    }
  }

  lemma NamesRemove(objs: map<nat, Object>, id: nat)
    requires id in objs
    requires forall i :: i in objs && i != id ==> NameOf(objs[i]) != NameOf(objs[id])
    ensures Names(objs - {id}) == Names(objs) - {NameOf(objs[id])}
  {
    var less := objs - {id};
    NamesInsert(less, id, objs[id]);
    assert less[id := objs[id]] == objs;
  }

  lemma LogAppend(log: seq<Served>, sv: Served, at: nat)
    requires at + 4 <= MAILBOX_SIZE
    ensures TableOf(log + [sv], at) == Update(TableOf(log, at), sv, at)
    ensures ConformsAll(log + [sv], at) <==> ConformsAll(log, at) && Conforms(TableOf(log, at), sv, at)
  {
    assert (log + [sv])[..|log|] == log;
  }

  /** No timeout, and the flip was seen by a poll: what the refinement assumes of a call. */
  predicate Clean(s: State) {
    s.drv.done != [] && !LastOutcome(s).Timeout? && s.drv.done[|s.drv.done| - 1].seen
  }

  /** A clean call appends one answer, given for its command, and succeeds exactly
      when the firmware accepted it. */
  lemma CleanCall(s: State, c: Call, sched: Schedule) returns (sv: Served)
    requires Sound(s) && s.drv.pc == Ready && !HwOwned(s.ring[0])
    requires Clean(ExecuteCall(s, c, sched))
    ensures var r := ExecuteCall(s, c, sched);
            && Sound(r) && r.drv.pc == Ready && !HwOwned(r.ring[0])
            && r.served == s.served + [sv] && WellSized(sv)
            && sv.cmd == Wire(c, NextToken(s.drv.nextToken))
            && (Succeeded(r) <==> Accepted(sv))
            && (Succeeded(r) ==> LastOutcome(r).output == CopyOut(sv.resp, c.outLen))
  {
    hide CopyOut, Sound, ExecuteCall, Flight, NextToken;
    SoundShape(s);
    OrderlyCall(s, c, sched);
    var r := ExecuteCall(s, c, sched);
    sv := r.served[|s.served|];
    hide WireMailbox;
    assert r.served == s.served + [sv];
  }

  lemma MatchesCreate(table: set<Handle>, objs: map<nat, Object>, next: nat, orphans: set<Handle>, o: Object)
    requires Matches(table, objs, next, orphans) && NameOf(o) !in table
    ensures Matches(table + {NameOf(o)}, objs[next := o], next + 1, orphans)
    ensures Matches(table + {NameOf(o)}, objs, next, orphans + {NameOf(o)})
  {
    hide NameOf;
    NamesInsert(objs, next, o);
    assert forall i :: i in objs ==> NameOf(objs[i]) in Names(objs);
  }

  lemma MatchesDestroy(table: set<Handle>, objs: map<nat, Object>, next: nat, orphans: set<Handle>, id: nat)
    requires Matches(table, objs, next, orphans) && id in objs
    ensures Matches(table - {NameOf(objs[id])}, objs - {id}, next, orphans)
  {
    hide NameOf;
    assert NameOf(objs[id]) in Names(objs);
    NamesRemove(objs, id);
  }

  lemma CreateRegisters(w: World, k: Kind, payload: seq<u8>, kept: bool, sched: Schedule)
    requires Registered(w)
    requires var r := Verb(w, CreateVerb(k, payload, kept), sched); Clean(r.s) && ConformsAll(r.s.served, 16)
    ensures Registered(Verb(w, CreateVerb(k, payload, kept), sched))
  {
    hide Sound, ExecuteCall, Wire, CreateCall, CopyOut, HandleIn, Be32, Names, Decode, Clean, HwOwned, Matches,
         Accepted, Conforms, NextToken, TableOf, Update, Stored;
    SoundShape(w.s);
    var sv := CleanCall(w.s, CreateCall(k, payload), sched);
    LogAppend(w.s.served, sv, 16);
    CreateDecodes(k, payload, NextToken(w.s.drv.nextToken));
    HandleIsAt16(k, sv.resp);
    CreateOutLen(k, payload);
    CreatedMatches(w, k, kept, Verb(w, CreateVerb(k, payload, kept), sched).s, sv);
  }

  /** The records of a create after its answer. */
  lemma CreatedMatches(w: World, k: Kind, kept: bool, t: State, sv: Served)
    requires var table := TableOf(w.s.served, 16); Matches(table, w.objs, w.next, w.orphans) && Conforms(table, sv, 16)
    requires WellSized(sv) && Decode(sv.cmd) == Create(k) && (Succeeded(t) <==> Accepted(sv))
    requires Succeeded(t) ==> Returned(t) == Some(Be32(sv.resp, 16))
    ensures var v := AfterCreate(w, k, kept, t);
            Matches(Update(TableOf(w.s.served, 16), sv, 16), v.objs, v.next, v.orphans)
  {
    hide Be32, Decode, Conforms, Matches, TableOf, Accepted;
    if Accepted(sv) {
      AcceptedCreate(TableOf(w.s.served, 16), sv, k);
      MatchesCreate(TableOf(w.s.served, 16), w.objs, w.next, w.orphans, Object(k, Stored(k, Be32(sv.resp, 16))));
    }
  }

  lemma AcceptedCreate(table: set<Handle>, sv: Served, k: Kind)
    requires Conforms(table, sv, 16) && Accepted(sv) && Decode(sv.cmd) == Create(k)
    ensures var h := Be32(sv.resp, 16);
            (k, h) !in table && Update(table, sv, 16) == table + {(k, h)} && NameOf(Object(k, Stored(k, h))) == (k, h)
  {
    hide Decode, Be32;
    NamedIsStored(k, Be32(sv.resp, 16));
  }

  lemma DestroyRegisters(w: World, id: nat, sched: Schedule)
    requires Registered(w) && id in w.objs
    requires var r := Verb(w, DestroyVerb(id), sched); Clean(r.s) && ConformsAll(r.s.served, 16)
    ensures Registered(Verb(w, DestroyVerb(id), sched))
  {
    hide Sound, ExecuteCall, Wire, DestroyCall, CopyOut, HandleIn, Be32, Names, Clean, HwOwned, Matches, Accepted,
         NextToken, Update, TableOf;
    SoundShape(w.s);
    var o := w.objs[id];
    var c := DestroyCall(o.kind, Named(o.kind, o.field));
    var sv := CleanCall(w.s, c, sched);
    LogAppend(w.s.served, sv, 16);
    DestroyDecodes(o.kind, Named(o.kind, o.field), NextToken(w.s.drv.nextToken));
    AnsweredDestroy(TableOf(w.s.served, 16), sv, NameOf(o));
    if Accepted(sv) {
      MatchesDestroy(TableOf(w.s.served, 16), w.objs, w.next, w.orphans, id);
    }
  }

  lemma AnsweredDestroy(table: set<Handle>, sv: Served, h: Handle)
    requires WellSized(sv) && Decode(sv.cmd) == Destroy(h.0, h.1)
    ensures Update(table, sv, 16) == if Accepted(sv) then table - {h} else table
  {
    hide Decode;
  }

  lemma CreateOutLen(k: Kind, payload: seq<u8>)
    ensures CreateCall(k, payload).outLen == OutLen(k)
  {
  }

  // ---------------------------------------------------------------- runs of verbs

  datatype Job = Job(op: VerbOp, sched: Schedule)

  function VerbRun(w: World, jobs: seq<Job>): (r: World)
    requires Settled(w.s)
    ensures Settled(r.s)
  {
    if jobs == [] then w
    else
      var j := jobs[|jobs| - 1];
      Verb(VerbRun(w, jobs[..|jobs| - 1]), j.op, j.sched)
  }

  /** Every call completed, and a poll saw its flip. */
  predicate CleanLog(ds: seq<Done>) {
    forall i :: 0 <= i < |ds| ==> !ds[i].outcome.Timeout? && ds[i].seen
  }

  /** A verb appends one finished call, or nothing when it has no object to destroy. */
  lemma VerbGrows(w: World, op: VerbOp, sched: Schedule)
    requires Settled(w.s) && Sound(w.s)
    ensures var r := Verb(w, op, sched);
            && (if Sends(w, op) then |r.s.drv.done| == |w.s.drv.done| + 1
              && r.s.drv.done[..|w.s.drv.done|] == w.s.drv.done
                else r == w)
            && Sound(r.s)
  {
    hide ExecuteCall, Sound, DestroyCall, CreateCall, HandleIn;
    if Sends(w, op) {
      OutcomeExact(w.s, CallOf(w, op), sched);
      DecidedLength(ExecuteCall(w.s, CallOf(w, op), sched), w.s.drv.done, CallOf(w, op));
    }
  }

  lemma DecidedLength(r: State, past: seq<Done>, c: Call)
    requires Decided(r, past, c)
    ensures Sound(r) && |r.drv.done| == |past| + 1 && r.drv.done[..|past|] == past
  {
  }

  ghost predicate Idle(w: World) {
    Sound(w.s) && w.s.drv.pc == Ready && !HwOwned(w.s.ring[0])
  }

  /** One clean verb keeps the queue idle and appends its answer. */
  lemma VerbKeepsIdle(w: World, op: VerbOp, sched: Schedule)
    requires Idle(w) && Settled(w.s)
    requires Sends(w, op) ==> Clean(Verb(w, op, sched).s)
    ensures var r := Verb(w, op, sched);
            && Idle(r)
            && (Sends(w, op) ==> |r.s.served| == |w.s.served| + 1 && r.s.served[..|w.s.served|] == w.s.served)
  {
    hide Sound, ExecuteCall, DestroyCall, CreateCall, HandleIn, Clean, HwOwned, CopyOut, Wire, NextToken;
    if Sends(w, op) {
      var sv := CleanCall(w.s, CallOf(w, op), sched);
    }
  }

  lemma VerbRegisters(w: World, op: VerbOp, sched: Schedule)
    requires Registered(w) && Settled(w.s)
    requires Sends(w, op) ==> Clean(Verb(w, op, sched).s)
    requires ConformsAll(Verb(w, op, sched).s.served, 16)
    requires !(Again(w, op) && Succeeded(Verb(w, op, sched).s))
    ensures Registered(Verb(w, op, sched))
  {
    hide Registered, Verb, ConformsAll, Clean, Succeeded;
    match op
    case CreateVerb(k, payload, kept) => CreateRegisters(w, k, payload, kept, sched);
    case DestroyVerb(id) =>
      if id in w.objs {
        DestroyRegisters(w, id, sched);
      } else if id in w.gone {
        SecondDestroyExact(w, id, sched);
      } else {
        VerbSkips(w, id, sched);
      }
  }

  /** A second destroy of one object keeps the agreement exactly when it fails; it
      succeeds when the firmware has given the handle to another object. */
  lemma SecondDestroyExact(w: World, id: nat, sched: Schedule)
    requires Registered(w) && id !in w.objs && id in w.gone
    requires var r := Verb(w, DestroyVerb(id), sched); Clean(r.s) && ConformsAll(r.s.served, 16)
    ensures Registered(Verb(w, DestroyVerb(id), sched)) <==> !Succeeded(Verb(w, DestroyVerb(id), sched).s)
  {
    hide Sound, ExecuteCall, Wire, DestroyCall, CopyOut, HandleIn, Be32, Names, Clean, HwOwned, Accepted,
         NextToken, Update, TableOf, Decode;
    SoundShape(w.s);
    var o := w.gone[id];
    var c := DestroyCall(o.kind, Named(o.kind, o.field));
    var sv := CleanCall(w.s, c, sched);
    LogAppend(w.s.served, sv, 16);
    DestroyDecodes(o.kind, Named(o.kind, o.field), NextToken(w.s.drv.nextToken));
    AnsweredDestroy(TableOf(w.s.served, 16), sv, NameOf(o));
    if Accepted(sv) {
      assert NameOf(o) in TableOf(w.s.served, 16);
    }
  }

  lemma VerbSkips(w: World, id: nat, sched: Schedule)
    requires Settled(w.s) && id !in w.objs && id !in w.gone
    ensures Verb(w, DestroyVerb(id), sched) == w
  {
  }

  lemma RegisteredIdle(w: World)
    requires Registered(w)
    ensures Idle(w) && Settled(w.s) && ConformsAll(w.s.served, 16)
  {
  }

  lemma CleanLast(s: State, t: State)
    requires CleanLog(t.drv.done) && |t.drv.done| == |s.drv.done| + 1 && t.drv.done[..|s.drv.done|] == s.drv.done
    ensures CleanLog(s.drv.done) && Clean(t)
  {
    assert forall i :: 0 <= i < |s.drv.done| ==> s.drv.done[i] == t.drv.done[..|s.drv.done|][i];
  }

  lemma {:induction false} ConformsPrefix(log: seq<Served>, n: nat, at: nat)
    requires n <= |log| && at + 4 <= MAILBOX_SIZE && ConformsAll(log, at)
    ensures ConformsAll(log[..n], at)
  {
    if n < |log| {
      assert log[..|log| - 1][..n] == log[..n];
      ConformsPrefix(log[..|log| - 1], n, at);
    } else {
      assert log[..n] == log;
    }
  }

  lemma {:induction false} RunStaysIdle(w: World, jobs: seq<Job>)
    requires Idle(w) && Settled(w.s) && CleanLog(VerbRun(w, jobs).s.drv.done)
    ensures Idle(VerbRun(w, jobs))
    decreases jobs
  {
    hide Idle, Verb, CleanLog, Clean;
    if jobs != [] {
      var v, j := VerbRun(w, jobs[..|jobs| - 1]), jobs[|jobs| - 1];
      RunStaysSound(w, jobs[..|jobs| - 1]);
      VerbGrows(v, j.op, j.sched);
      if Sends(v, j.op) { CleanLast(v.s, Verb(v, j.op, j.sched).s); }
      RunStaysIdle(w, jobs[..|jobs| - 1]);
      VerbKeepsIdle(v, j.op, j.sched);
    }
  }

  lemma {:induction false} RunStaysSound(w: World, jobs: seq<Job>)
    requires Settled(w.s) && Idle(w)
    ensures Sound(VerbRun(w, jobs).s)
  {
    hide Verb;
    if jobs != [] {
      RunStaysSound(w, jobs[..|jobs| - 1]);
      var j := jobs[|jobs| - 1];
      VerbGrows(VerbRun(w, jobs[..|jobs| - 1]), j.op, j.sched);
    }
  }

  /** No object is destroyed a second time with success. */
  predicate NoneTwice(w: World, jobs: seq<Job>)
    requires Settled(w.s)
  {
    jobs == [] ||
    var front, j := jobs[..|jobs| - 1], jobs[|jobs| - 1];
    && NoneTwice(w, front)
    && !(Again(VerbRun(w, front), j.op) && Succeeded(VerbRun(w, jobs).s))
  }

  /** The verb layer refines the object table. Over any run of create and destroy
      verbs without timeouts, late flips or successful second destroys, against a
      firmware that keeps a table and returns handles at byte 16, the driver's objects
      name exactly the live firmware objects, one to one; what is left over are the
      memory keys whose IOMalloc failed. */
  lemma {:induction false} VerbsRefineTable(w: World, jobs: seq<Job>)
    requires Registered(w) && Settled(w.s)
    requires CleanLog(VerbRun(w, jobs).s.drv.done) && ConformsAll(VerbRun(w, jobs).s.served, 16)
    requires NoneTwice(w, jobs)
    ensures Registered(VerbRun(w, jobs))
    decreases jobs
  {
    hide Registered, Verb, CleanLog, Clean, ConformsAll, Idle, Again, Succeeded;
    if jobs != [] {
      var front, j := jobs[..|jobs| - 1], jobs[|jobs| - 1];
      var v := VerbRun(w, front);
      RegisteredIdle(w);
      RunStaysSound(w, front);
      VerbGrows(v, j.op, j.sched);
      var r := Verb(v, j.op, j.sched);
      if Sends(v, j.op) { CleanLast(v.s, r.s); }
      RunStaysIdle(w, front);
      VerbKeepsIdle(v, j.op, j.sched);
      if Sends(v, j.op) { ConformsPrefix(r.s.served, |v.s.served|, 16); }
      VerbsRefineTable(w, front);
      VerbRegisters(v, j.op, j.sched);
    }
  }

  lemma StartRegistered(entries: nat, dma: u64)
    requires entries >= 1
    ensures var w := World(InitState(entries, dma), map[], 0, map[], {});
            Registered(w) && Settled(w.s)
  {
    hide Swap64, MailboxDma;
  }
}
