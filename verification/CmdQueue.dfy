/** mlx5_cmd_context and mlx5_cmd_exec, statement by statement, with the device
    that shares its memory. Every call is proved equal to the step system. */
module CmdQueue {
  import opened Words
  import opened Wrappers
  import opened Memory
  import opened CmdProtocol
  import opened CmdOutcome

  datatype IOReturn = KernSuccess | KernTimeout | KernError | KernNoMemory | KernNoResources

  class CmdContext {
    const ring: array<Entry>
    const pool: array<u8>
    const numEntries: nat
    const mboxDma: u64
    // Where the device reaches the pool.
    const poolBus: Option<u64>
    var doorbell: u32
    var nextToken: u8
    var totalCommands: u32
    var failedCommands: u32

    // The device side of the shared memory.
    var fw: Firmware
    var served: seq<Served>

    // The driver part of the step system: the counters above and the locals of a call.
    ghost var drv: Driver

    constructor (numEntries: nat, ring: array<Entry>, pool: array<u8>, mboxDma: u64, poolBus: Option<u64>)
      ensures this.numEntries == numEntries && this.ring == ring && this.pool == pool
      ensures this.mboxDma == mboxDma && this.poolBus == poolBus
      ensures doorbell == 0xFFFF_FFFF && nextToken == 0 && totalCommands == failedCommands == 0
      ensures fw == FwIdle && served == []
      ensures drv == Driver(0, 0, 0, 0xFFFF_FFFF, Ready, Call(0, 0, [], 0), 0, 0, false, 0, [])
    {
      this.numEntries, this.ring, this.pool, this.mboxDma, this.poolBus := numEntries, ring, pool, mboxDma, poolBus;
      doorbell, nextToken, totalCommands, failedCommands := 0xFFFF_FFFF, 0, 0, 0;
      fw, served := FwIdle, [];
      drv := Driver(0, 0, 0, 0xFFFF_FFFF, Ready, Call(0, 0, [], 0), 0, 0, false, 0, []);
    }

    ghost predicate Valid()
      reads this, ring, pool
    {
      && numEntries >= 1
      && ring.Length == numEntries
      && pool.Length == 2 * numEntries * MAILBOX_SIZE
      && (fw.FwBusy? ==> fw.slot < numEntries && fw.cmd.outBox < 2 * numEntries && |fw.resp| == MAILBOX_SIZE)
      && drv.nextToken == nextToken && drv.total == totalCommands && drv.failed == failedCommands
      && drv.doorbell == doorbell
    }

    /** The abstract state: the pool seen as mailboxes. */
    ghost function View(): (s: State)
      requires Valid()
      reads this, ring, pool
      ensures Shape(s) && |s.ring| == numEntries && s.dma == mboxDma && s.bus == poolBus
    {
      State(ring[..], Mail(), mboxDma, poolBus, fw, served, drv)
    }

    /** The pool as mailboxes. */
    ghost function Mail(): (m: seq<seq<u8>>)
      requires pool.Length == 2 * numEntries * MAILBOX_SIZE
      reads pool
      ensures |m| == 2 * numEntries && Boxes(m)
    {
      Blocks(pool[..], 2 * numEntries, MAILBOX_SIZE)
    }

    /** Writes `bs` at offset `off` of one mailbox. */
    method StoreInBox(box: nat, off: nat, bs: seq<u8>)
      requires pool.Length == 2 * numEntries * MAILBOX_SIZE && box < 2 * numEntries && off + |bs| <= MAILBOX_SIZE
      modifies pool
      ensures Mail() == old(Mail())[box := Put(old(Mail())[box], off, bs)]
    {
      PutInBlock(pool[..], 2 * numEntries, MAILBOX_SIZE, box, off, bs);
      Store(pool, box * MAILBOX_SIZE + off, bs);
    }

    /** The firmware takes a hardware-owned entry and reads its command. */
    method TakeEntry(i: nat)
      requires Valid()
      modifies this`fw
      ensures Valid() && View() == FwStep(old(View()), Take(i))
    {
      hide Swap64, Swap32, MailboxDma;
      if fw.FwIdle? && i < ring.Length && ring[i].status % 2 == 1 {
        var e := ring[i];
        var inBox, outBox := BoxAt(e.inPtr), BoxAt(e.outPtr);
        if inBox < 2 * numEntries && outBox < 2 * numEntries {
          BlockFits(2 * numEntries, MAILBOX_SIZE, inBox);
          var m := pool[inBox * MAILBOX_SIZE..inBox * MAILBOX_SIZE + MAILBOX_SIZE];
          fw := FwBusy(i, Command(Swap32(e.token), Swap32(e.inLen), m, outBox, Swap32(e.outLen)), Zeros(MAILBOX_SIZE));
        }
      }
    }

    /** The firmware writes one response byte. */
    method WriteResponse(pos: nat, val: u8)
      requires Valid()
      modifies this`fw, pool
      ensures Valid() && View() == FwStep(old(View()), Write(pos, val))
    {
      if fw.FwBusy? && pos < MAILBOX_SIZE {
        SetByteIsPut(Mail()[fw.cmd.outBox], pos, val);
        StoreInBox(fw.cmd.outBox, pos, [val]);
        fw := fw.(resp := SetByte(fw.resp, pos, val));
      }
    }

    /** The firmware gives the entry back with a delivery code. */
    method FlipOwner(d: nat)
      requires Valid()
      modifies this`fw, this`served, ring
      ensures Valid() && View() == FwStep(old(View()), Flip(d))
    {
      if fw.FwBusy? && d < 0x80 {
        var i := fw.slot;
        ring[i] := ring[i].(status := 2 * d);
        served := served + [Served(fw.cmd, d, fw.resp)];
        fw := FwIdle;
      }
    }

    /** The mailbox a stored pointer refers to, or 2 * numEntries. */
    function BoxAt(ptr: u64): (box: nat)
      requires Valid()
      reads this, ring, pool
      ensures box == Resolve(View(), ptr)
    {
      if poolBus.None? then 2 * numEntries
      else
        var off := (Swap64(ptr) - poolBus.value) % TWO_64;
        if off % MAILBOX_SIZE == 0 && off / MAILBOX_SIZE < 2 * numEntries then off / MAILBOX_SIZE else 2 * numEntries
    }

    /** What the firmware does between two driver statements. */
    method Interfere(actions: seq<FwAction>)
      requires Valid()
      modifies this`fw, this`served, ring, pool
      ensures Valid() && View() == FwRun(old(View()), actions)
    {
      hide FwStep;
      var i := 0;
      assert actions[0..] == actions;
      while i < |actions|
        invariant 0 <= i <= |actions| && Valid()
        invariant FwRun(View(), actions[i..]) == FwRun(old(View()), actions)
      {
        assert actions[i..][1..] == actions[i + 1..];
        match actions[i] {
          case Take(slot) => TakeEntry(slot);
          case Write(pos, val) => WriteResponse(pos, val);
          case Flip(d) => FlipOwner(d);
        }
        i := i + 1;
      }
    }

    /** Between calls, after sending `c` from state `before` under `sched`. */
    ghost predicate Sent(before: State, c: Call, sched: Schedule)
      requires Shape(before) && before.drv.pc == Ready
      reads this, ring, pool
    {
      Valid() && drv.pc == Ready && View() == ExecuteCall(before, c, sched)
    }

    // ---------------------------------------------------------------- mlx5_cmd_exec

    /** memset of a whole mailbox of slot 0. */
    method ClearBox(box: nat)
      requires Valid() && (if box == 0 then drv.pc == ClearIn else box == 1 && drv.pc == ClearOut)
      modifies this`drv, pool
      ensures Valid() && View() == DriverStep(old(View()))
    {
      assert Put(Mail()[box], 0, Zeros(MAILBOX_SIZE)) == Zeros(MAILBOX_SIZE);
      StoreInBox(box, 0, Zeros(MAILBOX_SIZE));
      drv := FillNext(drv);
    }

    method WriteHeader(opcode: u16, opMod: u16)
      requires Valid() && drv.pc == Header && drv.call.opcode == opcode && drv.call.opMod == opMod
      modifies this`drv, pool
      ensures Valid() && View() == DriverStep(old(View()))
    {
      hide Swap16, LeBytes;
      StoreInBox(0, 0, LeBytes(Swap16(opcode), 2));
      StoreInBox(0, 2, LeBytes(Swap16(UID_DRIVER), 2));
      StoreInBox(0, 6, LeBytes(Swap16(opMod), 2));
      drv := FillNext(drv);
    }

    method WritePayload(input: seq<u8>)
      requires Valid() && drv.pc == Payload && drv.call.input == input
      modifies this`drv, pool
      ensures Valid() && View() == DriverStep(old(View()))
    {
      var copyLen := |input|;
      if copyLen > MAILBOX_SIZE - 16 {
        copyLen := MAILBOX_SIZE - 16;
      }
      StoreInBox(0, 16, input[..copyLen]);
      drv := FillNext(drv);
    }

    method WriteEntry(token: u8, outLen: u32)
      requires Valid() && drv.pc == FillEntry && drv.token == token && drv.call.outLen == outLen
      modifies this`drv, ring
      ensures Valid() && View() == DriverStep(old(View()))
    {
      hide Swap64, Swap32, MailboxDma;
      var e := ring[0];
      e := e.(inPtr := Swap64(MailboxDma(mboxDma, 0)));
      e := e.(inLen := Swap32(MAILBOX_SIZE));
      e := e.(outPtr := Swap64(MailboxDma(mboxDma, 1)));
      e := e.(outLen := Swap32(if outLen > 0 then outLen else MAILBOX_SIZE));
      e := e.(token := Swap32(token));
      e := e.(signature := 0);
      ring[0] := e;
      drv := FillNext(drv);
    }

    method GiveToHardware()
      requires Valid() && drv.pc == HandOver
      modifies this`drv, ring
      ensures Valid() && View() == DriverStep(old(View()))
    {
      ring[0] := ring[0].(status := 1);
      drv := FillNext(drv);
    }

    method RingDoorbell()
      requires Valid() && drv.pc == Doorbell
      modifies this`drv, this`doorbell
      ensures Valid() && View() == DriverStep(old(View())) && doorbell == Swap32(1)
    {
      hide Swap32;
      doorbell := Swap32(1);
      drv := FillNext(drv);
    }

    /** Clearing both mailboxes, with the firmware free to act in between. */
    method ClearMailboxes(sched: Schedule)
      requires Valid() && drv.pc == ClearIn
      modifies this`drv, this`fw, this`served, ring, pool
      ensures Valid() && drv == old(drv).(pc := Header)
      ensures Execute(View(), sched, 3) == Execute(old(View()), sched, 1)
    {
      hide Execute, FwRun, DriverStep, Mail;
      Disturbed(View(), sched, 1);
      Interfere(sched(1));
      DriverFills(View());
      ClearBox(0);
      Disturbed(View(), sched, 2);
      Interfere(sched(2));
      DriverFills(View());
      ClearBox(1);
    }

    /** Writing the header and the payload. */
    method FillMailbox(opcode: u16, opMod: u16, input: seq<u8>, sched: Schedule)
      requires Valid() && drv.pc == Header
      requires drv.call.opcode == opcode && drv.call.opMod == opMod && drv.call.input == input
      modifies this`drv, this`fw, this`served, ring, pool
      ensures Valid() && drv == old(drv).(pc := FillEntry)
      ensures Execute(View(), sched, 5) == Execute(old(View()), sched, 3)
    {
      hide Execute, FwRun, DriverStep, Mail;
      Disturbed(View(), sched, 3);
      Interfere(sched(3));
      DriverFills(View());
      WriteHeader(opcode, opMod);
      Disturbed(View(), sched, 4);
      Interfere(sched(4));
      DriverFills(View());
      WritePayload(input);
    }

    /** Filling the ring entry and handing it over. */
    method SubmitEntry(outLen: u32, token: u8, sched: Schedule)
      requires Valid() && drv.pc == FillEntry && drv.call.outLen == outLen && drv.token == token
      modifies this`drv, this`doorbell, this`fw, this`served, ring, pool
      ensures Valid() && drv == old(drv).(pc := Doorbell)
      ensures Execute(View(), sched, 7) == Execute(old(View()), sched, 5)
    {
      hide Execute, FwRun, DriverStep, Mail;
      Disturbed(View(), sched, 5);
      Interfere(sched(5));
      DriverFills(View());
      WriteEntry(token, outLen);
      Disturbed(View(), sched, 6);
      Interfere(sched(6));
      DriverFills(View());
      GiveToHardware();
    }

    /** Ringing the doorbell. */
    method Notify(sched: Schedule)
      requires Valid() && drv.pc == Doorbell
      modifies this`drv, this`doorbell, this`fw, this`served, ring, pool
      ensures Valid() && drv == old(drv).(pc := Poll, doorbell := doorbell) && doorbell == Swap32(1)
      ensures Execute(View(), sched, 8) == Execute(old(View()), sched, 7)
    {
      hide Execute, FwRun, DriverStep, Mail, Swap32, Shape;
      Disturbed(View(), sched, 7);
      Interfere(sched(7));
      DriverFills(View());
      RingDoorbell();
    }

    /** The poll loop: true, with the delivery code, once the owner bit is clear;
        false after MAX_POLLS polls. `k` counts the statements scheduled so far. */
    method PollOwner(sched: Schedule) returns (deliveryStatus: nat, k: nat)
      requires Valid() && drv.pc == Poll && drv.polls == 0 && drv.delivery == 0
      modifies this`drv, this`fw, this`served, ring, pool
      ensures Valid() && drv.pc == Reread && drv.delivery == deliveryStatus
      ensures drv.call == old(drv.call)
      ensures Execute(View(), sched, k) == Execute(old(View()), sched, 8)
    {
      hide Execute, FwRun, Mail;
      deliveryStatus := 0;
      k := 8;
      var i := 0;
      while i < MAX_POLLS
        invariant 0 <= i <= MAX_POLLS && Valid() && drv.polls == i && drv.delivery == 0 && deliveryStatus == 0
        invariant drv.pc == if i < MAX_POLLS then Poll else Reread
        invariant drv.call == old(drv.call)
        invariant Execute(View(), sched, k) == Execute(old(View()), sched, 8)
      {
        Disturbed(View(), sched, k);
        Interfere(sched(k));
        var owner := ring[0].status % 2;
        ghost var next := WaitStep(drv, ring[0], View().mail[1]);
        drv := next;
        k := k + 1;
        if owner == 0 {
          deliveryStatus := ReadDelivery(sched, k);
          k := k + 1;
          break;
        }
        i := i + 1;
      }
    }

    /** The delivery code, read behind the owner bit. */
    method ReadDelivery(sched: Schedule, k: nat) returns (deliveryStatus: nat)
      requires Valid() && drv.pc == Delivery && drv.delivery == 0
      modifies this`drv, this`fw, this`served, ring, pool
      ensures Valid() && drv.pc == Reread && drv.delivery == deliveryStatus && drv.call == old(drv.call)
      ensures Execute(View(), sched, k + 1) == Execute(old(View()), sched, k)
    {
      hide Execute, FwRun, Mail;
      Disturbed(View(), sched, k);
      Interfere(sched(k));
      deliveryStatus := (ring[0].status / 2) % 0x80;
      drv := WaitStep(drv, ring[0], Mail()[1]);
    }

    /** mlx5_cmd_exec: send a command in slot 0 and poll for its completion. */
    method Exec(opcode: u16, opMod: u16, input: seq<u8>, out: array<u8>, outLen: u32, sched: Schedule)
      returns (ret: IOReturn, outStatus: u8)
      requires Valid() && drv.pc == Ready && outLen <= out.Length && out != pool
      modifies this, ring, pool, out
      ensures Valid()
      ensures View() == ExecuteCall(old(View()), Call(opcode, opMod, input, outLen), sched)
      ensures Reported(out, outLen, old(out[..]), ret, outStatus)
      ensures ret == KernSuccess ==> forall i :: 0 <= i < outLen && i < 4088 ==> out[i] == pool[4104 + i]
      ensures forall i :: 0 <= i < out.Length && (ret != KernSuccess || i >= outLen || i >= 4088) ==>
                out[i] == old(out[i])
      ensures BeValue(LeBytes(doorbell, 4)) == 1
    {
      hide Execute, FwRun, Mail, DriverStep, Shape, BeValue, LeBytes, Reported, Copied, ExecuteCall, BeginCall;
      Be32Reads(1);
      CallBegins(View(), Call(opcode, opMod, input, outLen), sched);
      var token := Start(Call(opcode, opMod, input, outLen), sched);
      Submit(opcode, opMod, input, outLen, token, sched);
      ret, outStatus := Await(out, outLen, sched);
      ReportedBytes(out, outLen, old(out[..]), ret, outStatus);
    }

    lemma ReportedBytes(out: array<u8>, outLen: u32, before: seq<u8>, ret: IOReturn, outStatus: u8)
      requires |before| == out.Length && pool.Length >= 8192 && Reported(out, outLen, before, ret, outStatus)
      ensures ret == KernSuccess ==>
                forall i :: 0 <= i < outLen && i < 4088 ==> i < out.Length && out[i] == pool[4104 + i]
      ensures forall i :: 0 <= i < out.Length && (ret != KernSuccess || i >= outLen || i >= 4088) ==>
                out[i] == before[i]
    {
      assert out[..] == before ==> forall i :: 0 <= i < out.Length ==> out[i] == out[..][i] == before[i];
    }

    /** Advancing the token counter; zero is skipped. */
    method Start(ghost call: Call, sched: Schedule) returns (token: u8)
      requires Valid() && drv.pc == Ready
      modifies this, ring, pool
      ensures Valid() && View() == BeginCall(FwRun(old(View()), sched(0)), call)
      ensures drv.pc == ClearIn && drv.call == call && drv.token == token && drv.polls == 0 && drv.delivery == 0
    {
      hide Mail, FwRun;
      Interfere(sched(0));
      ghost var began := BeginCall(View(), call);
      token := TruncU8(nextToken + 1);
      nextToken := token;
      if token == 0 {
        token := TruncU8(nextToken + 1);
        nextToken := token;
      }
      drv := began.drv;
    }

    /** Everything from clearing the mailboxes to the doorbell. */
    method Submit(opcode: u16, opMod: u16, input: seq<u8>, outLen: u32, token: u8, sched: Schedule)
      requires Valid() && drv.pc == ClearIn && drv.call == Call(opcode, opMod, input, outLen) && drv.token == token
      modifies this`drv, this`doorbell, this`fw, this`served, ring, pool
      ensures Valid() && drv == old(drv).(pc := Poll, doorbell := doorbell) && doorbell == Swap32(1)
      ensures Execute(View(), sched, 8) == Execute(old(View()), sched, 1)
    {
      hide Execute, Mail;
      ClearMailboxes(sched);
      FillMailbox(opcode, opMod, input, sched);
      SubmitEntry(outLen, token, sched);
      Notify(sched);
    }

    /** Everything behind the doorbell. */
    method Await(out: array<u8>, outLen: u32, sched: Schedule) returns (ret: IOReturn, outStatus: u8)
      requires Valid() && drv.pc == Poll && drv.polls == 0 && drv.delivery == 0 && drv.call.outLen == outLen
      requires outLen <= out.Length && out != pool
      modifies this`drv, this`fw, this`served, this`totalCommands, this`failedCommands, ring, pool, out
      ensures Valid() && View() == Execute(old(View()), sched, 8)
      ensures Reported(out, outLen, old(out[..]), ret, outStatus)
    {
      hide Execute, FwRun, Mail, Shape, Reported;
      var deliveryStatus, k := PollOwner(sched);
      ret, outStatus := Complete(out, outLen, deliveryStatus, sched, k);
    }

    /** The re-read, the classification and the copy of the response. */
    method Complete(out: array<u8>, outLen: u32, deliveryStatus: nat, sched: Schedule, k: nat)
      returns (ret: IOReturn, outStatus: u8)
      requires Valid() && drv.pc == Reread && drv.delivery == deliveryStatus && drv.call.outLen == outLen
      requires outLen <= out.Length && out != pool
      modifies this`drv, this`fw, this`served, this`totalCommands, this`failedCommands, ring, pool, out
      ensures Valid() && View() == Execute(old(View()), sched, k)
      ensures Reported(out, outLen, old(out[..]), ret, outStatus)
    {
      hide Execute, FwRun, Mail;
      outStatus := 0xFF;
      Disturbed(View(), sched, k);
      Interfere(sched(k));
      drv := WaitStep(drv, ring[0], View().mail[1]);
      if ring[0].status % 2 != 0 {
        failedCommands := IncU32(failedCommands);
        CallReturned(View(), sched, k + 1);
        return KernTimeout, outStatus;
      }
      totalCommands := IncU32(totalCommands);
      if deliveryStatus != 0 {
        failedCommands := IncU32(failedCommands);
        CallReturned(View(), sched, k + 1);
        return KernError, outStatus;
      }
      ret, outStatus := ReadResponse(out, outLen, sched, k + 1);
    }

    /** The firmware status and the copy to the caller. */
    method ReadResponse(out: array<u8>, outLen: u32, sched: Schedule, k: nat)
      returns (ret: IOReturn, outStatus: u8)
      requires Valid() && drv.pc == Response && drv.call.outLen == outLen
      requires outLen <= out.Length && out != pool
      modifies this`drv, this`fw, this`served, this`totalCommands, this`failedCommands, ring, pool, out
      ensures Valid() && View() == Execute(old(View()), sched, k)
      ensures Reported(out, outLen, old(out[..]), ret, outStatus)
    {
      hide Execute, FwRun, Mail, CopyOut;
      Disturbed(View(), sched, k);
      Interfere(sched(k));
      drv := WaitStep(drv, ring[0], Mail()[1]);
      FirstByte();
      outStatus := pool[MAILBOX_SIZE];
      if outStatus != 0 {
        failedCommands := IncU32(failedCommands);
        ret := KernError;
      } else {
        CopyResponse(out, outLen);
        ret := KernSuccess;
      }
      CallReturned(View(), sched, k + 1);
    }

    lemma FirstByte()
      requires pool.Length == 2 * numEntries * MAILBOX_SIZE && numEntries >= 1
      ensures Mail()[1][0] == pool[MAILBOX_SIZE]
    {
    }

    /** memcpy of the response, from byte 8 of the output mailbox, clamped. */
    method CopyResponse(out: array<u8>, outLen: u32)
      requires pool.Length == 2 * numEntries * MAILBOX_SIZE && numEntries >= 1
      requires outLen <= out.Length && out != pool
      modifies out
      ensures Copied(out, outLen, old(out[..]), CopyOut(Mail()[1], outLen))
    {
      ghost var was := out[..];
      var copyLen := outLen;
      if copyLen > MAILBOX_SIZE - 8 {
        copyLen := MAILBOX_SIZE - 8;
      }
      SliceOfSlice(pool[..], MAILBOX_SIZE, 2 * MAILBOX_SIZE, 8, 8 + copyLen);
      ghost var bs := pool[MAILBOX_SIZE + 8..MAILBOX_SIZE + 8 + copyLen];
      Store(out, 0, pool[MAILBOX_SIZE + 8..MAILBOX_SIZE + 8 + copyLen]);
      forall i | 0 <= i < out.Length
        ensures out[i] == if i < copyLen then bs[i] else was[i]
      {
        PutAt(was, 0, bs, i);
        assert out[i] == out[..][i];
      }
    }

    /** What the caller gets: return code, status byte and output buffer. */
    ghost predicate Reported(out: array<u8>, outLen: u32, before: seq<u8>, ret: IOReturn, outStatus: u8)
      requires |before| == out.Length && pool.Length >= 8192
      reads this, out, pool
    {
      && drv.pc == Ready && drv.done != []
      && match drv.done[|drv.done| - 1].outcome
         case Timeout => ret == KernTimeout && outStatus == 0xFF && out[..] == before
         case DeliveryError(_) => ret == KernError && outStatus == 0xFF && out[..] == before
         case FirmwareError(st) => ret == KernError && outStatus == st == pool[4096] != 0 && out[..] == before
         case Success(o) => ret == KernSuccess && outStatus == 0 == pool[4096] && Copied(out, outLen, before, o)
    }

    /** The response bytes from 8 on, clamped; the rest of the buffer is untouched. */
    ghost predicate Copied(out: array<u8>, outLen: u32, before: seq<u8>, o: seq<u8>)
      requires |before| == out.Length && pool.Length >= 8192
      reads this, out, pool
    {
      && |o| == (if outLen > 4088 then 4088 else outLen) <= out.Length
      && (forall i :: 0 <= i < |o| ==> out[i] == o[i] == pool[4104 + i])
      && (forall i :: |o| <= i < out.Length ==> out[i] == before[i])
    }
  }

  lemma CallBegins(s: State, c: Call, sched: Schedule)
    requires Shape(s) && s.drv.pc == Ready
    ensures var t := FwRun(s, sched(0));
            Shape(t) && t.drv.pc == Ready && ExecuteCall(s, c, sched) == Execute(BeginCall(t, c), sched, 1)
  {
  }

  lemma DriverFills(s: State)
    requires Shape(s) && !Waiting(s.drv.pc)
    ensures DriverStep(s).drv == FillNext(s.drv)
  {
  }

  lemma SetByteIsPut(m: seq<u8>, pos: nat, val: u8)
    requires pos < |m|
    ensures SetByte(m, pos, val) == Put(m, pos, [val])
  {
    forall i | 0 <= i < |m|
      ensures SetByte(m, pos, val)[i] == Put(m, pos, [val])[i]
    {
      PutAt(m, pos, [val], i);
    }
  }
}
