/** mlx5_ib_qp and its verbs (kext/mlx5_qp.cpp): resources, creation, the state
    machine, destruction, and posting to the two rings. */
module QueuePairs {
  import opened Words
  import opened Bits
  import opened Wrappers
  import opened Memory
  import opened CmdProtocol
  import opened CmdQueue
  import CmdRefinement
  import DmaMemory
  import ObjectTable
  import QpState
  import opened VerbSupport
  import WQ = WorkQueue

  const SQ_WQE_CNT := 256
  const SEND_WQE_SHIFT := 6
  const RQ_WQE_CNT := 256
  const RECV_WQE_SHIFT := 4

  // ---------------------------------------------------------------- the log2 loop

  /** The shift loop of create_qp and create_cq: for n >= 1 the largest k with 2^k <= n. */
  method Log2(n: u32) returns (k: nat)
    ensures n >= 1 ==> Pow2(k) <= n < Pow2(k + 1)
    ensures n == 0 ==> k == 0
  {
    k := 0;
    var tmp := n;
    while tmp > 1
      invariant tmp == Shr(n, k)
      invariant n >= 1 ==> tmp >= 1
      invariant n == 0 ==> k == 0
    {
      ShrStep(n, k);
      k := k + 1;
      tmp := tmp / 2;
    }
    if n >= 1 {
      ShrLow(n, k);
      assert Pow2(k) == Shl(1, k) by { ShlIsMul(1, k); }
    }
  }

  lemma {:induction false} ShrStep(n: nat, k: nat)
    ensures Shr(n, k + 1) == Shr(n, k) / 2
  {
    if k != 0 { ShrStep(n / 2, k - 1); }
  }

  // ---------------------------------------------------------------- CREATE_QP input

  function QpFields(rqByte: u8, sqByte: u8, dbDma: u64, sqDma: u64, rqDma: u64): seq<Field> {
    [Field(0x04, [rqByte]), Field(0x0C, [sqByte]), Field(0x100, Be64Bytes(dbDma)),
     Field(0x200, Be64Bytes(sqDma)), Field(0x208, Be64Bytes(rqDma))]
  }

  /** The 0x210 bytes of CREATE_QP input for the given size bytes and addresses. */
  function QpInput(rqByte: u8, sqByte: u8, dbDma: u64, sqDma: u64, rqDma: u64): (bs: seq<u8>)
    ensures |bs| == 0x210
  {
    PutAll(Zeros(1024), QpFields(rqByte, sqByte, dbDma, sqDma, rqDma))[..0x210]
  }

  lemma QpInputFields(rqByte: u8, sqByte: u8, dbDma: u64, sqDma: u64, rqDma: u64)
    ensures var m := QpInput(rqByte, sqByte, dbDma, sqDma, rqDma);
            && m[0x04] == rqByte && m[0x0C] == sqByte
            && m[0x100..0x108] == Be64Bytes(dbDma) && m[0x200..0x208] == Be64Bytes(sqDma)
            && m[0x208..0x210] == Be64Bytes(rqDma)
            && forall j :: 0 <= j < 0x210 && j != 0x04 && j != 0x0C && !(0x100 <= j < 0x108) && j < 0x200 ==> m[j] == 0
  {
    hide Be64Bytes, PutAll;
    var fs := QpFields(rqByte, sqByte, dbDma, sqDma, rqDma);
    var b := PutAll(Zeros(1024), fs);
    FieldSurvives(Zeros(1024), fs, 0);
    FieldSurvives(Zeros(1024), fs, 1);
    FieldSurvives(Zeros(1024), fs, 2);
    FieldSurvives(Zeros(1024), fs, 3);
    FieldSurvives(Zeros(1024), fs, 4);
    assert b[0x04] == b[0x04..0x05][0] && b[0x0C] == b[0x0C..0x0D][0];
    forall j | 0 <= j < 0x200 && j != 0x04 && j != 0x0C && !(0x100 <= j < 0x108)
      ensures b[j] == 0
    {
      BlankElsewhere(1024, fs, j);
    }
  }

  /** The context byte for a ring: log size in the high nibble, stride in the low one. */
  function SizeByte(logSize: nat, logStride: nat): u8
    requires logSize < 16 && logStride < 16
  {
    NibblesDisjoint(logSize, logStride);
    Or(Or(0, Shl(And(logSize, 0x0F), 4)), And(logStride, 0x0F))
  }

  lemma NibblesDisjoint(hi: nat, lo: nat)
    requires hi < 16 && lo < 16
    ensures Or(Or(0, Shl(And(hi, 0x0F), 4)), And(lo, 0x0F)) == 16 * hi + lo
  {
    hide And, Or, Shl;
    assert Pow2(4) == 16;
    AndLowMask(hi, 4);
    AndLowMask(lo, 4);
    ShiftIsDiv(hi, 4);
    ShiftIsDiv(lo, 4);
    OrZeroLeft(Shl(hi, 4));
    OrDisjoint(hi, 4, lo);
    ShlIsMul(hi, 4);
  }

  function CreateQpCall(dbDma: u64, sqDma: u64, rqDma: u64): Call {
    ObjectTable.CreateCall(ObjectTable.QP, QpInput(SizeByte(8, 0), SizeByte(8, 0), dbDma, sqDma, rqDma))
  }

  /** The payload bytes of the mailbox, in which the clamp loses nothing. */
  lemma CreateQpBytes(dbDma: u64, sqDma: u64, rqDma: u64)
    ensures var m := WireMailbox(CreateQpCall(dbDma, sqDma, rqDma));
            && m[20] == m[28] == 0x80 && BeValue(m[0x110..0x118]) == dbDma
            && BeValue(m[0x210..0x218]) == sqDma && BeValue(m[0x218..0x220]) == rqDma
            && forall j :: 16 <= j < 4096 && j != 20 && j != 28 && !(0x110 <= j < 0x118) && !(0x210 <= j < 0x220) ==>
                 m[j] == 0
  {
    hide BeValue, Be64Bytes, QpInput, SizeByte, WireMailbox;
    var c := CreateQpCall(dbDma, sqDma, rqDma);
    var m := WireMailbox(c);
    CmdRefinement.WireFields(c);
    QpInputFields(SizeByte(8, 0), SizeByte(8, 0), dbDma, sqDma, rqDma);
    SizeByteIs(8, 0);
    assert c.input[..0x210] == c.input;
    assert m[16..16 + 0x210] == c.input;
    SliceOfSlice(m, 16, 16 + 0x210, 0x100, 0x108);
    SliceOfSlice(m, 16, 16 + 0x210, 0x200, 0x208);
    SliceOfSlice(m, 16, 16 + 0x210, 0x208, 0x210);
    assert m[16 + 0x04] == c.input[0x04] && m[16 + 0x0C] == c.input[0x0C];
    forall j | 16 <= j < 4096 && j != 20 && j != 28 && !(0x110 <= j < 0x118) && !(0x210 <= j < 0x220)
      ensures m[j] == 0
    {
      if j < 0x220 {
        assert m[j] == m[16..16 + 0x210][j - 16] == c.input[j - 16];
      } else {
        assert m[j] == m[0x220..][j - 0x220];
      }
    }
    Be64Reads(dbDma);
    Be64Reads(sqDma);
    Be64Reads(rqDma);
  }

  /** Decoding the firmware's input mailbox recovers ring sizes equal to the driver's
      and the three bus addresses; the payload clamp loses nothing. */
  lemma CreateQpRoundTrip(dbDma: u64, sqDma: u64, rqDma: u64)
    ensures var c := CreateQpCall(dbDma, sqDma, rqDma); var m := WireMailbox(c);
            && c.opcode == 0x500 && c.opMod == 0 && c.outLen == 64
            && m[20] == 0x80 && m[28] == 0x80
            && Pow2(m[20] / 16) == RQ_WQE_CNT && m[20] % 16 + 4 == RECV_WQE_SHIFT && Pow2(m[28] / 16) == SQ_WQE_CNT
            && BeValue(m[0x110..0x118]) == dbDma
            && BeValue(m[0x210..0x218]) == sqDma
            && BeValue(m[0x218..0x220]) == rqDma
            && forall j :: 16 <= j < 4096 && j != 20 && j != 28 && !(0x110 <= j < 0x118) && !(0x210 <= j < 0x220) ==>
                 m[j] == 0
  {
    hide BeValue, QpInput, WireMailbox;
    CreateQpBytes(dbDma, sqDma, rqDma);
    Pow2Values();
  }

  lemma SizeByteIs(logSize: nat, logStride: nat)
    requires logSize < 16 && logStride < 16
    ensures SizeByte(logSize, logStride) == 16 * logSize + logStride
  {
    NibblesDisjoint(logSize, logStride);
  }

  // ---------------------------------------------------------------- the object

  /** A granted allocation and its bus address. */
  datatype Grant = Refused | Granted(dma: u64)

  datatype RingGrants = RingGrants(sq: Grant, rq: Grant, db: Grant)

  function Plain(g: RingGrants): DmaMemory.Grants {
    DmaMemory.Grants(g.sq.Granted?, g.rq.Granted?, g.db.Granted?)
  }

  /** The 32 bits of a completion queue's signed number field; 0 without one. */
  function CqNumber(cqe: Option<int>): u32 { if cqe.Some? then cqe.value % TWO_32 else 0 }

  /** It is the number that create_cq stored, whatever its sign there. */
  lemma CqNumberStored(n: u32, cqe: int)
    requires -0x8000_0000 <= cqe < 0x8000_0000 && (cqe - n) % TWO_32 == 0
    ensures CqNumber(Some(cqe)) == n && CqNumber(None) == 0
  {
    assert cqe == n || cqe == n - TWO_32;
  }

  class QueuePair {
    var qpn: u32
    var state: nat

    var sqMd: Option<nat>
    var rqMd: Option<nat>
    var dbMd: Option<nat>
    var sqDma: u64
    var rqDma: u64
    var dbDma: u64

    var sqBuf: array<u8>
    var sqWqeCnt: nat
    var sqWqeShift: nat
    var sqHead: u32

    var rqBuf: array<u8>
    var rqWqeCnt: nat
    var rqWqeShift: nat
    var rqHead: u32

    var dbRecord: array<u32>

    var sendCqn: u32
    var recvCqn: u32

    // log2 of the entry counts
    ghost var sqLog: nat
    ghost var rqLog: nat

    ghost function SqShape(): WQ.Shape reads this { WQ.Shape(WQ.Send(qpn), sqLog, sqWqeShift) }

    ghost function RqShape(): WQ.Shape reads this { WQ.Shape(WQ.Recv, rqLog, rqWqeShift) }

    ghost predicate RingsValid()
      reads this
    {
      && sqWqeCnt == Pow2(sqLog) && rqWqeCnt == Pow2(rqLog)
      && WQ.Fits(SqShape()) && WQ.Fits(RqShape())
      && sqBuf.Length == sqWqeCnt * Pow2(sqWqeShift) && rqBuf.Length == rqWqeCnt * Pow2(rqWqeShift)
      && sqHead < sqWqeCnt && rqHead < rqWqeCnt
      && dbRecord.Length >= 2
      && sqBuf != rqBuf
    }

    ghost function SqMem(): (m: WQ.Mem)
      requires RingsValid()
      reads this, sqBuf, dbRecord
      ensures WQ.WellFormed(SqShape(), m)
    {
      WQ.Mem(Blocks(sqBuf[..], sqWqeCnt, Pow2(sqWqeShift)), sqHead, dbRecord[0])
    }

    ghost function RqMem(): (m: WQ.Mem)
      requires RingsValid()
      reads this, rqBuf, dbRecord
      ensures WQ.WellFormed(RqShape(), m)
    {
      WQ.Mem(Blocks(rqBuf[..], rqWqeCnt, Pow2(rqWqeShift)), rqHead, dbRecord[1])
    }

    // -------------------------------------------------------------- posting

    /** The control segment of the entry at `head`, word by word. */
    method WriteSendEntry(head: u32)
      requires RingsValid() && head < sqWqeCnt
      modifies sqBuf
      ensures Blocks(sqBuf[..], sqWqeCnt, Pow2(sqWqeShift))
              == old(WQ.WriteSlot(SqShape(), SqMem().(head := head))).slots
    {
      hide WQ.OpmodIdxOpcode, WQ.QpnDs, Be32Bytes, WQ.Fits;
      ghost var was := sqBuf[..];
      var w := Pow2(sqWqeShift);
      WQ.SlotHoldsWqe(SqShape());
      WQ.OpmodIdxOpcodeIs(head);
      WQ.QpnDsIs(qpn);
      BlockFits(sqWqeCnt, w, head);
      ShlIsMul(head, sqWqeShift);
      var offset := Shl(head, sqWqeShift);
      var w0, w1, w2 := Be32Bytes(WQ.OpmodIdxOpcode(head)), Be32Bytes(WQ.QpnDs(qpn)), Be32Bytes(0x8000_0000);
      Store(sqBuf, offset, w0);
      Store(sqBuf, offset + 4, w1);
      PutConcat(was, offset, w0, w1);
      Store(sqBuf, offset + 8, w2);
      PutConcat(was, offset, w0 + w1, w2);
      Store(sqBuf, offset + 12, Zeros(4));
      PutConcat(was, offset, w0 + w1 + w2, Zeros(4));
      PutInBlock(was, sqWqeCnt, w, head, 0, w0 + w1 + w2 + Zeros(4));
    }

    /** mlx5_ib_post_send_full: write the control segment, advance the head, ring the
        doorbell record. Nothing outside the entry's own slot changes. */
    method PostSend()
      requires RingsValid()
      modifies this`sqHead, sqBuf, dbRecord
      ensures RingsValid() && SqMem() == WQ.Post(SqShape(), old(SqMem()))
      ensures RqMem() == old(RqMem())
    {
      hide WQ.Wqe, WQ.Fits, WQ.WriteSlot, WQ.Post, And, Swap32, Blocks;
      WQ.PostResult(SqShape(), SqMem());
      var head := sqHead;
      WriteSendEntry(head);
      WQ.CountFits(SqShape());
      WQ.WrapIsMod(head + 1, sqLog);
      sqHead := And(head + 1, sqWqeCnt - 1);
      dbRecord[0] := Swap32(Shl(sqHead, sqWqeShift) % TWO_32);
    }

    /** The data segment of the entry at `head`: placeholder length, key and address. */
    method WriteRecvEntry(head: u32)
      requires RingsValid() && head < rqWqeCnt
      modifies rqBuf
      ensures Blocks(rqBuf[..], rqWqeCnt, Pow2(rqWqeShift))
              == old(WQ.WriteSlot(RqShape(), RqMem().(head := head))).slots
    {
      hide Be32Bytes, WQ.Fits;
      ghost var was := rqBuf[..];
      var w := Pow2(rqWqeShift);
      WQ.SlotHoldsWqe(RqShape());
      BlockFits(rqWqeCnt, w, head);
      ShlIsMul(head, rqWqeShift);
      var offset := Shl(head, rqWqeShift);
      Store(rqBuf, offset, Be32Bytes(4096));
      Store(rqBuf, offset + 4, Zeros(4));
      PutConcat(was, offset, Be32Bytes(4096), Zeros(4));
      Store(rqBuf, offset + 8, Zeros(8));
      PutConcat(was, offset, Be32Bytes(4096) + Zeros(4), Zeros(8));
      PutInBlock(was, rqWqeCnt, w, head, 0, Be32Bytes(4096) + Zeros(4) + Zeros(8));
    }

    /** mlx5_ib_post_recv_full */
    method PostRecv()
      requires RingsValid()
      modifies this`rqHead, rqBuf, dbRecord
      ensures RingsValid() && RqMem() == WQ.Post(RqShape(), old(RqMem()))
      ensures SqMem() == old(SqMem())
    {
      hide WQ.Wqe, WQ.Fits, WQ.WriteSlot, WQ.Post, And, Swap32, Blocks;
      WQ.PostResult(RqShape(), RqMem());
      var head := rqHead;
      WriteRecvEntry(head);
      WQ.CountFits(RqShape());
      WQ.WrapIsMod(head + 1, rqLog);
      rqHead := And(head + 1, rqWqeCnt - 1);
      dbRecord[1] := Swap32(And(rqHead, 0xFFFF) % TWO_32);
    }

    // -------------------------------------------------------------- resources

    /** alloc_qp_resources: three allocations; a refusal releases the earlier ones. */
    method AllocResources(heap: DmaMemory.DmaHeap, g: RingGrants, ghost sqLog: nat, sqCnt: nat, sqShift: nat,
                          ghost rqLog: nat, rqCnt: nat, rqShift: nat)
      returns (ret: IOReturn)
      requires sqCnt == Pow2(sqLog) && rqCnt == Pow2(rqLog)
      requires WQ.Fits(WQ.Shape(WQ.Send(qpn), sqLog, sqShift)) && WQ.Fits(WQ.Shape(WQ.Recv, rqLog, rqShift))
      requires Descriptors() == DmaMemory.BLANK
      modifies this, heap
      ensures (heap.heap, Descriptors(), ret == KernSuccess) == DmaMemory.AllocFields(old(heap.heap), Plain(g))
      ensures ret == KernSuccess || ret == KernNoMemory
      ensures qpn == old(qpn) && state == old(state)
      ensures ret == KernSuccess ==>
                && sqDma == g.sq.dma && rqDma == g.rq.dma && dbDma == g.db.dma
                && this.sqLog == sqLog && this.rqLog == rqLog && sqWqeShift == sqShift && rqWqeShift == rqShift
                && sqWqeCnt == sqCnt && rqWqeCnt == rqCnt && EmptyRings()
                && fresh(sqBuf) && fresh(rqBuf) && fresh(dbRecord)
    {
      hide WQ.Fits, Pow2, SqMem, RqMem;
      var ok := SetUpSend(heap, g.sq, sqLog, sqCnt, sqShift);
      if !ok {
        return KernNoMemory;
      }
      ok := SetUpRecv(heap, g.rq, rqLog, rqCnt, rqShift);
      if !ok {
        heap.Free(this.sqMd.value);
        return KernNoMemory;
      }
      ok := SetUpDoorbell(heap, g.db);
      if !ok {
        heap.Free(this.sqMd.value);
        heap.Free(this.rqMd.value);
        return KernNoMemory;
      }
      ret := KernSuccess;
    }

    method SetUpSend(heap: DmaMemory.DmaHeap, g: Grant, ghost log: nat, cnt: nat, shift: nat) returns (ok: bool)
      modifies this`sqMd, this`sqBuf, this`sqDma, this`sqWqeCnt, this`sqWqeShift, this`sqHead, this`sqLog, heap
      ensures ok == g.Granted?
      ensures !ok ==> heap.heap == old(heap.heap) && sqMd == None
      ensures ok ==>
                && heap.heap == DmaMemory.Alloc(old(heap.heap)).0 && sqMd == Some(DmaMemory.Alloc(old(heap.heap)).1)
                && fresh(sqBuf) && sqBuf[..] == Zeros(cnt * Pow2(shift))
                && sqDma == g.dma && sqWqeCnt == cnt && sqWqeShift == shift && sqHead == 0 && sqLog == log
    {
      sqMd := heap.Allocate(g.Granted?);
      ok := sqMd.Some?;
      if ok {
        sqBuf := ZeroedBytes(cnt * Pow2(shift));
        sqDma, sqWqeCnt, sqWqeShift, sqHead, sqLog := g.dma, cnt, shift, 0, log;
      }
    }

    method SetUpRecv(heap: DmaMemory.DmaHeap, g: Grant, ghost log: nat, cnt: nat, shift: nat) returns (ok: bool)
      modifies this`rqMd, this`rqBuf, this`rqDma, this`rqWqeCnt, this`rqWqeShift, this`rqHead, this`rqLog, heap
      ensures ok == g.Granted?
      ensures !ok ==> heap.heap == old(heap.heap) && rqMd == None
      ensures ok ==>
                && heap.heap == DmaMemory.Alloc(old(heap.heap)).0 && rqMd == Some(DmaMemory.Alloc(old(heap.heap)).1)
                && fresh(rqBuf) && rqBuf[..] == Zeros(cnt * Pow2(shift))
                && rqDma == g.dma && rqWqeCnt == cnt && rqWqeShift == shift && rqHead == 0 && rqLog == log
    {
      rqMd := heap.Allocate(g.Granted?);
      ok := rqMd.Some?;
      if ok {
        rqBuf := ZeroedBytes(cnt * Pow2(shift));
        rqDma, rqWqeCnt, rqWqeShift, rqHead, rqLog := g.dma, cnt, shift, 0, log;
      }
    }

    method SetUpDoorbell(heap: DmaMemory.DmaHeap, g: Grant) returns (ok: bool)
      modifies this`dbMd, this`dbRecord, this`dbDma, heap
      ensures ok == g.Granted?
      ensures !ok ==> heap.heap == old(heap.heap) && dbMd == None
      ensures ok ==>
                && heap.heap == DmaMemory.Alloc(old(heap.heap)).0 && dbMd == Some(DmaMemory.Alloc(old(heap.heap)).1)
                && fresh(dbRecord) && dbRecord.Length == 1024 && dbRecord[0] == 0 && dbRecord[1] == 0 && dbDma == g.dma
    {
      dbMd := heap.Allocate(g.Granted?);
      ok := dbMd.Some?;
      if ok {
        dbRecord := new u32[4096 / 4](i => 0);
        dbDma := g.dma;
      }
    }

    ghost function Descriptors(): DmaMemory.Fields
      reads this
    {
      DmaMemory.Fields(sqMd, rqMd, dbMd)
    }

    /** Both rings valid, zeroed and empty. */
    ghost predicate EmptyRings()
      reads this, sqBuf, rqBuf, dbRecord
    {
      && RingsValid()
      && sqBuf[..] == Zeros(sqBuf.Length) && rqBuf[..] == Zeros(rqBuf.Length)
      && sqHead == 0 && rqHead == 0 && dbRecord[0] == 0 && dbRecord[1] == 0
    }

    /** Fresh rings are empty queues, ready for the FIFO theorem. */
    lemma EmptyRingsAreFifo()
      requires EmptyRings()
      ensures WQ.Fifo(SqShape(), WQ.EmptyQueue(SqShape(), SqMem()))
      ensures WQ.Fifo(RqShape(), WQ.EmptyQueue(RqShape(), RqMem()))
    {
      hide WQ.Fifo, WQ.Fits;
      ZeroBlocks(sqWqeCnt, Pow2(sqWqeShift));
      ZeroBlocks(rqWqeCnt, Pow2(rqWqeShift));
      WQ.FreshRing(SqShape());
      WQ.FreshRing(RqShape());
    }

    // -------------------------------------------------------------- verbs

    /** The CREATE_QP input: log sizes and the three bus addresses. */
    method BuildCreateInput() returns (inBuf: array<u8>)
      requires sqWqeCnt == SQ_WQE_CNT && rqWqeCnt == RQ_WQE_CNT && rqWqeShift == RECV_WQE_SHIFT
      ensures fresh(inBuf) && inBuf.Length == 1024
      ensures inBuf[..0x210] == QpInput(SizeByte(8, 0), SizeByte(8, 0), dbDma, sqDma, rqDma)
    {
      hide Be64Bytes, SizeByte, Pow2, PutAll;
      inBuf := ZeroedBytes(1024);
      ghost var z, fs := Zeros(1024), QpFields(SizeByte(8, 0), SizeByte(8, 0), dbDma, sqDma, rqDma);
      NoFields(z, fs);
      var logRqSize := Log2(rqWqeCnt);
      Log2Of256(logRqSize);
      StoreField(inBuf, z, fs, 0, 0x04, [SizeByte(logRqSize, rqWqeShift - 4)]);
      var logSqSize := Log2(sqWqeCnt);
      Log2Of256(logSqSize);
      StoreField(inBuf, z, fs, 1, 0x0C, [SizeByte(logSqSize, 0)]);
      StoreField(inBuf, z, fs, 2, 0x100, Be64Bytes(dbDma));
      StoreField(inBuf, z, fs, 3, 0x200, Be64Bytes(sqDma));
      StoreField(inBuf, z, fs, 4, 0x208, Be64Bytes(rqDma));
    }

    /** memset of the object. */
    method Clear()
      modifies this
      ensures qpn == 0 && state == 0 && Descriptors() == DmaMemory.BLANK
    {
      hide RingsValid;
      qpn, state, sqMd, rqMd, dbMd := 0, 0, None, None, None;
      sqDma, sqWqeCnt, sqWqeShift, sqHead := 0, 0, 0, 0;
      rqDma, rqWqeCnt, rqWqeShift, rqHead, dbDma := 0, 0, 0, 0, 0;
    }

    /** mlx5_ib_create_qp_full; `sendCq` and `recvCq` are the entry-count fields of the
        completion queues given, which hold their numbers. */
    method CreateQp(heap: DmaMemory.DmaHeap, ctx: CmdContext, g: RingGrants, sendCq: Option<int>, recvCq: Option<int>,
                    sched: Schedule) returns (ret: int)
      requires ctx.Valid() && ctx.drv.pc == Ready
      modifies this, heap, ctx, ctx.ring, ctx.pool
      ensures ret == 0 || ret == -1
      ensures if g.sq.Granted? && g.rq.Granted? && g.db.Granted? then
                && ctx.Sent(old(ctx.View()), CreateQpCall(g.db.dma, g.sq.dma, g.rq.dma), sched)
                && (ret == 0 <==> ObjectTable.Returned(ctx.View()).Some?)
              else
                ctx.Valid() && ctx.View() == old(ctx.View()) && ret == -1
      ensures (heap.heap, Descriptors(), ret == 0) == DmaMemory.CreateFields(old(heap.heap), Plain(g), ret == 0)
      ensures ret == 0 ==>
                && EmptyRings() && state == QpState.RESET
                && sqWqeCnt == rqWqeCnt == 256 && sqWqeShift == 6 && rqWqeShift == 4
                && qpn == ObjectTable.Returned(ctx.View()).value
                && sendCqn == CqNumber(sendCq) && recvCqn == CqNumber(recvCq)
    {
      hide Pow2, ExecuteCall, CreateQpCall, ObjectTable.Returned, DmaMemory.AllocFields, DmaMemory.ReleaseFields,
           EmptyRings;
      DmaMemory.AllocGranted(heap.heap, Plain(g));
      Clear();
      DefaultShapes();
      var r := AllocResources(heap, g, 8, SQ_WQE_CNT, SEND_WQE_SHIFT, 8, RQ_WQE_CNT, RECV_WQE_SHIFT);
      if r != KernSuccess {
        return -1;
      }
      ret := FinishCreate(heap, ctx, sendCq, recvCq, sched);
    }

    /** The numbers of the completion queues given, over zeroed fields. */
    method CopyCqNumbers(sendCq: Option<int>, recvCq: Option<int>)
      modifies this`sendCqn, this`recvCqn
      ensures sendCqn == CqNumber(sendCq) && recvCqn == CqNumber(recvCq)
    {
      sendCqn, recvCqn := 0, 0;
      if sendCq.Some? {
        sendCqn := sendCq.value % TWO_32;
      }
      if recvCq.Some? {
        recvCqn := recvCq.value % TWO_32;
      }
    }

    /** The CQ numbers, the command, and on failure the release of all three descriptors. */
    method FinishCreate(heap: DmaMemory.DmaHeap, ctx: CmdContext, sendCq: Option<int>, recvCq: Option<int>,
        sched: Schedule)
      returns (ret: int)
      requires ctx.Valid() && ctx.drv.pc == Ready
      requires sqWqeCnt == SQ_WQE_CNT && rqWqeCnt == RQ_WQE_CNT && rqWqeShift == RECV_WQE_SHIFT
      requires EmptyRings() && sqBuf != ctx.pool && rqBuf != ctx.pool
      modifies this`qpn, this`state, this`sendCqn, this`recvCqn, heap, ctx, ctx.ring, ctx.pool
      ensures ctx.Sent(old(ctx.View()), CreateQpCall(dbDma, sqDma, rqDma), sched)
      ensures ret == (if ObjectTable.Returned(ctx.View()).Some? then 0 else -1)
      ensures heap.heap == if ret == 0 then old(heap.heap)
                           else DmaMemory.ReleaseFields(old(heap.heap), Descriptors())
      ensures ret == 0 ==> EmptyRings() && state == QpState.RESET && qpn == ObjectTable.Returned(ctx.View()).value
      ensures ret == 0 ==> sendCqn == CqNumber(sendCq) && recvCqn == CqNumber(recvCq)
    {
      hide Pow2, ExecuteCall, CreateQpCall, ObjectTable.Returned, DmaMemory.ReleaseFields;
      CopyCqNumbers(sendCq, recvCq);
      var acked, handle := SendCreate(ctx, sched);
      if !acked {
        FreeResources(heap);
        return -1;
      }
      qpn := handle;
      state := QpState.RESET;
      ret := 0;
    }

    /** Releases the descriptors that are set. */
    method FreeResources(heap: DmaMemory.DmaHeap)
      modifies heap
      ensures heap.heap == DmaMemory.ReleaseFields(old(heap.heap), Descriptors())
    {
      if sqMd.Some? { heap.Free(sqMd.value); }
      if rqMd.Some? { heap.Free(rqMd.value); }
      if dbMd.Some? { heap.Free(dbMd.value); }
    }

    /** The CREATE_QP command and the queue-pair number in its response. */
    method SendCreate(ctx: CmdContext, sched: Schedule) returns (acked: bool, handle: u32)
      requires ctx.Valid() && ctx.drv.pc == Ready
      requires sqWqeCnt == SQ_WQE_CNT && rqWqeCnt == RQ_WQE_CNT && rqWqeShift == RECV_WQE_SHIFT
      modifies ctx, ctx.ring, ctx.pool
      ensures ctx.Sent(old(ctx.View()), CreateQpCall(dbDma, sqDma, rqDma), sched)
      ensures acked <==> ObjectTable.Returned(ctx.View()).Some?
      ensures acked ==> handle == ObjectTable.Returned(ctx.View()).value
    {
      hide Be64Bytes, QpInput, SizeByte, LeValue, ExecuteCall, ObjectTable.HandleIn, Swap32;
      handle := 0;
      var inBuf := BuildCreateInput();
      var out;
      acked, out := Request(ctx, 0x500, 0, inBuf[..0x210], 64, sched);
      if acked {
        handle := ObjectTable.HandleIn(out);
      }
    }

    /** mlx5_ib_modify_qp_full: the driver's state and the queue move as in QpState. */
    method ModifyQp(ctx: CmdContext, sched: Schedule) returns (ret: int)
      requires ctx.Valid() && ctx.drv.pc == Ready
      modifies this`state, ctx, ctx.ring, ctx.pool
      ensures ctx.Valid() && ctx.drv.pc == Ready
      ensures QpState.QpWorld(ctx.View(), state) == QpState.Modify(QpState.QpWorld(old(ctx.View()), old(state)), sched)
      ensures if old(state) < 3 then
                && ctx.Sent(old(ctx.View()), QpState.ModifyCall(old(state) + 1), sched)
                && ret == (if ObjectTable.Succeeded(ctx.View()) then 0 else -1)
                && state == (if ret == 0 then old(state) + 1 else old(state))
              else
                ret == -1 && ctx.View() == old(ctx.View()) && state == old(state)
    {
      hide ExecuteCall, Or, And;
      var target := 0;
      match state {
        case 0 => target := QpState.INIT;
        case 1 => target := QpState.RTR;
        case 2 => target := QpState.RTS;
        case _ => return -1;
      }
      var inBuf := ZeroedBytes(256);
      inBuf[0] := Shl(target, 4);
      inBuf[0] := QpState.StateByte(target);
      assert inBuf[..] == [QpState.StateByte(target)] + Zeros(255);
      var acked, out := Request(ctx, 0x501, 0, inBuf[..], 16, sched);
      if !acked {
        return -1;
      }
      state := target;
      ret := 0;
    }

    /** mlx5_ib_destroy_qp_full: the descriptors go whatever the firmware answers. */
    method DestroyQp(heap: DmaMemory.DmaHeap, ctx: CmdContext, sched: Schedule) returns (ret: int)
      requires ctx.Valid() && ctx.drv.pc == Ready
      modifies heap, ctx, ctx.ring, ctx.pool
      ensures ctx.Sent(old(ctx.View()), ObjectTable.DestroyCall(ObjectTable.QP, qpn), sched)
      ensures ret == if ObjectTable.Succeeded(ctx.View()) then 0 else -1
      ensures heap.heap == DmaMemory.ReleaseFields(old(heap.heap), Descriptors())
    {
      hide ExecuteCall, Be32Bytes;
      var acked := DestroyRequest(ctx, 0x502, 0, qpn, sched);
      FreeResources(heap);
      ret := if acked then 0 else -1;
    }
  }

  lemma Log2Of256(k: nat)
    requires Pow2(k) <= 256 < Pow2(k + 1)
    ensures k == 8
  {
    assert Pow2(8) == 256 && Pow2(9) == 512;
    if k < 8 {
      Pow2Monotone(k + 1, 8);
    } else if k > 8 {
      Pow2Monotone(9, k);
    }
  }

  lemma DefaultShapes()
    ensures Pow2(8) == SQ_WQE_CNT == RQ_WQE_CNT
    ensures WQ.Fits(WQ.Shape(WQ.Send(0), 8, SEND_WQE_SHIFT)) && WQ.Fits(WQ.Shape(WQ.Recv, 8, RECV_WQE_SHIFT))
  {
  }
}
