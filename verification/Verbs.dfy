/** Protection-domain and completion-queue verbs (kext/mlx5_verbs.cpp). */
module Verbs {
  import opened Words
  import opened Bits
  import opened Memory
  import opened CmdProtocol
  import opened CmdQueue
  import opened VerbSupport
  import opened QueuePairs
  import opened MemoryRegions
  import DmaMemory
  import ObjectTable
  import CmdRefinement

  /** mlx5_ib_alloc_pd: the PD number goes to local_dma_lkey. */
  method AllocPd(pd: ProtectionDomain, ctx: CmdContext, sched: Schedule) returns (ret: int)
    requires ctx.Valid() && ctx.drv.pc == Ready
    modifies pd, ctx, ctx.ring, ctx.pool
    ensures ctx.Sent(old(ctx.View()), ObjectTable.CreateCall(ObjectTable.PD, []), sched)
    ensures ret == (if ObjectTable.Returned(ctx.View()).Some? then 0 else -1)
    ensures pd.localDmaLkey == if ret == 0 then ObjectTable.Returned(ctx.View()).value else old(pd.localDmaLkey)
  {
    hide ExecuteCall, ObjectTable.HandleIn;
    var acked, out := Request(ctx, 0x200, 1, [], 16, sched);
    if !acked {
      return -1;
    }
    pd.localDmaLkey := ObjectTable.HandleIn(out);
    ret := 0;
  }

  /** mlx5_ib_dealloc_pd */
  method DeallocPd(pd: ProtectionDomain, ctx: CmdContext, sched: Schedule) returns (ret: int)
    requires ctx.Valid() && ctx.drv.pc == Ready
    modifies ctx, ctx.ring, ctx.pool
    ensures ctx.Sent(old(ctx.View()), ObjectTable.DestroyCall(ObjectTable.PD, pd.localDmaLkey), sched)
    ensures ret == if ObjectTable.Succeeded(ctx.View()) then 0 else -1
  {
    hide ExecuteCall, Be32Bytes;
    var acked := DestroyRequest(ctx, 0x201, 1, pd.localDmaLkey, sched);
    ret := if acked then 0 else -1;
  }

  // ---------------------------------------------------------------- completion queues

  /** The ring the firmware indexes, 2^k entries for the encoded log size k, fits the
      allocation exactly for counts below 2^26. */
  lemma CqRingFitsExact(count: u32, k: nat)
    requires Pow2(k) <= count < Pow2(k + 1)
    ensures Pow2(k) * 64 <= (count * 64) % TWO_32 <==> count < 0x400_0000
  {
    Pow2Values();
    if count >= 0x400_0000 {
      if k < 26 {
        Pow2Monotone(k + 1, 26);
        assert false;
      }
      Pow2Monotone(26, k);
    }
  }

  /** CREATE_CQ input: log size, entry-size selector and the ring's bus address. */
  function CqFields(logSize: u8, dma: u64): seq<Field> {
    [Field(0x0C, [logSize]), Field(0x0E, [1]), Field(0x40, Be64Bytes(dma))]
  }

  function CqInput(logSize: u8, dma: u64): (bs: seq<u8>)
    ensures |bs| == 0x48
  {
    PutAll(Zeros(256), CqFields(logSize, dma))[..0x48]
  }

  function CreateCqCall(logSize: u8, dma: u64): Call {
    ObjectTable.CreateCall(ObjectTable.CQ, CqInput(logSize, dma))
  }

  /** The firmware's mailbox carries the log size, the selector and the address. */
  lemma CreateCqRoundTrip(logSize: u8, dma: u64)
    ensures var c := CreateCqCall(logSize, dma); var m := WireMailbox(c);
            && c.opcode == 0x400 && c.opMod == 0 && c.outLen == 16
            && m[28] == logSize && m[30] == 1 && BeValue(m[80..88]) == dma
            && forall j :: 16 <= j < 4096 && j != 28 && j != 30 && !(80 <= j < 88) ==> m[j] == 0
  {
    hide BeValue, Be64Bytes, PutAll, WireMailbox;
    var fs, c := CqFields(logSize, dma), CreateCqCall(logSize, dma);
    var b, m := PutAll(Zeros(256), fs), WireMailbox(c);
    FieldSurvives(Zeros(256), fs, 0);
    FieldSurvives(Zeros(256), fs, 1);
    FieldSurvives(Zeros(256), fs, 2);
    assert b[0x0C] == b[0x0C..0x0D][0] && b[0x0E] == b[0x0E..0x0F][0];
    CmdRefinement.WireFields(c);
    assert c.input[..0x48] == c.input;
    assert m[16..16 + 0x48] == b[..0x48];
    assert m[16 + 0x0C] == m[16..16 + 0x48][0x0C] && m[16 + 0x0E] == m[16..16 + 0x48][0x0E];
    SliceOfSlice(m, 16, 16 + 0x48, 0x40, 0x48);
    Be64Reads(dma);
    forall j | 16 <= j < 4096 && j != 28 && j != 30 && !(80 <= j < 88)
      ensures m[j] == 0
    {
      if j < 88 {
        BlankElsewhere(256, fs, j - 16);
        assert m[j] == m[16..16 + 0x48][j - 16] == b[j - 16];
      } else {
        assert m[j] == m[88..][j - 88];
      }
    }
  }

  /** ib_cq: `cqe` is the requested entry count, and afterwards holds the CQ number. */
  class CompletionQueue {
    var cqe: int
  }

  /** A C `int` holding the bits of an unsigned word. */
  function AsInt(x: u32): int { if x < 0x8000_0000 then x else x - TWO_32 }

  function AsU32(x: int): u32 { x % TWO_32 }

  /** mlx5_ib_create_cq; `dma` is the platform's answer to the ring allocation. */
  method CreateCq(cq: CompletionQueue, heap: DmaMemory.DmaHeap, ctx: CmdContext, dma: Grant, sched: Schedule)
    returns (ret: int, ghost logSize: nat)
    requires ctx.Valid() && ctx.drv.pc == Ready && -0x8000_0000 <= cq.cqe < 0x8000_0000
    modifies cq, heap, ctx, ctx.ring, ctx.pool
    ensures dma.Refused? ==> ctx.Valid() && ctx.View() == old(ctx.View()) && ret == -1
    ensures dma.Granted? ==>
              && logSize < 0x100 && Pow2(logSize) <= (if old(cq.cqe) > 0 then old(cq.cqe) else 64) < Pow2(logSize + 1)
              && ctx.Sent(old(ctx.View()), CreateCqCall(logSize, dma.dma), sched)
              && ret == (if ObjectTable.Returned(ctx.View()).Some? then 0 else -1)
    ensures cq.cqe == if ret == 0 then AsInt(ObjectTable.Returned(ctx.View()).value) else old(cq.cqe)
    ensures var (h, md) := DmaMemory.Alloc(old(heap.heap));
            heap.heap == if dma.Refused? then old(heap.heap) else if ret == 0 then h else DmaMemory.Release(h, md)
  {
    hide ExecuteCall, ObjectTable.HandleIn, CqInput;
    logSize := 0;
    var cqeCount: u32 := if cq.cqe > 0 then cq.cqe else 64;
    var md := heap.Allocate(dma.Granted?);
    if md.None? {
      return -1, logSize;
    }
    var logCqSize := Log2(cqeCount);
    Log2Small(cqeCount, logCqSize);
    logSize := logCqSize;
    var inBuf := BuildCqInput(logCqSize, dma.dma);
    var acked, out := Request(ctx, 0x400, 0, inBuf[..0x48], 16, sched);
    if !acked {
      heap.Free(md.value);
      return -1, logSize;
    }
    cq.cqe := AsInt(ObjectTable.HandleIn(out));
    ret := 0;
  }

  lemma Log2Small(n: u32, k: nat)
    requires Pow2(k) <= n
    ensures k < 32
  {
    LargePower(k);
  }

  lemma LargePower(k: nat)
    ensures k >= 32 ==> Pow2(k) >= TWO_32
  {
    Pow2Values();
    if k >= 32 { Pow2Monotone(32, k); }
  }

  method BuildCqInput(logSize: u8, dma: u64) returns (inBuf: array<u8>)
    ensures fresh(inBuf) && inBuf.Length == 256 && inBuf[..0x48] == CqInput(logSize, dma)
  {
    hide Be64Bytes, PutAll;
    inBuf := ZeroedBytes(256);
    ghost var z, fs := Zeros(256), CqFields(logSize, dma);
    NoFields(z, fs);
    StoreField(inBuf, z, fs, 0, 0x0C, [logSize]);
    StoreField(inBuf, z, fs, 1, 0x0E, [1]);
    StoreField(inBuf, z, fs, 2, 0x40, Be64Bytes(dma));
  }

  /** mlx5_ib_destroy_cq: names the number that create_cq stored. */
  method DestroyCq(cq: CompletionQueue, ctx: CmdContext, sched: Schedule) returns (ret: int)
    requires ctx.Valid() && ctx.drv.pc == Ready
    modifies ctx, ctx.ring, ctx.pool
    ensures ctx.Sent(old(ctx.View()), ObjectTable.DestroyCall(ObjectTable.CQ, cq.cqe % TWO_32), sched)
    ensures ret == if ObjectTable.Succeeded(ctx.View()) then 0 else -1
  {
    hide ExecuteCall, Be32Bytes;
    var acked := DestroyRequest(ctx, 0x401, 0, AsU32(cq.cqe), sched);
    ret := if acked then 0 else -1;
  }

  /** The CQ number survives its stay in a signed field. */
  lemma CqNumberSurvives(cqn: u32)
    ensures AsU32(AsInt(cqn)) == cqn == AsInt(cqn) % TWO_32 && -0x8000_0000 <= AsInt(cqn) < 0x8000_0000
  {
    assert (cqn - TWO_32) % TWO_32 == cqn;
  }
}
