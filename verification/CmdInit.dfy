/** mlx5_cmd_init: ring and mailbox layout, ownership of the entries, and the
    registration of the ring with the firmware. */
module CmdInit {
  import opened Words
  import opened Wrappers
  import opened Bits
  import opened Memory
  import opened CmdProtocol
  import CmdRefinement
  import opened CmdQueue

  const ENTRY_SIZE := 64
  const MAX_CMD_ENTRIES := 32

  const ISEG_CMDQ_PARAMS := 0x10
  const ISEG_CMDQ_ADDR_L := 0x14
  const ISEG_CMDQ_ADDR_H := 0x18
  const ISEG_CMD_DOORBELL := 0x1C

  // ---------------------------------------------------------------- layout

  function LogSize(params: u32): nat { And(Shr(params, 16), 0x1F) }

  function LogStride(params: u32): nat { And(Shr(params, 8), 0x1F) }

  lemma LogFields(params: u32)
    ensures LogSize(params) == Low(Shr(params, 16), 5) < 32
    ensures LogStride(params) == Low(Shr(params, 8), 5) < 32
  {
    hide And, Shr, Low;
    assert Pow2(5) == 32;
    AndLowMask(Shr(params, 16), 5);
    AndLowMask(Shr(params, 8), 5);
  }

  /** The two fields are bits 16..20 and 8..12 of the parameter word. */
  lemma FieldsByDivision(params: u32)
    ensures LogSize(params) == params / 0x1_0000 % 0x20 && LogStride(params) == params / 0x100 % 0x20
  {
    hide And, Shr, Low, LogSize, LogStride;
    LogFields(params);
    Pow2Values();
    ShiftIsDiv(params, 16);
    ShiftIsDiv(params, 8);
    ShiftIsDiv(Shr(params, 16), 5);
    ShiftIsDiv(Shr(params, 8), 5);
  }

  function NumEntries(params: u32): nat {
    if Pow2(LogSize(params)) > MAX_CMD_ENTRIES then MAX_CMD_ENTRIES else Pow2(LogSize(params))
  }

  function EntryStride(params: u32): nat { Pow2(LogStride(params)) }

  /** The 32-bit product the code allocates. */
  function RingSize(params: u32): u32 { (NumEntries(params) * EntryStride(params)) % TWO_32 }

  /** 64-byte entries at multiples of the stride lie inside the ring and apart. */
  ghost predicate RingSound(params: u32) {
    && (forall i :: 0 <= i < NumEntries(params) ==> i * EntryStride(params) + ENTRY_SIZE <= RingSize(params))
    && (forall i, j :: 0 <= i < j < NumEntries(params) ==>
         i * EntryStride(params) + ENTRY_SIZE <= j * EntryStride(params))
  }

  /** What the firmware must report for the layout to be sound. */
  predicate StrideFits(params: nat) {
    var logSize, logStride := params / 0x1_0000 % 0x20, params / 0x100 % 0x20;
    6 <= logStride && logStride + (if logSize < 5 then logSize else 5) <= 31
  }

  lemma EntriesArePower(params: u32)
    ensures NumEntries(params) == Pow2(if LogSize(params) < 5 then LogSize(params) else 5)
  {
    hide LogSize;
    assert Pow2(5) == 32;
    if LogSize(params) < 5 {
      Pow2Monotone(LogSize(params), 5);
    } else {
      Pow2Monotone(5, LogSize(params));
    }
  }

  /** The layout is sound exactly when the stride holds an entry and the clamped
      ring does not overflow 32 bits; with log_stride in 6..26 it always is. */
  lemma RingSoundExact(params: u32)
    ensures RingSound(params) <==> StrideFits(params)
    ensures 6 <= params / 0x100 % 0x20 <= 26 ==> RingSound(params)
  {
    FieldsByDivision(params);
    hide RingSound, Pow2, LogSize, LogStride, RingSize;
    var ls := LogStride(params);
    var k := if LogSize(params) < 5 then LogSize(params) else 5;
    LogFields(params);
    RingSizeIs(params, k, ls);
    if StrideFits(params) {
      WideEnough(params, k, ls);
    } else if ls < 6 {
      Pow2Monotone(ls, 5);
      Pow2Values();
      Narrow(params);
    } else {
      Overflow(k + ls);
      Wrapped(params);
    }
  }

  lemma RingSizeIs(params: u32, k: nat, ls: nat)
    requires ls == LogStride(params) && k == (if LogSize(params) < 5 then LogSize(params) else 5)
    ensures NumEntries(params) == Pow2(k) && EntryStride(params) == Pow2(ls)
    ensures RingSize(params) == Pow2(k + ls) % TWO_32
  {
    hide Pow2, LogSize, LogStride, NumEntries;
    EntriesArePower(params);
    Pow2Add(k, ls);
  }

  lemma WideEnough(params: u32, k: nat, ls: nat)
    requires NumEntries(params) == Pow2(k) && EntryStride(params) == Pow2(ls)
    requires RingSize(params) == Pow2(k + ls) % TWO_32 && ls >= 6 && k + ls <= 31
    ensures RingSound(params)
  {
    hide Pow2, NumEntries, EntryStride, RingSize;
    SixtyFour(ls);
    Pow2Values();
    Pow2Monotone(k + ls, 31);
    Pow2Add(k, ls);
    EntriesApart(Pow2(k), Pow2(ls));
  }

  /** A ring size that wraps to zero holds no entry. */
  lemma Wrapped(params: u32)
    requires RingSize(params) == 0
    ensures !RingSound(params)
  {
    hide EntryStride, RingSize, LogSize;
    assert 0 * EntryStride(params) + ENTRY_SIZE > RingSize(params);
  }

  lemma SixtyFour(ls: nat)
    requires ls >= 6
    ensures Pow2(ls) >= ENTRY_SIZE
  {
    Pow2Monotone(6, ls);
    assert Pow2(6) == 64;
  }

  lemma EntriesApart(n: nat, w: nat)
    requires w >= ENTRY_SIZE
    ensures forall i :: 0 <= i < n ==> i * w + ENTRY_SIZE <= n * w
    ensures forall i, j :: 0 <= i < j < n ==> i * w + ENTRY_SIZE <= j * w
  {
    forall i | 0 <= i < n
      ensures i * w + ENTRY_SIZE <= n * w
    {
      BlockFits(n, w, i);
    }
    forall i, j | 0 <= i < j < n
      ensures i * w + ENTRY_SIZE <= j * w
    {
      BlocksApart(w, i, j);
    }
  }

  lemma Narrow(params: u32)
    requires EntryStride(params) <= 32
    ensures !RingSound(params)
  {
    hide EntryStride, LogSize;
    var w := EntryStride(params);
    if NumEntries(params) == 1 {
      assert 0 * w + ENTRY_SIZE > RingSize(params);
    } else {
      assert !(0 * w + ENTRY_SIZE <= 1 * w);
    }
  }

  /** A power of two from 2^32 on is a multiple of 2^32. */
  lemma {:induction false} Overflow(e: nat)
    requires e >= 32
    ensures Pow2(e) % TWO_32 == 0
  {
    if e > 32 {
      Overflow(e - 1);
      Doubled(Pow2(e - 1));
    } else {
      Pow2Values();
    }
  }

  lemma Doubled(x: nat)
    requires x % TWO_32 == 0
    ensures (2 * x) % TWO_32 == 0
  {
    Unique(2 * x, TWO_32, 2 * (x / TWO_32), 0);
  }

  /** In and out mailboxes of all slots are disjoint parts of the pool, and a bus
      address computed for a mailbox refers to the same one, whatever the base. */
  lemma MailboxesSound(entries: nat, slot: nat, other: nat, base: u64)
    requires slot < entries <= MAX_CMD_ENTRIES && other < entries
    ensures var pool := 2 * entries * MAILBOX_SIZE;
            var a, b := 2 * slot * MAILBOX_SIZE, (2 * slot + 1) * MAILBOX_SIZE;
            && pool < TWO_32
            && a + MAILBOX_SIZE <= b && b + MAILBOX_SIZE <= pool
            && (slot < other ==> b + MAILBOX_SIZE <= 2 * other * MAILBOX_SIZE)
            && (MailboxDma(base, 2 * slot) - base) % TWO_64 == a
            && (MailboxDma(base, 2 * slot + 1) - base) % TWO_64 == b
  {
    CmdRefinement.OffsetFromBase(base, 2 * slot * MAILBOX_SIZE);
    CmdRefinement.OffsetFromBase(base, (2 * slot + 1) * MAILBOX_SIZE);
  }

  // ---------------------------------------------------------------- initialisation

  /** What the platform returns for the ring memory and its bus mapping. */
  datatype RingMemory = RingRefused | RingNoDma | RingMapFailed(err: IOReturn) | RingAt(dma: u64)

  /** For the pool a failed mapping is not an error: its bus address stays 0. */
  datatype PoolMemory = PoolRefused | PoolUnmapped | PoolAt(dma: u64)

  /** Where the device reaches the pool. */
  function PoolBus(p: PoolMemory): Option<u64> { if p.PoolAt? then Some(p.dma) else None }

  /** iseg_write32 */
  method IsegWrite32(iseg: array<u8>, offset: nat, val: u32)
    requires offset + 4 <= iseg.Length
    modifies iseg
    ensures iseg[..] == Put(old(iseg[..]), offset, BeBytes(val, 4))
    ensures forall i :: 0 <= i < iseg.Length && (i < offset || i >= offset + 4) ==> iseg[i] == old(iseg[i])
  {
    hide LeBytes, BeBytes, Swap32;
    ghost var was := iseg[..];
    Be32IsBig(val);
    Store(iseg, offset, LeBytes(Swap32(val), 4));
    forall i | 0 <= i < iseg.Length && (i < offset || i >= offset + 4)
      ensures iseg[i] == was[i]
    {
      PutAt(was, offset, BeBytes(val, 4), i);
      assert iseg[i] == iseg[..][i];
    }
  }

  lemma Be32IsBig(val: u32)
    ensures LeBytes(Swap32(val), 4) == BeBytes(val, 4)
  {
    StoreSwapped(val, 4);
  }

  lemma WordRegistered(val: u32)
    ensures BeValue(BeBytes(val, 4)) == val
  {
    assert Pow256(4) == TWO_32;
    BeRoundTrip(val, 4);
  }

  /** The parameters are the big-endian word at byte 16. */
  lemma ParamsRead(iseg: seq<u8>)
    requires |iseg| >= 0x200
    ensures Params(iseg) == BeValue(iseg[0x10..0x14])
  {
    LoadSwapped(iseg[0x10..0x14]);
  }

  method ClearEntries(ring: array<Entry>)
    modifies ring
    ensures ring[..] == seq(ring.Length, i => INIT_ENTRY)
  {
    for i := 0 to ring.Length
      invariant forall j :: 0 <= j < i ==> ring[j] == INIT_ENTRY
    {
      ring[i] := Entry(0, 0, 0, 0, 0, 0, 0);
      ring[i] := ring[i].(status := 0, token := 0xFFFF_FFFF);
    }
  }

  /** mlx5_cmd_init. For parameters that give a sound layout, success leaves the queue
      in the start state, all entries software-owned, with the pool reachable only if
      its mapping succeeded; the firmware reads the ring's bus address back from the
      two address registers. */
  method Init(iseg: array<u8>, ringMem: RingMemory, poolMem: PoolMemory) returns (ret: IOReturn, ctx: CmdContext?)
    requires iseg.Length >= 0x200
    modifies iseg
    ensures !ringMem.RingAt? ==> ctx == null && ret != KernSuccess && iseg[..] == old(iseg[..])
    ensures ringMem.RingRefused? ==> ret == KernNoMemory
    ensures ringMem.RingNoDma? ==> ret == KernNoResources
    ensures ringMem.RingMapFailed? ==> ret == if ringMem.err == KernSuccess then KernError else ringMem.err
    ensures forall i :: 0 <= i < iseg.Length && (i < 0x14 || i >= 0x20) ==> iseg[i] == old(iseg[i])
    ensures ringMem.RingAt? && StrideFits(BeValue(old(iseg[0x10..0x14]))) ==>
              && (if poolMem.PoolRefused? then ctx == null && ret == KernNoMemory
                  else ctx != null && ret == KernSuccess)
              && BeValue(iseg[0x14..0x18]) + TWO_32 * BeValue(iseg[0x18..0x1C]) == ringMem.dma
              && (ctx != null ==>
                   && BeValue(iseg[0x1C..0x20]) == 0xFFFF_FFFF
                   && fresh(ctx) && fresh(ctx.ring) && fresh(ctx.pool) && ctx.Valid()
                   && ctx.View() == StartState(ctx.numEntries, PoolBus(poolMem))
                   && var logSize := BeValue(old(iseg[0x10..0x14])) / 0x1_0000 % 0x20;
                   && ctx.numEntries == Pow2(if logSize < 5 then logSize else 5)
                   && (forall i :: 0 <= i < ctx.numEntries ==>
                          ctx.ring[i].status == 0 && ctx.ring[i].token == 0xFFFF_FFFF)
                   && ctx.pool[..] == Zeros(2 * ctx.numEntries * 4096)
                   && ctx.nextToken == 0 && ctx.totalCommands == 0 && ctx.failedCommands == 0
                   && ctx.mboxDma == (if poolMem.PoolAt? then poolMem.dma else 0))
  {
    hide BeValue, LeValue, LeBytes, BeBytes, LogSize, LogStride, StrideFits, Swap32;
    ctx := null;
    ghost var was := iseg[..];
    ParamsRead(was);
    assert was[0x10..0x14] == iseg[0x10..0x14];
    var params := Params(iseg[..]);
    FieldsByDivision(params);
    EntriesArePower(params);
    var numEntries := Pow2(LogSize(params));
    if numEntries > MAX_CMD_ENTRIES {
      numEntries := MAX_CMD_ENTRIES;
    }
    match ringMem {
      case RingRefused => return KernNoMemory, null;
      case RingNoDma => return KernNoResources, null;
      case RingMapFailed(err) => return if err == KernSuccess then KernError else err, null;
      case RingAt(_) =>
    }
    var ring := new Entry[numEntries](i => INIT_ENTRY);
    ClearEntries(ring);
    IsegWrite32(iseg, ISEG_CMDQ_ADDR_L, ringMem.dma % TWO_32);
    ghost var low := iseg[..];
    IsegWrite32(iseg, ISEG_CMDQ_ADDR_H, ringMem.dma / TWO_32);
    AddressRegistered(low, iseg[..], ringMem.dma);
    assert iseg[0x14..0x18] == iseg[..][0x14..0x18] && iseg[0x18..0x1C] == iseg[..][0x18..0x1C];
    if poolMem.PoolRefused? {
      return KernNoMemory, null;
    }
    var pool := new u8[2 * numEntries * MAILBOX_SIZE](i => 0);
    ZeroBlocks(2 * numEntries, MAILBOX_SIZE);
    assert pool[..] == Zeros(2 * numEntries * MAILBOX_SIZE);
    ctx := new CmdContext(numEntries, ring, pool, if poolMem.PoolAt? then poolMem.dma else 0, PoolBus(poolMem));
    ghost var registered := iseg[..];
    IsegWrite32(iseg, ISEG_CMD_DOORBELL, 0xFFFF_FFFF);
    PutElsewhere(registered, ISEG_CMD_DOORBELL, BeBytes(0xFFFF_FFFF, 4), ISEG_CMDQ_ADDR_L, 4);
    PutElsewhere(registered, ISEG_CMD_DOORBELL, BeBytes(0xFFFF_FFFF, 4), ISEG_CMDQ_ADDR_H, 4);
    WordRegistered(0xFFFF_FFFF);
    assert iseg[0x1C..0x20] == iseg[..][0x1C..0x20];
    assert iseg[0x14..0x18] == iseg[..][0x14..0x18] && iseg[0x18..0x1C] == iseg[..][0x18..0x1C];
    ret := KernSuccess;
  }

  /** The queue parameters as iseg_read32 returns them. */
  function Params(iseg: seq<u8>): u32
    requires |iseg| >= 0x200
  {
    Swap32(LeValue32(iseg[ISEG_CMDQ_PARAMS..ISEG_CMDQ_PARAMS + 4]))
  }

  function LeValue32(bs: seq<u8>): u32
    requires |bs| == 4
  {
    assert Pow256(4) == TWO_32;
    LeValue(bs)
  }

  lemma AddressRegistered(low: seq<u8>, both: seq<u8>, dma: u64)
    requires |low| >= 0x200
    requires low[ISEG_CMDQ_ADDR_L..ISEG_CMDQ_ADDR_L + 4] == BeBytes(dma % TWO_32, 4)
    requires both == Put(low, ISEG_CMDQ_ADDR_H, BeBytes(dma / TWO_32, 4))
    ensures BeValue(both[ISEG_CMDQ_ADDR_L..ISEG_CMDQ_ADDR_L + 4])
            + TWO_32 * BeValue(both[ISEG_CMDQ_ADDR_H..ISEG_CMDQ_ADDR_H + 4]) == dma
  {
    hide BeValue, BeBytes;
    assert Pow256(4) == TWO_32;
    BeRoundTrip(dma % TWO_32, 4);
    BeRoundTrip(dma / TWO_32, 4);
    PutElsewhere(low, ISEG_CMDQ_ADDR_H, BeBytes(dma / TWO_32, 4), ISEG_CMDQ_ADDR_L, 4);
  }
}
