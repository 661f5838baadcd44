/** Memory registration (kext/mlx5_mr.cpp): the page list, the CREATE_MKEY context
    and the region object. */
module MemoryRegions {
  import opened Words
  import opened Bits
  import opened Wrappers
  import opened Memory
  import opened CmdProtocol
  import opened CmdRefinement
  import opened CmdQueue
  import opened VerbSupport
  import DmaMemory
  import ObjectTable

  const PAGE_SIZE := 4096

  // ---------------------------------------------------------------- the page list

  /** Pages for a 32-bit length, computed in 32-bit arithmetic. */
  function PageCount(length: u32): (n: u32)
    ensures n >= 1
  {
    var npages := ((length + PAGE_SIZE - 1) % TWO_32) / PAGE_SIZE;
    if npages == 0 then 1 else npages
  }

  function PasSize(npages: u32): u32 { (npages * 8) % TWO_32 }

  /** The list size rounded up to 4 KB: `(size + 4095) & ~4095`. */
  function PasAlloc(npages: u32): u32 {
    RoundIs((PasSize(npages) + 4095) % TWO_32);
    And((PasSize(npages) + 4095) % TWO_32, 0xFFFF_F000)
  }

  lemma RoundIs(x: u32)
    ensures And(x, 0xFFFF_F000) == x - x % 4096
  {
    hide And, Shl, Shr, Low;
    Pow2Values();
    ShlIsMul(0xF_FFFF, 12);
    AndSplit(x, 12, 0, 0xF_FFFF);
    AndZero(Low(x, 12));
    ShiftIsDiv(x, 12);
    Pow2Add(12, 8);
    AndLowMask(Shr(x, 12), 20);
    ShiftIsDiv(Shr(x, 12), 20);
    ShlIsMul(x / 4096, 12);
  }

  /** The page count is the least that covers the region, one when it is empty, and
      the list fits its rounded allocation. */
  lemma PageCountExact(length: u32)
    requires length <= TWO_32 - PAGE_SIZE
    ensures var n := PageCount(length);
            && length <= n * 4096
            && ((n - 1) * 4096 < length || (n == 1 && length == 0))
            && n * 8 == PasSize(n) <= PasAlloc(n)
            && PasAlloc(n) % 4096 == 0 && PasAlloc(n) < n * 8 + 4096
  {
    hide And, PasAlloc;
    PageCountBound(length);
    PasAllocIs(PageCount(length));
  }

  lemma PageCountBound(length: u32)
    ensures PageCount(length) <= 0x10_0000
  {
  }

  lemma PasAllocIs(npages: u32)
    requires npages <= 0x10_0000
    ensures PasSize(npages) == npages * 8 <= PasAlloc(npages)
    ensures PasAlloc(npages) % PAGE_SIZE == 0 && PasAlloc(npages) < npages * 8 + PAGE_SIZE
    ensures PasAlloc(npages) / 8 * 8 == PasAlloc(npages) && npages <= PasAlloc(npages) / 8
  {
    hide And;
    RoundIs((PasSize(npages) + 4095) % TWO_32);
    WholeEntries(PasAlloc(npages), npages);
  }

  /** A multiple of the page size holds whole entries. */
  lemma WholeEntries(size: nat, n: nat)
    requires size % PAGE_SIZE == 0 && n * 8 <= size
    ensures size / 8 * 8 == size && n <= size / 8
  {
    assert size == size / PAGE_SIZE * PAGE_SIZE;
    assert size == (size / PAGE_SIZE * 512) * 8;
  }

  function PageAddress(base: u64, i: nat): u64 { (base + i * PAGE_SIZE) % TWO_64 }

  /** The page list as stored, big-endian, one entry a page. */
  function PasList(base: u64, npages: nat): (pas: seq<u64>)
    ensures |pas| == npages
    ensures forall i :: 0 <= i < npages ==> pas[i] == Swap64(PageAddress(base, i))
  {
    seq(npages, i requires 0 <= i < npages => Swap64(PageAddress(base, i)))
  }

  /** Each entry in memory, read big-endian, is the address of its page. */
  lemma PasEntry(base: u64, npages: nat, i: nat)
    requires i < npages
    ensures BeValue(LeBytes(PasList(base, npages)[i], 8)) == (base + i * 4096) % TWO_64
  {
    hide BeValue, LeBytes, Swap64;
    Be64Reads(PageAddress(base, i));
  }

  /** The device's lookup of region offset `o` in the page list. */
  function Translate(pas: seq<u64>, o: nat): Option<u64> {
    if o / PAGE_SIZE < |pas| then Some((Swap64(pas[o / PAGE_SIZE]) + o % PAGE_SIZE) % TWO_64) else None
  }

  lemma TranslateEntry(base: u64, npages: nat, o: nat)
    requires o / PAGE_SIZE < npages
    ensures Translate(PasList(base, npages), o) == Some((base + o) % TWO_64)
  {
    hide Swap64;
    var i := o / PAGE_SIZE;
    Swap64Involution(PageAddress(base, i));
    assert o == i * PAGE_SIZE + o % PAGE_SIZE;
    AddMod(base + i * PAGE_SIZE, o % PAGE_SIZE);
  }

  lemma AddMod(a: nat, b: nat)
    ensures (a % TWO_64 + b) % TWO_64 == (a + b) % TWO_64
  {
    DivMod(a, TWO_64);
    var r := (a % TWO_64 + b) % TWO_64;
    DivMod(a % TWO_64 + b, TWO_64);
    Unique(a + b, TWO_64, a / TWO_64 + (a % TWO_64 + b) / TWO_64, r);
  }

  /** The list built for a region of `length` bytes: the code passes the low 32 bits. */
  function RegionPas(base: u64, length: u64): seq<u64> {
    PasList(base, PageCount(length % TWO_32))
  }

  /** Beyond the bound the list ends inside the region. */
  lemma TooLong(length: u64)
    requires length > TWO_32 - PAGE_SIZE
    ensures PageCount(length % TWO_32) * PAGE_SIZE < length
  {
    PageCountBound(length % TWO_32);
    if length < TWO_32 {
      assert length % TWO_32 == length;
      assert (length + PAGE_SIZE - 1) % TWO_32 == length + PAGE_SIZE - 1 - TWO_32;
    } else {
      PageCountAtMost(length % TWO_32);
    }
  }

  lemma PageCountAtMost(length: u32)
    ensures PageCount(length) * PAGE_SIZE <= length + PAGE_SIZE - 1 || PageCount(length) == 1
    ensures PageCount(length) * PAGE_SIZE < TWO_32
  {
  }

  ghost predicate Translates(base: u64, length: u64) {
    forall o: nat :: o < length ==> Translate(RegionPas(base, length), o) == Some((base + o) % TWO_64)
  }

  /** Translation equals contiguous memory for every offset of the region exactly
      when the 64-bit length is at most 2^32 - 4096. */
  lemma TranslationExact(base: u64, length: u64)
    ensures Translates(base, length) <==> length <= TWO_32 - PAGE_SIZE
  {
    hide Swap64, PageCount, PasList;
    var l := length % TWO_32;
    var n := PageCount(l);
    if length <= TWO_32 - PAGE_SIZE {
      PageCountExact(l);
      forall o: nat | o < length
        ensures Translate(RegionPas(base, length), o) == Some((base + o) % TWO_64)
      {
        TranslateEntry(base, n, o);
      }
    } else {
      TooLong(length);
      assert Translate(RegionPas(base, length), n * PAGE_SIZE) == None;
    }
  }

  // ---------------------------------------------------------------- CREATE_MKEY input

  const MKC := 16

  /** The access bits, one test per flag. */
  function AccessBits(flags: u32): nat {
    var a0 := if And(flags, 1) != 0 then Or(0, 1) else 0;
    var a1 := if And(flags, 2) != 0 then Or(a0, 2) else a0;
    if And(flags, 4) != 0 then Or(a1, 4) else a1
  }

  lemma AccessBitsExact(flags: u32)
    ensures AccessBits(flags) == flags % 8
  {
    hide And, Or;
    FlagTests(flags);
    OrValues();
    ThreeBits(flags);
  }

  lemma ThreeBits(x: nat)
    ensures x % 8 == x % 2 + 2 * (x / 2 % 2) + 4 * (x / 4 % 2)
  {
    var q, r := x / 8, x % 8;
    EightCases(r);
    Unique(x, 2, 4 * q + r / 2, r % 2);
    Unique(x / 2, 2, 2 * q + r / 4, r / 2 % 2);
    Unique(x, 4, 2 * q + r / 4, r % 4);
    Unique(x / 4, 2, q, r / 4);
  }

  lemma EightCases(r: nat)
    requires r < 8
    ensures r == r % 2 + 2 * (r / 2) && r / 2 == r / 2 % 2 + 2 * (r / 4) && r == r % 4 + 4 * (r / 4) && r / 4 < 2
  {
  }

  lemma FlagTests(x: u32)
    ensures And(x, 1) == x % 2
    ensures And(x, 2) == 2 * (x / 2 % 2)
    ensures And(x, 4) == 4 * (x / 4 % 2)
  {
    hide And;
    AndUnfold(x, 1);
    AndZero(x / 2);
    AndUnfold(x, 2);
    AndUnfold(x / 2, 1);
    AndZero(x / 2 / 2);
    AndUnfold(x, 4);
    AndUnfold(x / 2, 2);
    AndUnfold(x / 2 / 2, 1);
    AndZero(x / 2 / 2 / 2);
  }

  lemma OrValues()
    ensures Or(0, 1) == 1 && Or(0, 2) == 2 && Or(1, 2) == 3
    ensures Or(0, 4) == 4 && Or(1, 4) == 5 && Or(2, 4) == 6 && Or(3, 4) == 7
  {
  }

  function AccessWord(flags: u32): (w: u32)
    ensures w == flags % 8
  {
    AccessBitsExact(flags);
    AccessBits(flags)
  }

  /** The MKC fields, then the address of the page list. */
  function MkeyFields(flags: u32, length: u64, iova: u64, pdn: u32, pasDma: u64): seq<Field> {
    [Field(MKC + 0x00, [1]), Field(MKC + 0x04, Be32Bytes(AccessWord(flags))), Field(MKC + 0x08, Be64Bytes(length)),
     Field(MKC + 0x10, Be64Bytes(iova)), Field(MKC + 0x40, Be32Bytes(pdn)), Field(MKC + 0x58, [12]),
     Field(0x100, Be64Bytes(pasDma))]
  }

  /** The field writes stay inside the buffer and do not overlap. */
  lemma MkeyFieldsApart(flags: u32, length: u64, iova: u64, pdn: u32, pasDma: u64)
    ensures var fs := MkeyFields(flags, length, iova, pdn, pasDma); Inside(fs, 0x110) && Apart(fs)
  {
    hide Be32Bytes, Be64Bytes;
  }

  function MkeyInput(flags: u32, length: u64, iova: u64, pdn: u32, pasDma: u64): (bs: seq<u8>)
    ensures |bs| == 0x110
  {
    MkeyFieldsApart(flags, length, iova, pdn, pasDma);
    PutAll(Zeros(512), MkeyFields(flags, length, iova, pdn, pasDma))[..0x110]
  }

  function CreateMkeyCall(flags: u32, length: u64, iova: u64, pdn: u32, pasDma: u64): Call {
    ObjectTable.CreateCall(ObjectTable.MR, MkeyInput(flags, length, iova, pdn, pasDma))
  }

  /** One field of the input as it arrives in the firmware's mailbox. */
  lemma MkeyFieldArrives(flags: u32, length: u64, iova: u64, pdn: u32, pasDma: u64, i: nat)
    requires i < 7
    ensures var f := MkeyFields(flags, length, iova, pdn, pasDma)[i];
            && 16 + f.off + |f.bs| <= MAILBOX_SIZE
            && WireMailbox(CreateMkeyCall(flags, length, iova, pdn, pasDma))[16 + f.off..16 + f.off + |f.bs|] == f.bs
  {
    hide Be32Bytes, Be64Bytes, WireMailbox, PutAll, AccessWord, BeValue;
    var fs := MkeyFields(flags, length, iova, pdn, pasDma);
    var f := fs[i];
    var b := PutAll(Zeros(512), fs);
    var c := CreateMkeyCall(flags, length, iova, pdn, pasDma);
    var m := WireMailbox(c);
    MkeyFieldsApart(flags, length, iova, pdn, pasDma);
    FieldSurvives(Zeros(512), fs, i);
    WireFields(c);
    assert c.input[..0x110] == c.input == b[..0x110];
    assert m[16..16 + 0x110] == b[..0x110];
    SliceOfSlice(m, 16, 16 + 0x110, f.off, f.off + |f.bs|);
    SliceOfSlice(b, 0, 0x110, f.off, f.off + |f.bs|);
  }

  /** The mailbox bytes of the seven fields. */
  predicate Covered(j: nat) {
    j == 32 || 36 <= j < 56 || 96 <= j < 100 || j == 120 || 0x110 <= j < 0x118
  }

  lemma MkeyBlank(flags: u32, length: u64, iova: u64, pdn: u32, pasDma: u64)
    ensures var m := WireMailbox(CreateMkeyCall(flags, length, iova, pdn, pasDma));
            forall j :: 16 <= j < 4096 && !Covered(j) ==> m[j] == 0
  {
    hide Be32Bytes, Be64Bytes, WireMailbox, PutAll, AccessWord, BeValue;
    var fs := MkeyFields(flags, length, iova, pdn, pasDma);
    var b := PutAll(Zeros(512), fs);
    var c := CreateMkeyCall(flags, length, iova, pdn, pasDma);
    var m := WireMailbox(c);
    MkeyFieldsApart(flags, length, iova, pdn, pasDma);
    WireFields(c);
    assert c.input[..0x110] == c.input == b[..0x110];
    assert m[16..16 + 0x110] == b[..0x110];
    forall j | 16 <= j < 4096 && !Covered(j)
      ensures m[j] == 0
    {
      if j < 0x120 {
        BlankElsewhere(512, fs, j - 16);
        assert m[j] == m[16..16 + 0x110][j - 16] == b[j - 16];
      } else {
        assert m[j] == m[0x120..][j - 0x120];
      }
    }
  }

  /** Decoding the firmware's mailbox at the MKC offsets recovers the access flags
      modulo 8, the length, the I/O address, the PD number, log page size 12 and the
      page-list address. */
  lemma MkeyRoundTrip(flags: u32, length: u64, iova: u64, pdn: u32, pasDma: u64)
    ensures var c := CreateMkeyCall(flags, length, iova, pdn, pasDma); var m := WireMailbox(c);
            var mkc := 32;
            && c.opcode == 0x200 && c.opMod == 0 && c.outLen == 64
            && m[mkc] == 1
            && BeValue(m[mkc + 0x04..mkc + 0x08]) == flags % 8
            && BeValue(m[mkc + 0x08..mkc + 0x10]) == length
            && BeValue(m[mkc + 0x10..mkc + 0x18]) == iova
            && BeValue(m[mkc + 0x40..mkc + 0x44]) == pdn
            && m[mkc + 0x58] == 12
            && BeValue(m[0x110..0x118]) == pasDma
            && forall j :: 16 <= j < 4096 && !Covered(j) ==> m[j] == 0
  {
    hide BeValue, WireMailbox, Be32Bytes, Be64Bytes, MkeyInput, AccessWord;
    MkeyFieldArrives(flags, length, iova, pdn, pasDma, 0);
    MkeyFieldArrives(flags, length, iova, pdn, pasDma, 1);
    MkeyFieldArrives(flags, length, iova, pdn, pasDma, 2);
    MkeyFieldArrives(flags, length, iova, pdn, pasDma, 3);
    MkeyFieldArrives(flags, length, iova, pdn, pasDma, 4);
    MkeyFieldArrives(flags, length, iova, pdn, pasDma, 5);
    MkeyFieldArrives(flags, length, iova, pdn, pasDma, 6);
    Be32Reads(AccessWord(flags));
    Be64Reads(length);
    Be64Reads(iova);
    Be32Reads(pdn);
    Be64Reads(pasDma);
    var m := WireMailbox(CreateMkeyCall(flags, length, iova, pdn, pasDma));
    MkeyBlank(flags, length, iova, pdn, pasDma);
    assert m[32..33] == [1] && m[120..121] == [12];
    assert m[32] == m[32..33][0] && m[120] == m[120..121][0];
  }

  // ---------------------------------------------------------------- the verbs

  class ProtectionDomain {
    var localDmaLkey: u32
  }

  class MemoryRegion {
    var mkey: u32
    var pas: array<u64>
    var npages: u32
    var pasMd: nat
    var lkey: u32
    var rkey: u32
    var iova: u64
    var length: u64

    constructor (mkey: u32, pas: array<u64>, npages: u32, pasMd: nat, iova: u64, length: u64)
      ensures this.mkey == mkey && this.pas == pas && this.npages == npages && this.pasMd == pasMd
      ensures lkey == (mkey * 0x100) % TWO_32 && rkey == lkey
      ensures this.iova == iova && this.length == length
    {
      this.mkey, this.pas, this.npages, this.pasMd := mkey, pas, npages, pasMd;
      this.lkey, this.rkey := (mkey * 256) % TWO_32, (mkey * 256) % TWO_32;
      this.iova, this.length := iova, length;
    }
  }

  /** build_pas_list: null when the platform refuses the memory. */
  method BuildPasList(base: u64, length: u32, granted: bool, heap: DmaMemory.DmaHeap)
    returns (pas: array?<u64>, npages: u32, md: nat)
    modifies heap
    ensures pas != null <==> granted
    ensures pas == null ==> heap.heap == old(heap.heap)
    ensures pas != null ==>
              && fresh(pas) && npages == PageCount(length) && pas.Length * 8 == PasAlloc(npages)
              && npages <= pas.Length && pas[..npages] == PasList(base, npages)
              && (forall i :: npages <= i < pas.Length ==> pas[i] == 0)
              && heap.heap == DmaMemory.Alloc(old(heap.heap)).0 && md == DmaMemory.Alloc(old(heap.heap)).1
  {
    npages := ((length + PAGE_SIZE - 1) % TWO_32) / PAGE_SIZE;
    if npages == 0 {
      npages := 1;
    }
    assert npages == PageCount(length);
    hide Swap64, And, PageCount, PasAlloc, PasSize, PageAddress, PasList, DmaMemory.Alloc;
    md := 0;
    var m := heap.Allocate(granted);
    if m.None? {
      return null, npages, md;
    }
    md := m.value;
    PageCountBound(length);
    PasAllocIs(npages);
    pas := new u64[PasAlloc(npages) / 8](i => 0);
    FillPas(pas, base, npages);
  }

  /** The loop that stores one page address an entry. */
  method FillPas(pas: array<u64>, base: u64, npages: u32)
    requires npages <= pas.Length && forall j :: 0 <= j < pas.Length ==> pas[j] == 0
    modifies pas
    ensures pas[..npages] == PasList(base, npages)
    ensures forall j :: npages <= j < pas.Length ==> pas[j] == 0
  {
    hide Swap64, PageAddress;
    var i := 0;
    while i < npages
      invariant 0 <= i <= npages
      invariant forall j :: 0 <= j < i ==> pas[j] == Swap64(PageAddress(base, j))
      invariant forall j :: i <= j < pas.Length ==> pas[j] == 0
    {
      pas[i] := Swap64(PageAddress(base, i));
      i := i + 1;
    }
  }

  /** Leaving the PD field out is the same as writing zero. */
  lemma PdFieldBlank(flags: u32, length: u64, iova: u64, pasDma: u64)
    ensures var fs := MkeyFields(flags, length, iova, 0, pasDma);
            Inside(fs[..4], 512) && Inside(fs[..5], 512) && PutAll(Zeros(512), fs[..4]) == PutAll(Zeros(512), fs[..5])
  {
    hide Be32Bytes, Be64Bytes, PutAll;
    var fs := MkeyFields(flags, length, iova, 0, pasDma);
    var m := PutAll(Zeros(512), fs[..4]);
    MkeyFieldsApart(flags, length, iova, 0, pasDma);
    Untouched(Zeros(512), fs[..4], MKC + 0x40, 4);
    assert Be32Bytes(0) == Zeros(4) by { ZeroWord(); }
    assert Zeros(512)[MKC + 0x40..MKC + 0x44] == Zeros(4);
    PutSame(m, MKC + 0x40, Be32Bytes(0));
    LastField(Zeros(512), fs[..5]);
    assert fs[..5][..4] == fs[..4];
  }

  lemma ZeroWord()
    ensures Be32Bytes(0) == Zeros(4)
  {
  }

  lemma LastField(m: seq<u8>, fs: seq<Field>)
    requires Inside(fs, |m|) && fs != []
    ensures var n := |fs| - 1; Inside(fs[..n], |m|) && PutAll(m, fs) == Put(PutAll(m, fs[..n]), fs[n].off, fs[n].bs)
  {
  }

  /** The CREATE_MKEY input buffer. */
  method BuildMkeyInput(flags: u32, length: u64, iova: u64, pd: ProtectionDomain?, pasDma: u64)
    returns (inBuf: array<u8>)
    ensures fresh(inBuf) && inBuf.Length == 512
    ensures inBuf[..0x110] == MkeyInput(flags, length, iova, if pd == null then 0 else pd.localDmaLkey, pasDma)
  {
    hide Be32Bytes, Be64Bytes, AccessBits, PutAll, And, Or;
    ghost var pdn: u32 := if pd == null then 0 else pd.localDmaLkey;
    inBuf := ZeroedBytes(512);
    ghost var z, fs := Zeros(512), MkeyFields(flags, length, iova, pdn, pasDma);
    MkeyFieldsApart(flags, length, iova, pdn, pasDma);
    NoFields(z, fs);
    StoreField(inBuf, z, fs, 0, MKC, [1]);
    AccessBitsExact(flags);
    StoreField(inBuf, z, fs, 1, MKC + 0x04, Be32Bytes(AccessBits(flags)));
    StoreField(inBuf, z, fs, 2, MKC + 0x08, Be64Bytes(length));
    StoreField(inBuf, z, fs, 3, MKC + 0x10, Be64Bytes(iova));
    if pd != null {
      StoreField(inBuf, z, fs, 4, MKC + 0x40, Be32Bytes(pd.localDmaLkey));
    } else {
      PdFieldBlank(flags, length, iova, pasDma);
    }
    StoreField(inBuf, z, fs, 5, MKC + 0x58, [12]);
    StoreField(inBuf, z, fs, 6, 0x100, Be64Bytes(pasDma));
  }

  /** mlx5_ib_reg_user_mr_full: null on any failure, with the page list released.
      `pasGrant` and `objectGranted` are the platform's answers. Without a PD the command
      goes out, and `fault` reports the null dereference that follows its success. */
  method RegUserMr(pd: ProtectionDomain?, start: u64, length: u64, virtAddr: u64, flags: u32, ctx: CmdContext,
                   heap: DmaMemory.DmaHeap, pasGrant: Option<u64>, objectGranted: bool, sched: Schedule)
    returns (mr: MemoryRegion?, fault: bool)
    requires ctx.Valid() && ctx.drv.pc == Ready
    modifies heap, ctx, ctx.ring, ctx.pool
    ensures if pasGrant.None? then ctx.Valid() && ctx.View() == old(ctx.View()) && mr == null && !fault
            else
              && (var pdn := if pd == null then 0 else pd.localDmaLkey;
                  ctx.Sent(old(ctx.View()), CreateMkeyCall(flags, length, virtAddr, pdn, pasGrant.value), sched))
              && (mr != null <==> ObjectTable.Returned(ctx.View()).Some? && objectGranted && pd != null)
              && (fault <==> ObjectTable.Returned(ctx.View()).Some? && objectGranted && pd == null)
    ensures fault ==> heap.heap == DmaMemory.Alloc(old(heap.heap)).0
    ensures mr == null && !fault ==>
              heap.heap == if pasGrant.None? then old(heap.heap)
                           else DmaMemory.Release(DmaMemory.Alloc(old(heap.heap)).0, DmaMemory.Alloc(old(heap.heap)).1)
    ensures mr != null ==>
              && heap.heap == DmaMemory.Alloc(old(heap.heap)).0 && mr.pasMd == DmaMemory.Alloc(old(heap.heap)).1
              && fresh(mr) && mr.mkey == ObjectTable.Returned(ctx.View()).value
              && mr.lkey == (mr.mkey * 0x100) % TWO_32 == ObjectTable.Stored(ObjectTable.MR, mr.mkey)
              && mr.rkey == mr.lkey
              && mr.iova == virtAddr && mr.length == length
              && mr.npages <= mr.pas.Length && mr.pas[..mr.npages] == RegionPas(start, length)
  {
    hide ExecuteCall, PasList, PasAlloc, MkeyInput, ObjectTable.HandleIn, Swap64;
    mr, fault := null, false;
    var pas, npages, md := BuildPasList(start, length % TWO_32, pasGrant.Some?, heap);
    if pas == null {
      return;
    }
    var inBuf := BuildMkeyInput(flags, length, virtAddr, pd, pasGrant.value);
    var acked, out := Request(ctx, 0x200, 0, inBuf[..0x110], 64, sched);
    if !acked {
      heap.Free(md);
      return;
    }
    var mkeyIdx := ObjectTable.HandleIn(out);
    if !objectGranted {
      heap.Free(md);
      return;
    }
    if pd == null {
      fault := true;
      return;
    }
    mr := new MemoryRegion(mkeyIdx, pas, npages, md, virtAddr, length);
  }

  /** mlx5_ib_dereg_mr */
  method DeregMr(mr: MemoryRegion, ctx: CmdContext, sched: Schedule) returns (ret: int)
    requires ctx.Valid() && ctx.drv.pc == Ready
    modifies ctx, ctx.ring, ctx.pool
    ensures ctx.Sent(old(ctx.View()), ObjectTable.DestroyCall(ObjectTable.MR, mr.lkey / 0x100), sched)
    ensures mr.lkey / 0x100 == ObjectTable.Named(ObjectTable.MR, mr.lkey)
    ensures ret == if ObjectTable.Succeeded(ctx.View()) then 0 else -1
  {
    hide ExecuteCall, Be32Bytes;
    var acked := DestroyRequest(ctx, 0x201, 0, mr.lkey / 256, sched);
    ret := if acked then 0 else -1;
  }
}
