/** Send and receive work queues of kext/mlx5_qp.cpp: a ring of work-queue entries
    and a doorbell record, filled by the driver and drained by the device. */
module WorkQueue {
  import opened Words
  import opened Bits
  import opened Wrappers

  const OPCODE_RDMA_WRITE := 0x08
  const WQE_BYTES := 16

  datatype Kind = Send(qpn: u32) | Recv

  /** Ring geometry: 2^logCnt entries of 2^shift bytes. */
  datatype Shape = Shape(kind: Kind, logCnt: nat, shift: nat)

  /** The shared memory of one queue and the driver's head. */
  datatype Mem = Mem(slots: seq<seq<u8>>, head: u32, db: u32)

  function Count(g: Shape): nat { Pow2(g.logCnt) }

  /** Geometries whose size fits 32 bits and whose head fits the doorbell: the
      receive doorbell carries 16 bits. */
  predicate Fits(g: Shape) {
    4 <= g.shift && g.logCnt + g.shift <= 31 && (g.kind.Recv? ==> g.logCnt <= 16)
  }

  predicate WellFormed(g: Shape, m: Mem) {
    && |m.slots| == Count(g)
    && (forall i :: 0 <= i < |m.slots| ==> |m.slots[i]| == Pow2(g.shift))
    && m.head < Count(g)
  }

  // ---------------------------------------------------------------- entries

  function OpmodIdxOpcode(head: nat): nat {
    Or(Or(Shl(OPCODE_RDMA_WRITE, 24), Shl(0, 16)), And(head, 0xFFFF))
  }

  function QpnDs(qpn: u32): nat { Or(Shl(And(qpn, 0xFF_FFFF), 8), 2) }

  lemma OpmodIdxOpcodeIs(head: nat)
    ensures OpmodIdxOpcode(head) == 0x0800_0000 + head % 0x1_0000
  {
    Pow2Values();
    ShlIsMul(OPCODE_RDMA_WRITE, 24);
    ShlIsMul(0, 16);
    OrZero(0x0800_0000);
    AndLowMask(head, 16);
    ShiftIsDiv(head, 16);
    ShlIsMul(0x800, 16);
    OrDisjoint(0x800, 16, head % 0x1_0000);
  }

  lemma QpnDsIs(qpn: u32)
    ensures QpnDs(qpn) == (qpn % 0x100_0000) * 0x100 + 2
  {
    Pow2Values();
    AndLowMask(qpn, 24);
    ShiftIsDiv(qpn, 24);
    ShlIsMul(qpn % 0x100_0000, 8);
    OrDisjoint(qpn % 0x100_0000, 8, 2);
  }

  /** The bytes written for the entry at `head`: a control segment on the send
      queue, a placeholder data segment on the receive queue. */
  function Wqe(kind: Kind, head: nat): (bs: seq<u8>)
    ensures |bs| == WQE_BYTES
  {
    match kind
    case Send(qpn) =>
      OpmodIdxOpcodeIs(head);
      QpnDsIs(qpn);
      Be32Bytes(OpmodIdxOpcode(head)) + Be32Bytes(QpnDs(qpn)) + Be32Bytes(0x8000_0000) + Zeros(4)
    case Recv => Be32Bytes(4096) + Zeros(4) + Zeros(8)
  }

  /** Unpacking a posted send entry by its documented fields gives back the opcode,
      opmod 0, the ring index, the queue-pair number and two segments. */
  lemma WqeRoundTrip(qpn: u32, head: nat)
    ensures var w := Wqe(Send(qpn), head);
            var w0, w1, w2 := BeValue(w[0..4]), BeValue(w[4..8]), BeValue(w[8..12]);
            && w0 / 0x100_0000 == OPCODE_RDMA_WRITE && w0 / 0x1_0000 % 0x100 == 0 && w0 % 0x1_0000 == head % 0x1_0000
            && w1 / 0x100 == qpn % 0x100_0000 && w1 % 0x100 == 2
            && w2 == 0x8000_0000 && w[12..16] == Zeros(4)
  {
    hide BeValue, OpmodIdxOpcode, QpnDs, Be32Bytes;
    OpmodIdxOpcodeIs(head);
    QpnDsIs(qpn);
    var w := Wqe(Send(qpn), head);
    assert w[0..4] == Be32Bytes(OpmodIdxOpcode(head));
    assert w[4..8] == Be32Bytes(QpnDs(qpn));
    assert w[8..12] == Be32Bytes(0x8000_0000);
    assert w[12..] == Zeros(4);
    Be32Reads(OpmodIdxOpcode(head));
    Be32Reads(QpnDs(qpn));
    Be32Reads(0x8000_0000);
  }

  /** A receive entry is a data segment: 4096 bytes, key and address still zero. */
  lemma RecvWqeFields(head: nat)
    ensures var w := Wqe(Recv, head);
            |w| == 16 && BeValue(w[0..4]) == 4096 && w[4..8] == Zeros(4) && w[8..16] == Zeros(8)
  {
    hide BeValue, Be32Bytes;
    var w := Wqe(Recv, head);
    assert w[0..4] == Be32Bytes(4096);
    Be32Reads(4096);
  }

  // ---------------------------------------------------------------- the doorbell record

  function EncodeDb(g: Shape, head: u32): u32 {
    if g.kind.Send? then Swap32(Shl(head, g.shift) % TWO_32) else Swap32(And(head, 0xFFFF) % TWO_32)
  }

  /** The device's reading of the doorbell word. */
  function DecodeDb(g: Shape, db: u32): nat {
    if g.kind.Send? then Shr(Swap32(db), g.shift) else Swap32(db)
  }

  /** The doorbell word in memory, read big-endian: the byte offset of the next entry on
      the send queue, the low 16 bits of the head on the receive queue. */
  lemma DoorbellWord(g: Shape, head: u32)
    ensures BeValue(LeBytes(EncodeDb(g, head), 4)) ==
              if g.kind.Send? then head * Pow2(g.shift) % TWO_32 else head % 0x1_0000
  {
    hide BeValue, LeBytes, Swap32, And, Shl, Pow2, Low;
    Pow2Values();
    ShlIsMul(head, g.shift);
    AndLowMask(head, 16);
    ShiftIsDiv(head, 16);
    Be32Reads(Shl(head, g.shift) % TWO_32);
    Be32Reads(And(head, 0xFFFF) % TWO_32);
  }

  lemma DoorbellCarriesHead(g: Shape, head: u32)
    requires Fits(g) && head < Count(g)
    ensures DecodeDb(g, EncodeDb(g, head)) == head
  {
    hide Swap32, And, Shr, Shl, Low;
    Pow2Values();
    if g.kind.Send? {
      ShlIsMul(head, g.shift);
      Pow2Add(g.logCnt, g.shift);
      Pow2Monotone(g.logCnt + g.shift, 31);
      Less(head, Count(g), Pow2(g.shift));
      Swap32Involution(Shl(head, g.shift));
      ShiftBack(head, g.shift);
    } else {
      Pow2Monotone(g.logCnt, 16);
      AndLowMask(head, 16);
      ShiftIsDiv(head, 16);
      Swap32Involution(head);
    }
  }

  lemma Less(a: nat, b: nat, c: nat)
    requires a < b
    ensures 0 <= a * c <= b * c
  {
    assert b * c == a * c + (b - a) * c;
  }

  lemma {:induction false} ShiftBack(x: nat, n: nat)
    ensures Shr(Shl(x, n), n) == x
  {
    if n != 0 { ShiftBack(x, n - 1); }
  }

  /** The 16-bit receive doorbell carries every head exactly when the ring has at
      most 2^16 entries. */
  lemma RecvDoorbellExact(logCnt: nat, shift: nat)
    requires 4 <= shift && logCnt + shift <= 31
    ensures (forall h: u32 :: h < Pow2(logCnt) ==>
               DecodeDb(Shape(Recv, logCnt, shift), EncodeDb(Shape(Recv, logCnt, shift), h)) == h)
            <==> logCnt <= 16
  {
    hide Swap32, And;
    var g := Shape(Recv, logCnt, shift);
    if logCnt <= 16 {
      forall h: u32 | h < Pow2(logCnt)
        ensures DecodeDb(g, EncodeDb(g, h)) == h
      {
        DoorbellCarriesHead(g, h);
      }
    } else {
      Pow2Values();
      Pow2Monotone(17, logCnt);
      assert Pow2(17) == 2 * Pow2(16);
      var h: u32 := 0x1_0000;
      AndLowMask(h, 16);
      ShiftIsDiv(h, 16);
      Swap32Involution(0);
      assert DecodeDb(g, EncodeDb(g, h)) == 0;
    }
  }

  // ---------------------------------------------------------------- driver statements

  function WriteSlot(g: Shape, m: Mem): (r: Mem)
    requires Fits(g) && WellFormed(g, m)
    ensures WellFormed(g, r)
  {
    SlotHoldsWqe(g);
    m.(slots := m.slots[m.head := Put(m.slots[m.head], 0, Wqe(g.kind, m.head))])
  }

  lemma SlotHoldsWqe(g: Shape)
    requires Fits(g)
    ensures Pow2(g.shift) >= WQE_BYTES
  {
    Pow2Monotone(4, g.shift);
    assert Pow2(4) == 16;
  }

  /** `x & (count - 1)` is the remainder, the count being a power of two. */
  lemma WrapIsMod(x: nat, n: nat)
    ensures 0 <= And(x, Pow2(n) - 1) == x % Pow2(n) < Pow2(n)
  {
    AndLowMask(x, n);
    ShiftIsDiv(x, n);
  }

  lemma CountFits(g: Shape)
    requires Fits(g)
    ensures Count(g) <= TWO_32 / 2
  {
    Pow2Values();
    Pow2Monotone(g.logCnt, 31);
  }

  function AdvanceHead(g: Shape, m: Mem): (r: Mem)
    requires Fits(g) && WellFormed(g, m)
    ensures WellFormed(g, r) && r.head == (m.head + 1) % Count(g)
  {
    CountFits(g);
    WrapIsMod(m.head + 1, g.logCnt);
    m.(head := And(m.head + 1, Count(g) - 1))
  }

  function RingBell(g: Shape, m: Mem): Mem { m.(db := EncodeDb(g, m.head)) }

  function Post(g: Shape, m: Mem): (r: Mem)
    requires Fits(g) && WellFormed(g, m)
    ensures WellFormed(g, r)
  {
    RingBell(g, AdvanceHead(g, WriteSlot(g, m)))
  }

  /** A post touches the first 16 bytes of the slot at the head and nothing else of the
      ring; the head moves on by one, modulo the entry count. */
  lemma PostInFull(g: Shape, m: Mem)
    requires Fits(g) && WellFormed(g, m)
    ensures var r := Post(g, m);
            && r.head == (m.head + 1) % Pow2(g.logCnt) && r.db == EncodeDb(g, r.head)
            && |r.slots| == |m.slots| && |r.slots[m.head]| == |m.slots[m.head]| >= 16
            && r.slots[m.head][..16] == Wqe(g.kind, m.head) && r.slots[m.head][16..] == m.slots[m.head][16..]
            && forall j :: 0 <= j < |m.slots| && j != m.head ==> r.slots[j] == m.slots[j]
  {
    hide And, EncodeDb, Wqe;
    SlotHoldsWqe(g);
    PostResult(g, m);
  }

  lemma PostResult(g: Shape, m: Mem)
    requires Fits(g) && WellFormed(g, m)
    ensures var r := Post(g, m);
            r == Mem(WriteSlot(g, m).slots, r.head, EncodeDb(g, r.head)) && r.head == (m.head + 1) % Count(g)
  {
    hide And, EncodeDb, Wqe;
  }

  // ---------------------------------------------------------------- driver and device together

  datatype Phase = Idle | Written | Advanced

  /** One device read: the post that had last written the slot, and the bytes found. */
  datatype Read = Read(post: Option<nat>, bytes: seq<u8>)

  /** `posted` records the entries written so far, in order; `writer` says which post
      last wrote each slot; `taken` records the device's reads. */
  datatype Queue = Queue(m: Mem, phase: Phase, tail: nat, posted: seq<seq<u8>>,
                         writer: seq<Option<nat>>, taken: seq<Read>)

  /** Driver statements of a post, in order, and one device read. */
  datatype Step = Drive | Consume

  function Available(g: Shape, q: Queue): nat { (DecodeDb(g, q.m.db) - q.tail) % Count(g) }

  predicate Running(g: Shape, q: Queue) {
    Fits(g) && WellFormed(g, q.m) && q.tail < Count(g) && |q.writer| == Count(g)
  }

  function Apply(g: Shape, q: Queue, step: Step): (r: Queue)
    requires Running(g, q)
    ensures Running(g, r)
  {
    match step
    case Drive =>
      (match q.phase
       case Idle =>
         q.(m := WriteSlot(g, q.m), phase := Written, posted := q.posted + [Wqe(g.kind, q.m.head)],
            writer := q.writer[q.m.head := Some(|q.posted|)])
       case Written => q.(m := AdvanceHead(g, q.m), phase := Advanced)
       case Advanced => q.(m := RingBell(g, q.m), phase := Idle))
    case Consume =>
      if Available(g, q) == 0 then q
      else
        SlotHoldsWqe(g);
        q.(taken := q.taken + [Read(q.writer[q.tail], q.m.slots[q.tail][..WQE_BYTES])], tail := (q.tail + 1) % Count(g))
  }

  /** Entries the device can know of: all but the one being posted. */
  function Visible(q: Queue): int { |q.posted| - (if q.phase.Idle? then 0 else 1) }

  /** Entries posted and not read. */
  function Backlog(q: Queue): int { |q.posted| - |q.taken| }

  /** Holds in every run, with a full ring too: the last Count(g) posts are in the ring. */
  ghost predicate Tracked(g: Shape, q: Queue) {
    && Running(g, q) && Pow2(g.shift) >= WQE_BYTES
    && var c, n := Count(g), |q.posted|;
    && |q.taken| <= Visible(q)
    && q.m.head == (n - (if q.phase.Written? then 1 else 0)) % c
    && DecodeDb(g, q.m.db) == Visible(q) % c
    && q.tail == |q.taken| % c
    && (forall j :: 0 <= j < n && n <= j + c ==>
         q.writer[j % c] == Some(j) && q.m.slots[j % c][..WQE_BYTES] == q.posted[j])
  }

  lemma ModNext(a: nat, c: nat)
    requires c > 0
    ensures (a + 1) % c == (a % c + 1) % c
  {
    var q, r := a / c, a % c;
    DivMod(a, c);
    if r + 1 < c {
      Unique(a + 1, c, q, r + 1);
      Unique(r + 1, c, 0, r + 1);
    } else {
      MulSucc(q, c);
      Unique(a + 1, c, q + 1, 0);
      Unique(r + 1, c, 1, 0);
    }
  }

  lemma ModGap(a: nat, b: nat, c: nat)
    requires c > 0 && a <= b < a + c
    ensures (b % c - a % c) % c == b - a
    ensures a < b ==> a % c != b % c
  {
    var q, r := a / c, a % c;
    DivMod(a, c);
    if r + (b - a) < c {
      Unique(b, c, q, r + (b - a));
      Unique(b - a, c, 0, b - a);
    } else {
      MulSucc(q, c);
      Unique(b, c, q + 1, r + (b - a) - c);
      Unique(b - a - c, c, -1, b - a);
    }
  }

  /** Every number has a congruent one in any window of `c`. */
  lemma WindowHit(a: nat, n: nat, c: nat) returns (j: nat)
    requires c > 0 && a + c <= n
    ensures n - c <= j < n && j % c == a % c
  {
    var d := (n - 1 - a) % c;
    j := n - 1 - d;
    DivMod(n - 1 - a, c);
    var q := (n - 1 - a) / c;
    DivMod(a, c);
    assert j == a + q * c;
    assert (a / c + q) * c == a / c * c + q * c;
    Unique(j, c, a / c + q, a % c);
  }

  lemma WriteTracks(g: Shape, q: Queue)
    requires Tracked(g, q) && q.phase.Idle?
    ensures Tracked(g, Apply(g, q, Drive))
  {
    hide Wqe, DecodeDb, Fits;
    var c, n := Count(g), |q.posted|;
    var r := Apply(g, q, Drive);
    var e := Wqe(g.kind, q.m.head);
    assert Put(q.m.slots[q.m.head], 0, e)[..WQE_BYTES] == e;
    forall j | 0 <= j < n + 1 && n + 1 <= j + c
      ensures r.writer[j % c] == Some(j) && r.m.slots[j % c][..WQE_BYTES] == r.posted[j]
    {
      if j < n { ModGap(j, n, c); }
    }
  }

  lemma AdvanceTracks(g: Shape, q: Queue)
    requires Tracked(g, q) && q.phase.Written?
    ensures Tracked(g, Apply(g, q, Drive))
  {
    hide Wqe, DecodeDb, Fits, And;
    ModNext(|q.posted| - 1, Count(g));
  }

  lemma BellTracks(g: Shape, q: Queue)
    requires Tracked(g, q) && q.phase.Advanced?
    ensures Tracked(g, Apply(g, q, Drive))
  {
    hide Wqe, DecodeDb, EncodeDb;
    DoorbellCarriesHead(g, q.m.head);
  }

  /** The doorbell record alone tells the device how many entries are outstanding,
      modulo the capacity. */
  lemma AvailableMod(g: Shape, q: Queue)
    requires Tracked(g, q)
    ensures Available(g, q) == (Visible(q) - |q.taken|) % Count(g)
  {
    var c := Count(g);
    ModDifference(Visible(q), |q.taken|, c);
  }

  lemma ModDifference(b: nat, a: nat, c: nat)
    requires c > 0 && a <= b
    ensures (b % c - a % c) % c == (b - a) % c
  {
    DivMod(a, c);
    DivMod(b, c);
    DivMod(b % c - a % c, c);
    var k, r := (b % c - a % c) / c, (b % c - a % c) % c;
    assert (b / c - a / c + k) * c == b / c * c - a / c * c + k * c;
    Unique(b - a, c, b / c - a / c + k, r);
  }

  /** It tells the true number exactly while that is below the capacity. */
  lemma DoorbellCounts(g: Shape, q: Queue)
    requires Tracked(g, q)
    ensures Available(g, q) == Visible(q) - |q.taken| <==> Visible(q) - |q.taken| < Count(g)
  {
    hide Tracked, Available;
    AvailableMod(g, q);
    TrackedBounds(g, q);
    if Visible(q) - |q.taken| < Count(g) {
      Unique(Visible(q) - |q.taken|, Count(g), 0, Visible(q) - |q.taken|);
    }
  }

  lemma TrackedBounds(g: Shape, q: Queue)
    requires Tracked(g, q)
    ensures Running(g, q) && |q.taken| <= Visible(q) <= |q.posted| && q.tail == |q.taken| % Count(g)
  {
  }

  lemma ConsumeTracks(g: Shape, q: Queue)
    requires Tracked(g, q)
    ensures Tracked(g, Apply(g, q, Consume))
    ensures Available(g, q) != 0 ==> |q.taken| < Visible(q)
  {
    hide Wqe, DecodeDb, Available, Fits, Pow2;
    if Available(g, q) != 0 {
      AvailableMeansUnread(g, q);
      ModNext(|q.taken|, Count(g));
    }
  }

  lemma AvailableMeansUnread(g: Shape, q: Queue)
    requires Tracked(g, q) && Available(g, q) != 0
    ensures |q.taken| < Visible(q)
  {
    hide Available, Tracked, Pow2;
    AvailableMod(g, q);
    TrackedBounds(g, q);
    if |q.taken| == Visible(q) {
      Unique(0, Count(g), 0, 0);
    }
  }

  lemma StepTracks(g: Shape, q: Queue, step: Step)
    requires Tracked(g, q)
    ensures Running(g, q) && Tracked(g, Apply(g, q, step))
  {
    hide Tracked, Apply;
    TrackedBounds(g, q);
    match step {
      case Consume => ConsumeTracks(g, q);
      case Drive =>
        match q.phase {
          case Idle => WriteTracks(g, q);
          case Written => AdvanceTracks(g, q);
          case Advanced => BellTracks(g, q);
        }
    }
  }

  // ---------------------------------------------------------------- lost entries

  /** Every entry posted and not read is still in its slot. */
  ghost predicate LiveIntact(g: Shape, q: Queue)
    requires Running(g, q)
  {
    forall j :: |q.taken| <= j < |q.posted| ==> q.writer[j % Count(g)] == Some(j)
  }

  lemma LiveIntactExact(g: Shape, q: Queue)
    requires Tracked(g, q)
    ensures Running(g, q) && (LiveIntact(g, q) <==> Backlog(q) <= Count(g))
  {
    var c := Count(g);
    if Backlog(q) > c {
      var j := WindowHit(|q.taken|, |q.posted|, c);
      assert q.writer[|q.taken| % c] == Some(j);
    }
  }

  /** The write of the next post destroys an entry that is still unread and in place. */
  ghost predicate Overwrites(g: Shape, q: Queue)
    requires Running(g, q)
  {
    exists j :: |q.taken| <= j < |q.posted| && q.writer[j % Count(g)] == Some(j)
                && Apply(g, q, Drive).writer[j % Count(g)] != Some(j)
  }

  /** A post overwrites a live entry exactly when the ring is full when it starts. */
  lemma OverwriteExact(g: Shape, q: Queue)
    requires Tracked(g, q) && q.phase.Idle?
    ensures Running(g, q) && (Overwrites(g, q) <==> Backlog(q) >= Count(g))
  {
    hide Wqe, DecodeDb, Fits;
    var c, n := Count(g), |q.posted|;
    if Backlog(q) >= c {
      var j := n - c;
      DivMod(n, c);
      assert (n / c - 1) * c == n / c * c - c;
      Unique(j, c, n / c - 1, n % c);
      assert q.writer[j % c] == Some(j) && Apply(g, q, Drive).writer[j % c] == Some(n);
    } else {
      forall j | |q.taken| <= j < n
        ensures Apply(g, q, Drive).writer[j % c] == q.writer[j % c]
      {
        ModGap(j, n, c);
      }
    }
  }

  /** A device read gets the oldest unread post exactly when no more than a ring full
      is outstanding. */
  lemma ReadExact(g: Shape, q: Queue)
    requires Tracked(g, q) && Available(g, q) != 0
    ensures Running(g, q)
    ensures var r := Apply(g, q, Consume);
            |r.taken| == |q.taken| + 1 && (r.taken[|q.taken|].post == Some(|q.taken|) <==> Backlog(q) <= Count(g))
  {
    hide Wqe, DecodeDb, Fits, Available;
    ConsumeTracks(g, q);
    LiveIntactExact(g, q);
    if Backlog(q) > Count(g) {
      var j := WindowHit(|q.taken|, |q.posted|, Count(g));
      assert q.writer[|q.taken| % Count(g)] == Some(j);
    }
  }

  // ---------------------------------------------------------------- runs

  function Run(g: Shape, q: Queue, steps: seq<Step>): (r: Queue)
    requires Running(g, q)
    ensures Running(g, r)
  {
    if steps == [] then q else Apply(g, Run(g, q, steps[..|steps| - 1]), steps[|steps| - 1])
  }

  /** The device's i-th read was of the i-th post. */
  ghost predicate InOrder(q: Queue) {
    forall i :: 0 <= i < |q.taken| ==> q.taken[i].post == Some(i)
  }

  /** No device read of the run happened with more than a ring full outstanding. */
  ghost predicate ReadsInTime(g: Shape, q: Queue, steps: seq<Step>)
    requires Running(g, q)
  {
    steps == [] ||
    var t := Run(g, q, steps[..|steps| - 1]);
    && ReadsInTime(g, q, steps[..|steps| - 1])
    && (steps[|steps| - 1].Consume? && Available(g, t) != 0 ==> Backlog(t) <= Count(g))
  }

  /** Over any interleaving whatever, the device reads posts 0, 1, 2, ... exactly when
      it never reads with more than a ring full outstanding. */
  lemma {:induction false} OrderExact(g: Shape, q: Queue, steps: seq<Step>)
    requires Tracked(g, q) && InOrder(q)
    ensures Running(g, q) && Tracked(g, Run(g, q, steps))
    ensures InOrder(Run(g, q, steps)) <==> ReadsInTime(g, q, steps)
    decreases |steps|
  {
    hide Tracked, Apply, Available, Running;
    TrackedBounds(g, q);
    if steps != [] {
      var front, last := steps[..|steps| - 1], steps[|steps| - 1];
      var t := Run(g, q, front);
      OrderExact(g, q, front);
      StepTracks(g, t, last);
      OrderStep(g, t, last);
    }
  }

  lemma OrderStep(g: Shape, t: Queue, step: Step)
    requires Tracked(g, t)
    ensures Running(g, t)
    ensures InOrder(Apply(g, t, step)) <==>
              InOrder(t) && (step.Consume? && Available(g, t) != 0 ==> Backlog(t) <= Count(g))
  {
    hide Tracked, Available, Fits, WellFormed, Wqe;
    TrackedBounds(g, t);
    if step.Consume? && Available(g, t) != 0 {
      ReadExact(g, t);
      var r := Apply(g, t, step);
      assert forall i :: 0 <= i < |t.taken| ==> r.taken[i] == t.taken[i];
    } else {
      assert Apply(g, t, step).taken == t.taken;
    }
  }

  /** What holds in runs that keep room to spare. */
  ghost predicate Fifo(g: Shape, q: Queue) {
    && Tracked(g, q)
    && Backlog(q) < Count(g)
    && |q.taken| <= |q.posted|
    && (forall i :: 0 <= i < |q.taken| ==> q.taken[i] == Read(Some(i), q.posted[i]))
    && (forall j :: |q.taken| <= j < |q.posted| ==>
         q.writer[j % Count(g)] == Some(j) && q.m.slots[j % Count(g)][..WQE_BYTES] == q.posted[j])
  }

  lemma StepKeepsFifo(g: Shape, q: Queue, step: Step)
    requires Fifo(g, q) && Running(g, q)
    requires step.Drive? && q.phase.Idle? ==> Backlog(q) + 1 < Count(g)
    ensures Fifo(g, Apply(g, q, step))
  {
    hide Wqe, DecodeDb, Fits, Available;
    StepTracks(g, q, step);
    ConsumeTracks(g, q);
  }

  /** The driver never starts a post that would make the ring full. */
  ghost predicate Paced(g: Shape, q: Queue, steps: seq<Step>)
    requires Running(g, q)
  {
    forall n :: 0 <= n < |steps| && steps[n].Drive? ==>
      var r := Run(g, q, steps[..n]);
      r.phase.Idle? ==> Backlog(r) + 1 < Count(g)
  }

  /** FIFO: over any interleaving of driver statements and device reads in which a
      post starts only with room to spare, the device reads posts 0, 1, 2, ... and finds
      the bytes each wrote, every unread post is still in its slot, and the ring never
      fills. */
  lemma {:induction false} RingIsFifo(g: Shape, q: Queue, steps: seq<Step>)
    requires Fifo(g, q) && Running(g, q) && Paced(g, q, steps)
    ensures Fifo(g, Run(g, q, steps))
    decreases |steps|
  {
    hide Fifo, Apply, Running;
    if steps != [] {
      var front, last := steps[..|steps| - 1], steps[|steps| - 1];
      PacedFront(g, q, steps);
      RingIsFifo(g, q, front);
      StepKeepsFifo(g, Run(g, q, front), last);
    }
  }

  lemma PacedFront(g: Shape, q: Queue, steps: seq<Step>)
    requires Running(g, q) && Paced(g, q, steps) && steps != []
    ensures Paced(g, q, steps[..|steps| - 1])
    ensures var t := Run(g, q, steps[..|steps| - 1]);
            steps[|steps| - 1].Drive? && t.phase.Idle? ==> Backlog(t) + 1 < Count(g)
  {
    hide Running;
    var front := steps[..|steps| - 1];
    forall n | 0 <= n < |front| && front[n].Drive?
      ensures var r := Run(g, q, front[..n]); r.phase.Idle? ==> Backlog(r) + 1 < Count(g)
    {
      assert front[..n] == steps[..n];
    }
  }

  /** A ring that holds nothing yet. */
  function EmptyQueue(g: Shape, m: Mem): Queue {
    Queue(m, Idle, 0, [], seq(Count(g), i => None), [])
  }

  /** A zeroed ring starts out empty. */
  lemma FreshRing(g: Shape)
    requires Fits(g)
    ensures var m := Mem(seq(Count(g), i => Zeros(Pow2(g.shift))), 0, 0);
            Fifo(g, EmptyQueue(g, m))
  {
    SlotHoldsWqe(g);
    Swap32OfZero();
    ShiftBack(0, g.shift);
    ShlIsMul(0, g.shift);
  }

  lemma Swap32OfZero()
    ensures Swap32(0) == 0
  {
  }

  // ---------------------------------------------------------------- overruns happen

  function Drives(n: nat): seq<Step> { seq(n, i => Drive) }

  /** Posts with no device read in between. */
  lemma {:induction false} ManyPosts(g: Shape, q: Queue, n: nat)
    requires Tracked(g, q) && Running(g, q) && q.phase.Idle?
    ensures var r := Run(g, q, Drives(3 * n));
            Tracked(g, r) && r.phase.Idle? && |r.posted| == |q.posted| + n && r.taken == q.taken
    decreases n
  {
    hide Tracked, Running, Fits, Wqe, Apply;
    if n != 0 {
      ManyPosts(g, q, n - 1);
      var t := Run(g, q, Drives(3 * n - 3));
      WholePost(g, t);
      var a, b, c := Drives(3 * n - 2), Drives(3 * n - 1), Drives(3 * n);
      assert a[..|a| - 1] == Drives(3 * n - 3) && b[..|b| - 1] == a && c[..|c| - 1] == b;
      assert Run(g, q, a) == Apply(g, t, Drive);
      assert Run(g, q, b) == Apply(g, Apply(g, t, Drive), Drive);
    }
  }

  lemma WholePost(g: Shape, t: Queue)
    requires Tracked(g, t) && Running(g, t) && t.phase.Idle?
    ensures var r := Apply(g, Apply(g, Apply(g, t, Drive), Drive), Drive);
            Tracked(g, r) && r.phase.Idle? && |r.posted| == |t.posted| + 1 && r.taken == t.taken
  {
    hide Tracked, Fits, Wqe, WellFormed;
    WriteTracks(g, t);
    AdvanceTracks(g, Apply(g, t, Drive));
    BellTracks(g, Apply(g, Apply(g, t, Drive), Drive));
  }

  /** On every ring of two entries or more: one post too many on a fresh ring, and the
      device's first read is not of the first post. */
  lemma OverrunRun(g: Shape)
    requires Fits(g) && g.logCnt >= 1
    ensures var q := EmptyQueue(g, Mem(seq(Count(g), i => Zeros(Pow2(g.shift))), 0, 0));
            Running(g, q) && !InOrder(Run(g, q, Drives(3 * (Count(g) + 1)) + [Consume]))
  {
    hide Tracked, Running, Fits, Wqe, Available, Pow2;
    FreshRing(g);
    var q := EmptyQueue(g, Mem(seq(Count(g), i => Zeros(Pow2(g.shift))), 0, 0));
    FifoTracked(g, q);
    ManyPosts(g, q, Count(g) + 1);
    var steps := Drives(3 * (Count(g) + 1));
    var r := Run(g, q, steps);
    AvailableMod(g, r);
    assert Count(g) >= 2 by { TwoEntries(g); }
    Unique(Count(g) + 1, Count(g), 1, 1);
    ReadExact(g, r);
    assert (steps + [Consume])[..|steps|] == steps;
  }

  lemma TwoEntries(g: Shape)
    requires g.logCnt >= 1
    ensures Count(g) >= 2
  {
  }

  lemma FifoTracked(g: Shape, q: Queue)
    requires Fifo(g, q)
    ensures Tracked(g, q) && Running(g, q)
  {
  }

  /** After a complete post the device sees the true backlog exactly when the ring had
      room to spare: a post into the last free entry makes it look empty. */
  lemma BacklogSeenExact(g: Shape, q: Queue)
    requires Tracked(g, q) && q.phase.Idle?
    ensures Running(g, q)
    ensures var r := Apply(g, Apply(g, Apply(g, q, Drive), Drive), Drive);
            Available(g, r) == Backlog(r) <==> Backlog(q) + 1 < Count(g)
  {
    hide Wqe, EncodeDb, DecodeDb, Fits, Tracked, Available;
    TrackedBounds(g, q);
    var r := Apply(g, Apply(g, Apply(g, q, Drive), Drive), Drive);
    WriteTracks(g, q);
    AdvanceTracks(g, Apply(g, q, Drive));
    BellTracks(g, Apply(g, Apply(g, q, Drive), Drive));
    DoorbellCounts(g, r);
  }
}
