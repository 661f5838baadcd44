/** Machine words as bytes in memory: little-endian stores and loads, the byte
    swap of OSSwapInt16/32/64, and big-endian values as the device reads them. */
module Words {

  type u8 = x: int | 0 <= x < 0x100
  type u16 = x: int | 0 <= x < 0x1_0000
  type u32 = x: int | 0 <= x < 0x1_0000_0000
  type u64 = x: int | 0 <= x < 0x1_0000_0000_0000_0000

  const TWO_32: int := 0x1_0000_0000
  const TWO_64: int := 0x1_0000_0000_0000_0000

  function Pow256(n: nat): (p: nat)
    ensures p >= 1
  {
    if n == 0 then 1 else 256 * Pow256(n - 1)
  }

  /** The `n` bytes a little-endian host stores for `v`. */
  function LeBytes(v: nat, n: nat): (bs: seq<u8>)
    ensures |bs| == n
  {
    if n == 0 then [] else [v % 256] + LeBytes(v / 256, n - 1)
  }

  /** The value a little-endian host loads from `bs`. */
  function LeValue(bs: seq<u8>): (v: nat)
    ensures v < Pow256(|bs|)
  {
    if bs == [] then 0 else bs[0] + 256 * LeValue(bs[1..])
  }

  function Reverse(bs: seq<u8>): (r: seq<u8>)
    ensures |r| == |bs|
    ensures forall i :: 0 <= i < |bs| ==> r[i] == bs[|bs| - 1 - i]
  {
    if bs == [] then [] else Reverse(bs[1..]) + [bs[0]]
  }

  /** The value a big-endian reader, such as the device, sees in `bs`. */
  function BeValue(bs: seq<u8>): (v: nat)
    ensures v < Pow256(|bs|)
  {
    LeValue(Reverse(bs))
  }

  function BeBytes(v: nat, n: nat): (bs: seq<u8>)
    ensures |bs| == n
  {
    Reverse(LeBytes(v, n))
  }

  /** OSSwapInt for an `n`-byte word: the same bytes in the opposite order. */
  function Swap(v: nat, n: nat): (w: nat)
    ensures w < Pow256(n)
  {
    LeValue(Reverse(LeBytes(v, n)))
  }

  function Swap16(v: u16): u16 { assert Pow256(2) == 0x1_0000; Swap(v, 2) }

  function Swap32(v: u32): u32 { assert Pow256(4) == 0x1_0000_0000; Swap(v, 4) }

  function Swap64(v: u64): u64 { assert Pow256(8) == 0x1_0000_0000_0000_0000; Swap(v, 8) }

  lemma ReverseReverse(bs: seq<u8>)
    ensures Reverse(Reverse(bs)) == bs
  {
  }

  lemma {:induction false} LoadStore(v: nat, n: nat)
    requires v < Pow256(n)
    ensures LeValue(LeBytes(v, n)) == v
  {
    if n != 0 {
      LoadStore(v / 256, n - 1);
      assert LeBytes(v, n)[1..] == LeBytes(v / 256, n - 1);
    }
  }

  lemma {:induction false} StoreLoad(bs: seq<u8>)
    ensures LeBytes(LeValue(bs), |bs|) == bs
  {
    if bs != [] {
      StoreLoad(bs[1..]);
      assert LeValue(bs) % 256 == bs[0] && LeValue(bs) / 256 == LeValue(bs[1..]);
    }
  }

  /** Storing a swapped word on a little-endian host leaves it big-endian in memory. */
  lemma StoreSwapped(v: nat, n: nat)
    ensures LeBytes(Swap(v, n), n) == BeBytes(v, n)
  {
    StoreLoad(Reverse(LeBytes(v, n)));
  }

  /** Swapping a loaded word gives what a big-endian reader sees. */
  lemma LoadSwapped(bs: seq<u8>)
    ensures Swap(LeValue(bs), |bs|) == BeValue(bs)
  {
    StoreLoad(bs);
  }

  lemma BeRoundTrip(v: nat, n: nat)
    requires v < Pow256(n)
    ensures BeValue(BeBytes(v, n)) == v
  {
    ReverseReverse(LeBytes(v, n));
    LoadStore(v, n);
  }

  lemma SwapSwap(v: nat, n: nat)
    requires v < Pow256(n)
    ensures Swap(Swap(v, n), n) == v
  {
    StoreSwapped(v, n);
    ReverseReverse(LeBytes(v, n));
    LoadStore(v, n);
  }

  lemma Swap32Involution(v: u32)
    ensures Swap32(Swap32(v)) == v
  {
    assert Pow256(4) == TWO_32;
    SwapSwap(v, 4);
  }

  lemma Swap64Involution(v: u64)
    ensures Swap64(Swap64(v)) == v
  {
    assert Pow256(8) == TWO_64;
    SwapSwap(v, 8);
  }

  /** A 32-bit or 64-bit word stored big-endian by a little-endian host. */
  function Be32Bytes(v: u32): (bs: seq<u8>)
    ensures |bs| == 4
  {
    LeBytes(Swap32(v), 4)
  }

  function Be64Bytes(v: u64): (bs: seq<u8>)
    ensures |bs| == 8
  {
    LeBytes(Swap64(v), 8)
  }

  lemma Be32Reads(v: u32)
    ensures BeValue(Be32Bytes(v)) == v
  {
    assert Pow256(4) == TWO_32;
    StoreSwapped(v, 4);
    BeRoundTrip(v, 4);
  }

  lemma Be64Reads(v: u64)
    ensures BeValue(Be64Bytes(v)) == v
  {
    assert Pow256(8) == TWO_64;
    StoreSwapped(v, 8);
    BeRoundTrip(v, 8);
  }

  /** Memory `m` with `bs` written at byte offset `off`. */
  function Put(m: seq<u8>, off: nat, bs: seq<u8>): (r: seq<u8>)
    requires off + |bs| <= |m|
    ensures |r| == |m|
    ensures r[off..off + |bs|] == bs
    ensures r[..off] == m[..off]
    ensures r[off + |bs|..] == m[off + |bs|..]
  {
    m[..off] + bs + m[off + |bs|..]
  }

  function SetByte(m: seq<u8>, i: nat, b: u8): (r: seq<u8>)
    requires i < |m|
    ensures |r| == |m|
  {
    m[i := b]
  }

  function Zeros(n: nat): (bs: seq<u8>)
    ensures |bs| == n
    ensures forall i :: 0 <= i < n ==> bs[i] == 0
  {
    seq(n, i => 0)
  }

  /** A field survives a write that does not overlap it. */
  lemma PutElsewhere(m: seq<u8>, off: nat, bs: seq<u8>, at: nat, n: nat)
    requires off + |bs| <= |m| && at + n <= |m|
    requires at + n <= off || off + |bs| <= at
    ensures Put(m, off, bs)[at..at + n] == m[at..at + n]
  {
    var r := Put(m, off, bs);
    forall i | at <= i < at + n
      ensures r[i] == m[i]
    {
      if i < off {
        assert r[i] == r[..off][i] == m[..off][i];
      } else {
        assert r[i] == r[off + |bs|..][i - off - |bs|];
        assert m[i] == m[off + |bs|..][i - off - |bs|];
      }
    }
  }

  lemma SliceOfSlice(m: seq<u8>, a: nat, b: nat, i: nat, j: nat)
    requires a <= b <= |m| && i <= j <= b - a
    ensures m[a..b][i..j] == m[a + i..a + j]
  {
    var inner := m[a..b];
    var left, right := inner[i..j], m[a + i..a + j];
    forall k | 0 <= k < j - i
      ensures left[k] == right[k]
    {
      assert left[k] == inner[i + k] == m[a + i + k];
    }
  }

  /** Byte-wise reading of `Put`. */
  lemma PutAt(m: seq<u8>, off: nat, bs: seq<u8>, i: nat)
    requires off + |bs| <= |m| && i < |m|
    ensures Put(m, off, bs)[i] == if off <= i < off + |bs| then bs[i - off] else m[i]
  {
  }
}
