/** Byte buffers cut into equal blocks: mailboxes of a pool, work-queue entries of
    a ring. A write inside one block leaves the others alone. */
module Memory {
  import opened Words
  import opened Bits

  lemma BlockFits(n: nat, w: nat, k: nat)
    requires k < n
    ensures 0 <= k * w && k * w + w <= n * w
  {
    Multiple(k, w);
    MulSucc(k, w);
    Multiple(n - k - 1, w);
    MulAdd(k + 1, n - k - 1, w);
  }

  lemma MulAdd(a: int, b: int, c: int)
    ensures (a + b) * c == a * c + b * c
  {
  }

  lemma Multiple(a: nat, w: nat)
    ensures 0 <= a * w
  {
  }

  lemma BlocksApart(w: nat, j: nat, k: nat)
    requires j < k
    ensures 0 <= j * w && j * w + w <= k * w
  {
    BlockFits(k, w, j);
  }

  /** Block `k` of `n` blocks of `w` bytes each. */
  function Block(p: seq<u8>, n: nat, w: nat, k: nat): (b: seq<u8>)
    requires |p| == n * w && k < n
    ensures |b| == w
  {
    BlockFits(n, w, k);
    p[k * w..k * w + w]
  }

  function Blocks(p: seq<u8>, n: nat, w: nat): (bs: seq<seq<u8>>)
    requires |p| == n * w
    ensures |bs| == n
    ensures forall k :: 0 <= k < n ==> |bs[k]| == w
  {
    seq(n, k requires 0 <= k < n => Block(p, n, w, k))
  }

  /** A write of `bs` at offset `off` of block `k` changes block `k` only. */
  lemma PutInBlock(p: seq<u8>, n: nat, w: nat, k: nat, off: nat, bs: seq<u8>)
    requires |p| == n * w && k < n && off + |bs| <= w
    ensures 0 <= k * w && k * w + off + |bs| <= |p|
    ensures Blocks(Put(p, k * w + off, bs), n, w) == Blocks(p, n, w)[k := Put(Block(p, n, w, k), off, bs)]
  {
    hide Block;
    BlockFits(n, w, k);
    var q := Put(p, k * w + off, bs);
    forall j | 0 <= j < n
      ensures Block(q, n, w, j) == if j == k then Put(Block(p, n, w, k), off, bs) else Block(p, n, w, j)
    {
      if j == k {
        PutInOwnBlock(p, n, w, k, off, bs);
      } else {
        PutInOtherBlock(p, n, w, k, off, bs, j);
      }
    }
  }

  lemma PutInOwnBlock(p: seq<u8>, n: nat, w: nat, k: nat, off: nat, bs: seq<u8>)
    requires |p| == n * w && k < n && off + |bs| <= w
    requires 0 <= k * w && k * w + off + |bs| <= |p|
    ensures Block(Put(p, k * w + off, bs), n, w, k) == Put(Block(p, n, w, k), off, bs)
  {
    BlockFits(n, w, k);
    SliceOfPut(p, k * w, w, off, bs);
  }

  lemma PutInOtherBlock(p: seq<u8>, n: nat, w: nat, k: nat, off: nat, bs: seq<u8>, j: nat)
    requires |p| == n * w && k < n && off + |bs| <= w && j < n && j != k
    requires 0 <= k * w && k * w + off + |bs| <= |p|
    ensures Block(Put(p, k * w + off, bs), n, w, j) == Block(p, n, w, j)
  {
    BlockFits(n, w, j);
    if j < k {
      BlocksApart(w, j, k);
    } else {
      BlocksApart(w, k, j);
    }
    PutElsewhere(p, k * w + off, bs, j * w, w);
  }

  lemma SliceOfPut(p: seq<u8>, base: nat, w: nat, off: nat, bs: seq<u8>)
    requires base + w <= |p| && off + |bs| <= w
    ensures Put(p, base + off, bs)[base..base + w] == Put(p[base..base + w], off, bs)
  {
    var q := Put(p, base + off, bs);
    var left, right := q[base..base + w], Put(p[base..base + w], off, bs);
    forall i | 0 <= i < w
      ensures left[i] == right[i]
    {
      PutAt(p, base + off, bs, base + i);
      PutAt(p[base..base + w], off, bs, i);
    }
  }

  /** Two adjacent writes are one write. */
  lemma PutConcat(p: seq<u8>, off: nat, a: seq<u8>, b: seq<u8>)
    requires off + |a| + |b| <= |p|
    ensures Put(Put(p, off, a), off + |a|, b) == Put(p, off, a + b)
  {
    var left, right := Put(Put(p, off, a), off + |a|, b), Put(p, off, a + b);
    forall i | 0 <= i < |p|
      ensures left[i] == right[i]
    {
      PutAt(p, off, a, i);
      PutAt(Put(p, off, a), off + |a|, b, i);
      PutAt(p, off, a + b, i);
    }
  }

  /** Zeroed memory is a row of zeroed blocks. */
  lemma ZeroBlocks(n: nat, w: nat)
    ensures |Zeros(n * w)| == n * w && Blocks(Zeros(n * w), n, w) == seq(n, i => Zeros(w))
  {
    forall k | 0 <= k < n
      ensures Block(Zeros(n * w), n, w, k) == Zeros(w)
    {
      BlockFits(n, w, k);
    }
  }

  // ---------------------------------------------------------------- fields of a buffer

  datatype Field = Field(off: nat, bs: seq<u8>)

  predicate Inside(fs: seq<Field>, size: nat) {
    forall i :: 0 <= i < |fs| ==> fs[i].off + |fs[i].bs| <= size
  }

  predicate Apart(fs: seq<Field>) {
    forall i, j :: 0 <= i < j < |fs| ==>
      fs[i].off + |fs[i].bs| <= fs[j].off || fs[j].off + |fs[j].bs| <= fs[i].off
  }

  /** Field writes, in order. */
  function PutAll(m: seq<u8>, fs: seq<Field>): (r: seq<u8>)
    requires Inside(fs, |m|)
    ensures |r| == |m|
  {
    if fs == [] then m
    else
      var f := fs[|fs| - 1];
      Put(PutAll(m, fs[..|fs| - 1]), f.off, f.bs)
  }

  lemma NoFields(m: seq<u8>, fs: seq<Field>)
    ensures Inside([], |m|) && PutAll(m, fs[..0]) == m
    ensures fs[..|fs|] == fs
  {
  }

  /** Bytes that no field covers stay. */
  lemma {:induction false} Untouched(m: seq<u8>, fs: seq<Field>, at: nat, n: nat)
    requires Inside(fs, |m|) && at + n <= |m|
    requires forall i :: 0 <= i < |fs| ==> at + n <= fs[i].off || fs[i].off + |fs[i].bs| <= at
    ensures PutAll(m, fs)[at..at + n] == m[at..at + n]
  {
    if fs != [] {
      var front, f := fs[..|fs| - 1], fs[|fs| - 1];
      Untouched(m, front, at, n);
      PutElsewhere(PutAll(m, front), f.off, f.bs, at, n);
    }
  }

  /** A byte of a zeroed buffer that no field covers is zero. */
  lemma BlankElsewhere(n: nat, fs: seq<Field>, j: nat)
    requires Inside(fs, n) && j < n
    requires forall i :: 0 <= i < |fs| ==> j < fs[i].off || fs[i].off + |fs[i].bs| <= j
    ensures PutAll(Zeros(n), fs)[j] == 0
  {
    Untouched(Zeros(n), fs, j, 1);
    assert PutAll(Zeros(n), fs)[j] == PutAll(Zeros(n), fs)[j..j + 1][0];
  }

  /** Writing what is there changes nothing. */
  lemma PutSame(m: seq<u8>, off: nat, bs: seq<u8>)
    requires off + |bs| <= |m| && m[off..off + |bs|] == bs
    ensures Put(m, off, bs) == m
  {
    forall i | 0 <= i < |m|
      ensures Put(m, off, bs)[i] == m[i]
    {
      PutAt(m, off, bs, i);
      if off <= i < off + |bs| {
        assert m[i] == m[off..off + |bs|][i - off];
      }
    }
  }

  /** Writes that do not overlap all survive. */
  lemma {:induction false} FieldSurvives(m: seq<u8>, fs: seq<Field>, i: nat)
    requires Inside(fs, |m|) && Apart(fs) && i < |fs|
    ensures PutAll(m, fs)[fs[i].off..fs[i].off + |fs[i].bs|] == fs[i].bs
  {
    var front, f := fs[..|fs| - 1], fs[|fs| - 1];
    if i < |front| {
      FieldSurvives(m, front, i);
      PutElsewhere(PutAll(m, front), f.off, f.bs, fs[i].off, |fs[i].bs|);
    }
  }

  /** memcpy, memset or a word store of `bs` at byte `off` of `a`. */
  method Store(a: array<u8>, off: nat, bs: seq<u8>)
    requires off + |bs| <= a.Length
    modifies a
    ensures a[..] == Put(old(a[..]), off, bs)
  {
    forall i | 0 <= i < |bs| {
      a[off + i] := bs[i];
    }
    ghost var was := old(a[..]);
    forall i | 0 <= i < a.Length
      ensures a[i] == Put(was, off, bs)[i]
    {
      PutAt(was, off, bs, i);
    }
  }

  /** The store of field `k` of `fs`, the earlier ones being stored already over `m`. */
  method StoreField(a: array<u8>, ghost m: seq<u8>, ghost fs: seq<Field>, ghost k: nat, off: nat, bs: seq<u8>)
    requires Inside(fs, |m|) && k < |fs| && fs[k] == Field(off, bs) && off + |bs| <= |m|
    requires a[..] == PutAll(m, fs[..k])
    modifies a
    ensures a[..] == PutAll(m, fs[..k + 1])
  {
    assert fs[..k + 1][..k] == fs[..k];
    Store(a, off, bs);
  }
}
