/** Bitwise operators on unbounded naturals, as C uses them on unsigned words
    and Python on its integers, with the laws that turn masks and shifts into
    division and remainder. */
module Bits {

  function Pow2(n: nat): (p: nat)
    ensures p >= 1
  {
    if n == 0 then 1 else 2 * Pow2(n - 1)
  }

  function And(x: nat, y: nat): nat
    decreases x
  {
    if x == 0 then 0 else (x % 2) * (y % 2) + 2 * And(x / 2, y / 2)
  }

  function Or(x: nat, y: nat): nat
    decreases x + y
  {
    if x == 0 && y == 0 then 0
    else (if x % 2 == 1 || y % 2 == 1 then 1 else 0) + 2 * Or(x / 2, y / 2)
  }

  /** `x << n` */
  function Shl(x: nat, n: nat): nat { if n == 0 then x else 2 * Shl(x, n - 1) }

  /** `x >> n` */
  function Shr(x: nat, n: nat): nat { if n == 0 then x else Shr(x / 2, n - 1) }

  /** The low `n` bits of `x`. */
  function Low(x: nat, n: nat): (r: nat)
    ensures r < Pow2(n)
  {
    if n == 0 then 0 else x % 2 + 2 * Low(x / 2, n - 1)
  }

  lemma {:induction false} ShlIsMul(x: nat, n: nat)
    ensures Shl(x, n) == x * Pow2(n)
  {
    if n != 0 {
      ShlIsMul(x, n - 1);
      assert x * (2 * Pow2(n - 1)) == 2 * (x * Pow2(n - 1));
    }
  }

  lemma {:induction false} ShrLow(x: nat, n: nat)
    ensures x == Shl(Shr(x, n), n) + Low(x, n)
  {
    if n != 0 { ShrLow(x / 2, n - 1); }
  }

  /** The quotient and remainder are determined by their defining equation. */
  lemma Unique(x: int, d: int, q: int, r: int)
    requires d > 0 && x == q * d + r && 0 <= r < d
    ensures x / d == q && x % d == r
  {
    var q', r' := x / d, x % d;
    assert x == q' * d + r';
    if q' < q {
      Ordered(q', q, d);
    } else if q < q' {
      Ordered(q, q', d);
    }
  }

  lemma {:induction false} Ordered(a: int, b: int, d: int)
    requires a < b && d > 0
    ensures a * d + d <= b * d
    decreases b - a
  {
    if a + 1 < b {
      Ordered(a, b - 1, d);
      assert b * d == (b - 1) * d + d;
    } else {
      assert b * d == a * d + d;
    }
  }

  lemma DivMod(a: int, c: int)
    requires c > 0
    ensures a == (a / c) * c + a % c && 0 <= a % c < c
  {
  }

  lemma MulSucc(q: int, c: int)
    ensures (q + 1) * c == q * c + c
  {
  }

  /** Shifting right and masking are division and remainder by a power of two. */
  lemma ShiftIsDiv(x: nat, n: nat)
    ensures Shr(x, n) == x / Pow2(n) && Low(x, n) == x % Pow2(n)
  {
    ShrLow(x, n);
    ShlIsMul(Shr(x, n), n);
    Unique(x, Pow2(n), Shr(x, n), Low(x, n));
  }

  lemma AndZero(x: nat)
    ensures And(x, 0) == 0
  {
    if x != 0 { AndZero(x / 2); }
  }

  lemma AndUnfold(x: nat, y: nat)
    ensures And(x, y) == (x % 2) * (y % 2) + 2 * And(x / 2, y / 2)
  {
  }

  /** A mask splits at any bit position. */
  lemma {:induction false} AndSplit(x: nat, n: nat, lo: nat, hi: nat)
    requires lo < Pow2(n)
    ensures And(x, lo + Shl(hi, n)) == And(Low(x, n), lo) + Shl(And(Shr(x, n), hi), n)
    decreases n
  {
    if n != 0 {
      hide And;
      var m := lo + Shl(hi, n);
      assert m % 2 == lo % 2 && m / 2 == lo / 2 + Shl(hi, n - 1);
      assert Low(x, n) % 2 == x % 2 && Low(x, n) / 2 == Low(x / 2, n - 1);
      AndSplit(x / 2, n - 1, lo / 2, hi);
      AndUnfold(x, m);
      AndUnfold(Low(x, n), lo);
    } else {
      AndZeroLeft(lo);
    }
  }

  lemma AndZeroLeft(y: nat)
    ensures And(0, y) == 0
  {
  }

  /** `x & (2^n - 1)` keeps the low `n` bits. */
  lemma {:induction false} AndLowMask(x: nat, n: nat)
    ensures And(x, Pow2(n) - 1) == Low(x, n)
    decreases n
  {
    if n == 0 {
      AndZero(x);
    } else {
      AndLowMask(x / 2, n - 1);
      AndUnfold(x, Pow2(n) - 1);
    }
  }

  lemma OrZero(x: nat)
    ensures Or(x, 0) == x
  {
    if x != 0 { OrZero(x / 2); }
  }

  lemma OrZeroLeft(y: nat)
    ensures Or(0, y) == y
  {
    if y != 0 { OrZeroLeft(y / 2); }
  }

  lemma OrUnfold(x: nat, y: nat)
    ensures Or(x, y) == (if x % 2 == 1 || y % 2 == 1 then 1 else 0) + 2 * Or(x / 2, y / 2)
  {
  }

  /** Or of a shifted value with a value that fits under the shift is their sum. */
  lemma {:induction false} OrDisjoint(hi: nat, n: nat, lo: nat)
    requires lo < Pow2(n)
    ensures Or(Shl(hi, n), lo) == Shl(hi, n) + lo
    decreases n
  {
    if n == 0 {
      OrZero(hi);
    } else {
      OrDisjoint(hi, n - 1, lo / 2);
      OrUnfold(Shl(hi, n), lo);
    }
  }

  lemma {:induction false} Pow2Add(m: nat, n: nat)
    ensures Pow2(m + n) == Pow2(m) * Pow2(n)
  {
    if m != 0 {
      Pow2Add(m - 1, n);
      assert 2 * (Pow2(m - 1) * Pow2(n)) == (2 * Pow2(m - 1)) * Pow2(n);
    }
  }

  lemma {:induction false} Pow2Monotone(m: nat, n: nat)
    requires m <= n
    ensures Pow2(m) <= Pow2(n)
    decreases n
  {
    if m < n { Pow2Monotone(m, n - 1); }
  }

  lemma Pow2Values()
    ensures Pow2(5) == 32 && Pow2(8) == 0x100 && Pow2(12) == 0x1000 && Pow2(16) == 0x1_0000
    ensures Pow2(24) == 0x100_0000 && Pow2(26) == 0x400_0000
    ensures Pow2(31) == 0x8000_0000 && Pow2(32) == 0x1_0000_0000
  {
    assert Pow2(8) == 0x100;
    Pow2Add(8, 4);
    Pow2Add(8, 8);
    Pow2Add(16, 8);
    Pow2Add(24, 2);
    Pow2Add(24, 7);
    Pow2Add(24, 8);
  }
}
