/** The A64 decoder of tools/analyze_ops.py and the stub decoder of
    tools/decode_plt.py, on unbounded integers as in Python, against encoders that
    follow section C6.2 of the Arm Architecture Reference Manual. */
module A64 {
  import opened Words
  import opened Bits
  import opened Wrappers

  datatype Instruction =
    | Bl(target: int)
    | Blr(rn: nat)
    | B(target: int)
    | Adrp(rd: nat, page: int)
    | Movz(rd: nat, imm: nat)
    | Svc(num: nat)

  // ---------------------------------------------------------------- decoding

  predicate IsBl(insn: nat) { And(insn, 0xFC00_0000) == 0x9400_0000 }
  predicate IsBlr(insn: nat) { And(insn, 0xFFFF_FC1F) == 0xD63F_0000 }
  predicate IsB(insn: nat) { And(insn, 0xFC00_0000) == 0x1400_0000 }
  predicate IsAdrp(insn: nat) { And(insn, 0x9F00_0000) == 0x9000_0000 }
  predicate IsMovz(insn: nat) { And(insn, 0xFF80_0000) == 0x5280_0000 }
  predicate IsSvc(insn: nat) { And(insn, 0xFFE0_001F) == 0xD400_0001 }

  /** Branch target: the low 26 bits, sign-extended, times four. */
  function BranchTarget(insn: nat, pc: nat): int {
    var imm26 := And(insn, 0x03FF_FFFF);
    pc + (if And(imm26, 0x0200_0000) != 0 then imm26 - 0x0400_0000 else imm26) * 4
  }

  /** `pc & ~0xFFF` */
  function PageOf(pc: nat): nat {
    PageOffset(pc);
    pc - And(pc, 0xFFF)
  }

  lemma PageOffset(pc: nat)
    ensures And(pc, 0xFFF) == pc % 0x1000
  {
    hide And, Low, Pow2, Shr;
    Pow2Small();
    AndLowMask(pc, 12);
    ShiftIsDiv(pc, 12);
  }

  /** ADRP page: immhi:immlo, sign-extended from 21 bits, times 4096. */
  function AdrpPage(insn: nat, pc: nat): int {
    var immlo := And(Shr(insn, 29), 0x3);
    var immhi := And(Shr(insn, 5), 0x7_FFFF);
    var imm := Or(Shl(immhi, 2), immlo);
    PageOf(pc) + (if And(imm, 0x10_0000) != 0 then imm - 0x20_0000 else imm) * 4096
  }

  /** One word, tried in the order of the source; nothing is reported for other words
      and for MOVZ of zero. */
  function Decode(insn: nat, pc: nat): Option<Instruction> {
    if IsBl(insn) then Some(Bl(BranchTarget(insn, pc)))
    else if IsBlr(insn) then Some(Blr(And(Shr(insn, 5), 0x1F)))
    else if IsB(insn) then Some(B(BranchTarget(insn, pc)))
    else if IsAdrp(insn) then Some(Adrp(And(insn, 0x1F), AdrpPage(insn, pc)))
    else if IsMovz(insn) then
      var imm16 := And(Shr(insn, 5), 0xFFFF);
      if imm16 != 0 then Some(Movz(And(insn, 0x1F), imm16)) else None
    else if IsSvc(insn) then Some(Svc(And(Shr(insn, 5), 0xFFFF)))
    else None
  }

  // ---------------------------------------------------------------- masks as arithmetic

  /** A mask of `k` ones above bit `n` selects a field. */
  lemma FieldMask(x: nat, n: nat, k: nat)
    ensures And(x, Shl(Pow2(k) - 1, n)) == Shl(Low(Shr(x, n), k), n)
  {
    hide And, Shl, Shr, Low, Pow2;
    AndSplit(x, n, 0, Pow2(k) - 1);
    AndZero(Low(x, n));
    AndLowMask(Shr(x, n), k);
  }

  /** Ones above bit `n` together with `k` low ones. */
  lemma EndsMask(x: nat, k: nat, n: nat, m: nat)
    requires k <= n
    ensures And(x, Pow2(k) - 1 + Shl(Pow2(m) - 1, n)) == Low(x, k) + Shl(Low(Shr(x, n), m), n)
  {
    hide And, Shl, Shr, Low, Pow2;
    Pow2Monotone(k, n);
    AndSplit(x, n, Pow2(k) - 1, Pow2(m) - 1);
    AndLowMask(Low(x, n), k);
    AndLowMask(Shr(x, n), m);
    LowOfLow(x, k, n);
  }

  lemma {:induction false} LowOfLow(x: nat, k: nat, n: nat)
    requires k <= n
    ensures Low(Low(x, n), k) == Low(x, k)
    decreases k
  {
    if k != 0 {
      assert Low(x, n) % 2 == x % 2 && Low(x, n) / 2 == Low(x / 2, n - 1);
      LowOfLow(x / 2, k - 1, n - 1);
    }
  }

  lemma Pow2Small()
    ensures Pow2(1) == 2 && Pow2(2) == 4 && Pow2(5) == 0x20 && Pow2(6) == 0x40 && Pow2(9) == 0x200 && Pow2(10) == 0x400
    ensures Pow2(11) == 0x800 && Pow2(12) == 0x1000 && Pow2(16) == 0x1_0000 && Pow2(19) == 0x8_0000
    ensures Pow2(20) == 0x10_0000 && Pow2(21) == 0x20_0000 && Pow2(22) == 0x40_0000 && Pow2(23) == 0x80_0000
    ensures Pow2(24) == 0x100_0000 && Pow2(25) == 0x200_0000 && Pow2(26) == 0x400_0000 && Pow2(29) == 0x2000_0000
  {
    assert Pow2(5) == 0x20 && Pow2(6) == 0x40 && Pow2(9) == 0x200;
    Pow2Add(5, 5);
    Pow2Add(5, 6);
    Pow2Add(6, 6);
    Pow2Add(10, 6);
    Pow2Add(10, 9);
    Pow2Add(10, 10);
    Pow2Add(10, 11);
    Pow2Add(11, 11);
    Pow2Add(11, 12);
    Pow2Add(12, 12);
    Pow2Add(1, 24);
    Pow2Add(2, 24);
    Pow2Add(5, 24);
  }

  /** Each pattern as a condition on bit fields of a 32-bit word. */
  lemma Patterns(insn: u32)
    ensures IsBl(insn) <==> insn / 0x400_0000 == 0x25
    ensures IsB(insn) <==> insn / 0x400_0000 == 0x05
    ensures IsBlr(insn) <==> insn / 0x400 == 0x35_8FC0 && insn % 0x20 == 0
    ensures IsMovz(insn) <==> insn / 0x80_0000 == 0xA5
    ensures IsSvc(insn) <==> insn / 0x20_0000 == 0x6A0 && insn % 0x20 == 1
    ensures IsAdrp(insn) <==> insn / 0x8000_0000 == 1 && insn / 0x100_0000 % 0x20 == 0x10
  {
    hide And, Shl, Shr, Low, Pow2;
    HighPatterns(insn);
    EndPatterns(insn);
    AdrpField(insn);
  }

  lemma HighPatterns(insn: u32)
    ensures IsBl(insn) <==> insn / 0x400_0000 == 0x25
    ensures IsB(insn) <==> insn / 0x400_0000 == 0x05
    ensures IsMovz(insn) <==> insn / 0x80_0000 == 0xA5
  {
    hide And, Shl, Shr, Low, Pow2;
    HighField(insn, 26, 6);
    HighField(insn, 23, 9);
    Pow2Small();
  }

  lemma EndPatterns(insn: u32)
    ensures IsBlr(insn) <==> insn / 0x400 == 0x35_8FC0 && insn % 0x20 == 0
    ensures IsSvc(insn) <==> insn / 0x20_0000 == 0x6A0 && insn % 0x20 == 1
  {
    hide And, Shl, Shr, Low, Pow2;
    TwoEnds(insn, 10, 22);
    TwoEnds(insn, 21, 11);
    Pow2Small();
  }

  lemma HighField(insn: u32, n: nat, k: nat)
    requires n + k == 32
    ensures And(insn, (Pow2(k) - 1) * Pow2(n)) == insn / Pow2(n) * Pow2(n)
  {
    hide And, Shl, Shr, Low, Pow2;
    FieldMask(insn, n, k);
    ShlIsMul(Pow2(k) - 1, n);
    ShlIsMul(Low(Shr(insn, n), k), n);
    ShiftIsDiv(insn, n);
    TopFits(insn, n, k);
  }

  /** The field from bit `n` to the top of a 32-bit word is its quotient. */
  lemma TopFits(insn: u32, n: nat, k: nat)
    requires n + k == 32
    ensures Low(Shr(insn, n), k) == insn / Pow2(n)
  {
    hide And, Shl, Shr, Low, Pow2;
    ShiftIsDiv(insn, n);
    ShiftIsDiv(Shr(insn, n), k);
    Pow2Add(k, n);
    Pow2Values();
    ShrLow(insn, n);
    ShlIsMul(Shr(insn, n), n);
    if Shr(insn, n) >= Pow2(k) {
      Product(Shr(insn, n), Pow2(k), Pow2(n));
      assert false;
    }
    Unique(Shr(insn, n), Pow2(k), 0, Shr(insn, n));
  }

  lemma Product(a: nat, b: nat, c: nat)
    requires a >= b
    ensures a * c >= b * c
  {
    assert a * c == b * c + (a - b) * c;
  }

  lemma TwoEnds(insn: u32, n: nat, k: nat)
    requires n + k == 32 && n >= 5
    ensures And(insn, 0x1F + (Pow2(k) - 1) * Pow2(n)) == insn % 0x20 + insn / Pow2(n) * Pow2(n)
  {
    hide And, Shl, Shr, Low, Pow2;
    Pow2Small();
    EndsMask(insn, 5, n, k);
    ShlIsMul(Pow2(k) - 1, n);
    ShlIsMul(Low(Shr(insn, n), k), n);
    ShiftIsDiv(insn, 5);
    TopFits(insn, n, k);
  }

  lemma AdrpField(insn: u32)
    ensures And(insn, 0x9F00_0000) == (insn / 0x100_0000 % 0x20 + insn / 0x8000_0000 * 0x80) * 0x100_0000
  {
    hide And, Shl, Shr, Low, Pow2;
    Pow2Small();
    Pow2Values();
    var y := Shr(insn, 24);
    ShiftIsDiv(insn, 24);
    AndSplit(insn, 24, 0, 0x9F);
    AndZero(Low(insn, 24));
    ShlIsMul(0x9F, 24);
    EndsMask(y, 5, 7, 1);
    ShlIsMul(1, 7);
    assert Pow2(7) == 0x80 by { Pow2Add(5, 2); }
    ShiftIsDiv(y, 5);
    ShiftIsDiv(y, 7);
    ShiftIsDiv(Shr(y, 7), 1);
    ShlIsMul(Low(Shr(y, 7), 1), 7);
    ShlIsMul(And(y, 0x9F), 24);
    assert y / 0x80 == insn / 0x8000_0000;
  }

  /** No word matches two of the six patterns, so the order of the tests is immaterial. */
  lemma PatternsDisjoint(insn: u32)
    ensures !(IsBl(insn) && (IsBlr(insn) || IsB(insn) || IsAdrp(insn) || IsMovz(insn) || IsSvc(insn)))
    ensures !(IsBlr(insn) && (IsB(insn) || IsAdrp(insn) || IsMovz(insn) || IsSvc(insn)))
    ensures !(IsB(insn) && (IsAdrp(insn) || IsMovz(insn) || IsSvc(insn)))
    ensures !(IsAdrp(insn) && (IsMovz(insn) || IsSvc(insn)))
    ensures !(IsMovz(insn) && IsSvc(insn))
  {
    hide And;
    Patterns(insn);
  }

  // ---------------------------------------------------------------- encoding

  /** What an instruction at `pc` can express. */
  predicate Encodable(i: Instruction, pc: nat) {
    match i
    case Bl(t) => (t - pc) % 4 == 0 && -0x800_0000 <= t - pc < 0x800_0000
    case B(t) => (t - pc) % 4 == 0 && -0x800_0000 <= t - pc < 0x800_0000
    case Blr(rn) => rn < 32
    case Adrp(rd, page) => rd < 32 && page % 0x1000 == 0
        && -0x10_0000 <= (page - (pc - pc % 0x1000)) / 0x1000 < 0x10_0000
    case Movz(rd, imm) => rd < 32 && 0 < imm < 0x1_0000
    case Svc(num) => num < 0x1_0000
  }

  /** The instruction word, built from its fields. */
  function Encode(i: Instruction, pc: nat): u32
    requires Encodable(i, pc)
  {
    match i
    case Bl(t) => 0x25 * 0x400_0000 + (t - pc) / 4 % 0x400_0000
    case B(t) => 0x05 * 0x400_0000 + (t - pc) / 4 % 0x400_0000
    case Blr(rn) => 0x35_8FC0 * 0x400 + rn * 0x20
    case Adrp(rd, page) =>
      var imm := (page - (pc - pc % 0x1000)) / 0x1000 % 0x20_0000;
      0x8000_0000 + imm % 4 * 0x2000_0000 + 0x10 * 0x100_0000 + imm / 4 * 0x20 + rd
    case Movz(rd, imm) => 0xA5 * 0x80_0000 + imm * 0x20 + rd
    case Svc(num) => 0x6A0 * 0x20_0000 + num * 0x20 + 1
  }

  /** The low fields the decoder extracts. */
  lemma Fields(insn: u32)
    ensures And(insn, 0x1F) == insn % 0x20
    ensures And(insn, 0x03FF_FFFF) == insn % 0x400_0000
    ensures And(Shr(insn, 5), 0x1F) == insn / 0x20 % 0x20
    ensures And(Shr(insn, 5), 0xFFFF) == insn / 0x20 % 0x1_0000
    ensures And(Shr(insn, 5), 0x7_FFFF) == insn / 0x20 % 0x8_0000
    ensures And(Shr(insn, 29), 0x3) == insn / 0x2000_0000 % 4
  {
    hide And, Shl, Shr, Low, Pow2;
    Pow2Small();
    LowField(insn, 0, 5);
    LowField(insn, 0, 26);
    LowField(insn, 5, 5);
    LowField(insn, 5, 16);
    LowField(insn, 5, 19);
    LowField(insn, 29, 2);
    ShiftByZero(insn);
    assert Pow2(0) == 1 by { Pow2Zero(); }
  }

  lemma Pow2Zero()
    ensures Pow2(0) == 1
  {
  }

  lemma ShiftByZero(x: nat)
    ensures Shr(x, 0) == x
  {
  }

  lemma LowField(insn: nat, n: nat, k: nat)
    ensures And(Shr(insn, n), Pow2(k) - 1) == insn / Pow2(n) % Pow2(k)
  {
    hide And, Shl, Shr, Low, Pow2;
    AndLowMask(Shr(insn, n), k);
    ShiftIsDiv(insn, n);
    ShiftIsDiv(Shr(insn, n), k);
  }

  /** The sign-bit tests of the two extensions. */
  lemma SignBits(x: nat)
    ensures And(x, 0x0200_0000) != 0 <==> x / 0x0200_0000 % 2 == 1
    ensures And(x, 0x10_0000) != 0 <==> x / 0x10_0000 % 2 == 1
  {
    hide And, Shl, Shr, Low, Pow2;
    Pow2Small();
    SignBit(x, 25);
    SignBit(x, 20);
  }

  lemma SignBit(x: nat, n: nat)
    ensures And(x, Pow2(n)) != 0 <==> x / Pow2(n) % 2 == 1
  {
    hide And, Shl, Shr, Low, Pow2;
    assert Pow2(1) == 2 by { Pow2Small(); }
    FieldMask(x, n, 1);
    ShlIsMul(1, n);
    ShiftIsDiv(x, n);
    ShiftIsDiv(Shr(x, n), 1);
    ShlIsMul(Low(Shr(x, n), 1), n);
  }

  /** Sign extension undoes truncation to 26 bits. */
  lemma BranchRoundTrip(insn: u32, op: nat, t: int, pc: nat)
    requires (t - pc) % 4 == 0 && -0x800_0000 <= t - pc < 0x800_0000 && op < 64
    requires insn == op * 0x400_0000 + (t - pc) / 4 % 0x400_0000
    ensures insn / 0x400_0000 == op && BranchTarget(insn, pc) == t
  {
    hide And, Shr;
    var d := (t - pc) / 4;
    Truncated(d, 0x200_0000);
    Unique(insn, 0x400_0000, op, d % 0x400_0000);
    Fields(insn);
    SignBits(d % 0x400_0000);
  }

  /** Two's complement in `2 * half` values. */
  lemma Truncated(d: int, half: int)
    requires half > 0 && -half <= d < half
    ensures d % (2 * half) == if d >= 0 then d else d + 2 * half
    ensures d % (2 * half) / half % 2 == 1 <==> d < 0
  {
    if d >= 0 {
      Unique(d, 2 * half, 0, d);
      Unique(d, half, 0, d);
    } else {
      Unique(d, 2 * half, -1, d + 2 * half);
      Unique(d + 2 * half, half, 1, d + half);
    }
  }

  lemma AdrpRoundTrip(i: Instruction, pc: nat)
    requires i.Adrp? && Encodable(i, pc)
    ensures var insn := Encode(i, pc); IsAdrp(insn) && AdrpPage(insn, pc) == i.page && And(insn, 0x1F) == i.rd
  {
    hide And, Shr, Shl, Or, Pow2;
    var insn := Encode(i, pc);
    var d := (i.page - (pc - pc % 0x1000)) / 0x1000;
    var imm := d % 0x20_0000;
    Patterns(insn);
    Fields(insn);
    AdrpFieldsOf(insn, imm, i.rd);
    Pow2Small();
    ShlIsMul(imm / 4, 2);
    OrDisjoint(imm / 4, 2, imm % 4);
    SignBits(imm);
    PageOffset(pc);
    Truncated(d, 0x10_0000);
    assert i.page - (pc - pc % 0x1000) == d * 0x1000;
  }

  lemma AdrpFieldsOf(insn: u32, imm: nat, rd: nat)
    requires imm < 0x20_0000 && rd < 32
    requires insn == 0x8000_0000 + imm % 4 * 0x2000_0000 + 0x10 * 0x100_0000 + imm / 4 * 0x20 + rd
    ensures insn / 0x8000_0000 == 1 && insn / 0x100_0000 % 0x20 == 0x10
    ensures insn / 0x20 % 0x8_0000 == imm / 4 && insn / 0x2000_0000 % 4 == imm % 4 && insn % 0x20 == rd
  {
    var hi, lo := imm / 4, imm % 4;
    assert insn / 0x20 == 0x400_0000 + lo * 0x100_0000 + 0x10 * 0x8_0000 + hi;
    assert insn / 0x100_0000 == 0x80 + lo * 0x20 + 0x10 by { assert hi * 0x20 + rd < 0x100_0000; }
    assert insn / 0x2000_0000 == 4 + lo;
  }

  /** Decoding an encoded instruction gives it back, for every program counter. */
  lemma DecodeEncode(i: Instruction, pc: nat)
    requires Encodable(i, pc)
    ensures Decode(Encode(i, pc), pc) == Some(i)
  {
    hide Decode, Encode, Encodable;
    match i
    case Bl(t) => BranchDecodes(i, pc);
    case B(t) => BranchDecodes(i, pc);
    case Adrp(rd, page) => AdrpDecodes(i, pc);
    case Blr(rn) => BlrDecodes(i, pc);
    case Movz(rd, imm) => MovzDecodes(i, pc);
    case Svc(num) => SvcDecodes(i, pc);
  }

  lemma BranchDecodes(i: Instruction, pc: nat)
    requires (i.Bl? || i.B?) && Encodable(i, pc)
    ensures Decode(Encode(i, pc), pc) == Some(i)
  {
    hide And, BranchTarget, IsBl, IsB, IsBlr, IsAdrp, IsMovz, IsSvc;
    var insn := Encode(i, pc);
    Patterns(insn);
    PatternsDisjoint(insn);
    BranchRoundTrip(insn, if i.Bl? then 0x25 else 0x05, i.target, pc);
  }

  lemma AdrpDecodes(i: Instruction, pc: nat)
    requires i.Adrp? && Encodable(i, pc)
    ensures Decode(Encode(i, pc), pc) == Some(i)
  {
    hide And, AdrpPage, IsBl, IsB, IsBlr, IsAdrp, IsMovz, IsSvc, Encode, Encodable;
    PatternsDisjoint(Encode(i, pc));
    AdrpRoundTrip(i, pc);
  }

  lemma BlrDecodes(i: Instruction, pc: nat)
    requires i.Blr? && Encodable(i, pc)
    ensures Decode(Encode(i, pc), pc) == Some(i)
  {
    hide And, Shr, IsBl, IsB, IsBlr, IsAdrp, IsMovz, IsSvc, Encode;
    var insn := Encode(i, pc);
    assert IsBlr(insn) && insn / 0x20 % 0x20 == i.rn by { BlrWord(i, pc); }
    PatternsDisjoint(insn);
    Fields(insn);
  }

  lemma BlrWord(i: Instruction, pc: nat)
    requires i.Blr? && Encodable(i, pc)
    ensures var insn := Encode(i, pc); IsBlr(insn) && insn / 0x20 % 0x20 == i.rn
  {
    hide And, IsBl, IsB, IsBlr, IsAdrp, IsMovz, IsSvc;
    var insn := Encode(i, pc);
    Patterns(insn);
    assert insn / 0x20 == 0x35_8FC0 * 0x20 + i.rn;
  }

  lemma MovzDecodes(i: Instruction, pc: nat)
    requires i.Movz? && Encodable(i, pc)
    ensures Decode(Encode(i, pc), pc) == Some(i)
  {
    hide And, Shr, IsBl, IsB, IsBlr, IsAdrp, IsMovz, IsSvc, Encode;
    var insn := Encode(i, pc);
    assert IsMovz(insn) && insn / 0x20 % 0x1_0000 == i.imm && insn % 0x20 == i.rd by { MovzWord(i, pc); }
    PatternsDisjoint(insn);
    Fields(insn);
  }

  lemma MovzWord(i: Instruction, pc: nat)
    requires i.Movz? && Encodable(i, pc)
    ensures var insn := Encode(i, pc); IsMovz(insn) && insn / 0x20 % 0x1_0000 == i.imm && insn % 0x20 == i.rd
  {
    hide And, IsBl, IsB, IsBlr, IsAdrp, IsMovz, IsSvc;
    var insn := Encode(i, pc);
    Patterns(insn);
    assert insn / 0x20 == 0xA5 * 0x4_0000 + i.imm;
  }

  lemma SvcDecodes(i: Instruction, pc: nat)
    requires i.Svc? && Encodable(i, pc)
    ensures Decode(Encode(i, pc), pc) == Some(i)
  {
    hide And, Shr, IsBl, IsB, IsBlr, IsAdrp, IsMovz, IsSvc, Encode;
    var insn := Encode(i, pc);
    assert IsSvc(insn) && insn / 0x20 % 0x1_0000 == i.num by { SvcWord(i, pc); }
    PatternsDisjoint(insn);
    Fields(insn);
  }

  lemma SvcWord(i: Instruction, pc: nat)
    requires i.Svc? && Encodable(i, pc)
    ensures var insn := Encode(i, pc); IsSvc(insn) && insn / 0x20 % 0x1_0000 == i.num
  {
    hide And, IsBl, IsB, IsBlr, IsAdrp, IsMovz, IsSvc;
    var insn := Encode(i, pc);
    Patterns(insn);
    assert insn / 0x20 == 0x6A0 * 0x1_0000 + i.num;
  }

  // ---------------------------------------------------------------- the converse

  lemma BranchTargetIs(insn: u32, pc: nat)
    ensures var x := insn % 0x400_0000;
            BranchTarget(insn, pc) == pc + (if x >= 0x200_0000 then x - 0x400_0000 else x) * 4
  {
    hide And, Shr;
    Fields(insn);
    SignBits(insn % 0x400_0000);
  }

  lemma AdrpPageIs(insn: u32, pc: nat)
    ensures var imm := insn / 0x20 % 0x8_0000 * 4 + insn / 0x2000_0000 % 4;
            AdrpPage(insn, pc) == pc - pc % 0x1000 + (if imm >= 0x10_0000 then imm - 0x20_0000 else imm) * 0x1000
  {
    hide And, Shr, Shl, Or, Pow2;
    var hi, lo := insn / 0x20 % 0x8_0000, insn / 0x2000_0000 % 4;
    Fields(insn);
    Pow2Small();
    ShlIsMul(hi, 2);
    OrDisjoint(hi, 2, lo);
    SignBits(hi * 4 + lo);
    PageOffset(pc);
  }

  /** A decoded branch encodes back to its word. */
  lemma BranchEncodes(insn: u32, i: Instruction, pc: nat)
    requires (i.Bl? && IsBl(insn)) || (i.B? && IsB(insn))
    requires i.target == BranchTarget(insn, pc)
    ensures Encodable(i, pc) && Encode(i, pc) == insn
  {
    hide IsBl, IsB, BranchTarget;
    Patterns(insn);
    BranchTargetIs(insn, pc);
    var x := insn % 0x400_0000;
    var d := if x >= 0x200_0000 then x - 0x400_0000 else x;
    assert (i.target - pc) / 4 == d && (i.target - pc) % 4 == 0;
    Truncated(d, 0x200_0000);
    DivMod(insn, 0x400_0000);
  }

  lemma AdrpEncodes(insn: u32, i: Instruction, pc: nat)
    requires IsAdrp(insn) && i == Adrp(And(insn, 0x1F), AdrpPage(insn, pc))
    ensures Encodable(i, pc) && Encode(i, pc) == insn
  {
    hide IsAdrp, AdrpPage, And, Shr;
    assert insn / 0x8000_0000 == 1 && insn / 0x100_0000 % 0x20 == 0x10 by { Patterns(insn); }
    assert i.rd == insn % 0x20 by { Fields(insn); }
    var hi, lo := insn / 0x20 % 0x8_0000, insn / 0x2000_0000 % 4;
    var imm := hi * 4 + lo;
    var d := if imm >= 0x10_0000 then imm - 0x20_0000 else imm;
    AdrpPageIs(insn, pc);
    PageDistance(i.page, pc, d);
    SignedField(imm, d);
    AdrpWord(insn);
    Unique(imm, 4, hi, lo);
  }

  lemma SignedField(imm: nat, d: int)
    requires imm < 0x20_0000 && d == if imm >= 0x10_0000 then imm - 0x20_0000 else imm
    ensures -0x10_0000 <= d < 0x10_0000 && d % 0x20_0000 == imm
  {
    Truncated(d, 0x10_0000);
  }

  lemma PageDistance(page: int, pc: nat, d: int)
    requires page == pc - pc % 0x1000 + d * 0x1000
    ensures page % 0x1000 == 0 && (page - (pc - pc % 0x1000)) / 0x1000 == d
  {
    var q := pc / 0x1000;
    assert page == (q + d) * 0x1000;
  }

  lemma AdrpWord(insn: u32)
    requires insn / 0x8000_0000 == 1 && insn / 0x100_0000 % 0x20 == 0x10
    ensures insn == 0x8000_0000 + insn / 0x2000_0000 % 4 * 0x2000_0000 + 0x10 * 0x100_0000
                    + insn / 0x20 % 0x8_0000 * 0x20 + insn % 0x20
  {
    var a, b, c := insn / 0x20, insn / 0x100_0000, insn / 0x2000_0000;
    assert insn == a * 0x20 + insn % 0x20;
    assert a / 0x8_0000 == b && a == b * 0x8_0000 + a % 0x8_0000;
    assert b / 0x20 == c && b == c * 0x20 + b % 0x20;
    assert c / 4 == insn / 0x8000_0000 && c == 4 + c % 4;
  }

  /** The word with the shift field (bits 21 and 22) of a MOVZ cleared. */
  function Unshifted(insn: u32): u32 {
    if insn / 0x80_0000 == 0xA5 then 0xA5 * 0x80_0000 + insn % 0x20_0000 else insn
  }

  lemma OtherEncodes(insn: u32, i: Instruction, pc: nat)
    requires
      || (IsBlr(insn) && i == Blr(And(Shr(insn, 5), 0x1F)))
      || (IsMovz(insn) && i == Movz(And(insn, 0x1F), And(Shr(insn, 5), 0xFFFF)) && i.imm != 0)
      || (IsSvc(insn) && i == Svc(And(Shr(insn, 5), 0xFFFF)))
    ensures Encodable(i, pc) && Encode(i, pc) == Unshifted(insn)
  {
    hide IsBlr, IsMovz, IsSvc, And, Shr;
    Patterns(insn);
    Fields(insn);
    OtherWords(insn);
  }

  lemma OtherWords(insn: u32)
    ensures insn == insn / 0x400 * 0x400 + insn / 0x20 % 0x20 * 0x20 + insn % 0x20
    ensures insn == insn / 0x20_0000 * 0x20_0000 + insn / 0x20 % 0x1_0000 * 0x20 + insn % 0x20
    ensures insn % 0x20_0000 == insn / 0x20 % 0x1_0000 * 0x20 + insn % 0x20
    ensures insn / 0x400 == 0x35_8FC0 ==> insn / 0x80_0000 != 0xA5
    ensures insn / 0x20_0000 == 0x6A0 ==> insn / 0x80_0000 != 0xA5
  {
    var a := insn / 0x20;
    assert insn == a * 0x20 + insn % 0x20;
    assert a / 0x20 == insn / 0x400 && a / 0x1_0000 == insn / 0x20_0000;
    Unique(insn, 0x20_0000, insn / 0x20_0000, a % 0x1_0000 * 0x20 + insn % 0x20);
  }

  lemma NotMovz(insn: u32)
    requires IsBl(insn) || IsB(insn) || IsAdrp(insn)
    ensures Unshifted(insn) == insn
  {
    hide IsBl, IsB, IsAdrp;
    PatternsDisjoint(insn);
    Patterns(insn);
  }

  /** A MOVZ with a shift is read like the one without. */
  lemma ShiftIgnored(insn: u32, pc: nat)
    ensures Decode(insn, pc) == Decode(Unshifted(insn), pc)
  {
    hide IsBl, IsB, IsBlr, IsAdrp, IsMovz, IsSvc, And, Shr, BranchTarget, AdrpPage;
    if insn / 0x80_0000 == 0xA5 {
      var w := Unshifted(insn);
      SameFields(insn, w);
      Patterns(insn);
      Patterns(w);
      PatternsDisjoint(insn);
      PatternsDisjoint(w);
      Fields(insn);
      Fields(w);
    }
  }

  lemma SameFields(insn: u32, w: u32)
    requires insn / 0x80_0000 == 0xA5 && w == 0xA5 * 0x80_0000 + insn % 0x20_0000
    ensures w / 0x80_0000 == 0xA5 && w % 0x20 == insn % 0x20 && w / 0x20 % 0x1_0000 == insn / 0x20 % 0x1_0000
  {
    OtherWords(insn);
    OtherWords(w);
    Unique(w, 0x80_0000, 0xA5, insn % 0x20_0000);
    Unique(w, 0x20_0000, 0x294, insn % 0x20_0000);
    var r := insn % 0x20_0000;
    assert w / 0x20 == 0x294 * 0x1_0000 + r / 0x20;
    assert r / 0x20 == insn / 0x20 % 0x1_0000;
  }

  /** Decoding a word gives an instruction exactly when the word, a MOVZ's shift aside, is
      that instruction's encoding; for every other word nothing is reported. */
  lemma DecodeExact(insn: u32, i: Instruction, pc: nat)
    ensures Decode(insn, pc) == Some(i) <==> Encodable(i, pc) && Encode(i, pc) == Unshifted(insn)
  {
    hide And, Shr, IsBl, IsB, IsBlr, IsAdrp, IsMovz, IsSvc, BranchTarget, AdrpPage, Encode, Encodable, Unshifted;
    if Encodable(i, pc) && Encode(i, pc) == Unshifted(insn) {
      ShiftIgnored(insn, pc);
      DecodeEncode(i, pc);
    }
    if Decode(insn, pc) == Some(i) {
      match i
      case Bl(_) => BranchEncodes(insn, i, pc); NotMovz(insn);
      case B(_) => BranchEncodes(insn, i, pc); NotMovz(insn);
      case Adrp(_, _) => AdrpEncodes(insn, i, pc); NotMovz(insn);
      case Blr(_) => OtherEncodes(insn, i, pc);
      case Movz(_, _) => OtherEncodes(insn, i, pc);
      case Svc(_) => OtherEncodes(insn, i, pc);
    }
  }

  /** What is reported is the word's own meaning except for a MOVZ whose shift field is not
      zero: `movz w0, #1, lsl #16` is listed as `movz w0, #1`. */
  lemma MisreadExact(insn: u32, pc: nat)
    ensures var d := Decode(insn, pc);
            d.Some? && !(Encodable(d.value, pc) && Encode(d.value, pc) == insn)
            <==> insn / 0x80_0000 == 0xA5 && insn / 0x20_0000 % 4 != 0 && insn / 0x20 % 0x1_0000 != 0
    ensures Decode(0x52A0_0020, pc) == Some(Movz(0, 1))
  {
    hide Decode, Encode, Encodable, And, Shr;
    if Decode(insn, pc).Some? {
      DecodeExact(insn, Decode(insn, pc).value, pc);
    }
    ShiftedWord(insn);
    if insn / 0x80_0000 == 0xA5 && insn / 0x20 % 0x1_0000 != 0 {
      MovzReported(insn, pc);
    }
    if insn / 0x80_0000 == 0xA5 && insn / 0x20 % 0x1_0000 == 0 {
      ZeroMovzSilent(insn, pc);
    }
    MovzReported(0x52A0_0020, pc);
  }

  lemma ShiftedWord(insn: u32)
    ensures Unshifted(insn) == insn <==> insn / 0x80_0000 != 0xA5 || insn / 0x20_0000 % 4 == 0
  {
    if insn / 0x80_0000 == 0xA5 {
      var h := insn / 0x20_0000;
      assert insn == h * 0x20_0000 + insn % 0x20_0000;
      assert h / 4 == 0xA5 && h == 0xA5 * 4 + h % 4;
    }
  }

  lemma MovzReported(insn: u32, pc: nat)
    requires insn / 0x80_0000 == 0xA5 && insn / 0x20 % 0x1_0000 != 0
    ensures Decode(insn, pc) == Some(Movz(insn % 0x20, insn / 0x20 % 0x1_0000))
  {
    hide And, Shr, IsBl, IsB, IsBlr, IsAdrp, IsMovz, IsSvc;
    Patterns(insn);
    PatternsDisjoint(insn);
    Fields(insn);
  }

  lemma ZeroMovzSilent(insn: u32, pc: nat)
    requires insn / 0x80_0000 == 0xA5 && insn / 0x20 % 0x1_0000 == 0
    ensures Decode(insn, pc) == None
  {
    hide And, Shr, IsBl, IsB, IsBlr, IsAdrp, IsMovz, IsSvc;
    Patterns(insn);
    PatternsDisjoint(insn);
    Fields(insn);
  }

  // ---------------------------------------------------------------- whole functions

  datatype Line = Line(pc: nat, insn: Instruction)

  /** What disasm_bl prints; the last partial word raises an error after the lines. */
  datatype Listing = Listing(lines: seq<Line>, truncated: bool)

  function LineAt(raw: seq<u8>, i: nat, base: nat): seq<Line>
    requires i + 4 <= |raw|
  {
    match Decode(LeValue(raw[i..i + 4]), base + i)
    case Some(insn) => [Line(base + i, insn)]
    case None => []
  }

  /** The lines of the words below byte `i`. */
  function LinesBelow(raw: seq<u8>, i: nat, base: nat): seq<Line>
    requires i <= |raw| && i % 4 == 0
  {
    if i == 0 then [] else LinesBelow(raw, i - 4, base) + LineAt(raw, i - 4, base)
  }

  lemma LinesUnfold(raw: seq<u8>, i: nat, base: nat)
    requires i <= |raw| && i % 4 == 0
    ensures LinesBelow(raw, i, base) == if i == 0 then [] else LinesBelow(raw, i - 4, base) + LineAt(raw, i - 4, base)
  {
  }

  function WordAt(raw: seq<u8>, o: nat): u32
    requires o + 4 <= |raw|
  {
    assert Pow256(4) == TWO_32;
    LeValue(raw[o..o + 4])
  }

  /** The line stands for an aligned word of `raw`: one that encodes its instruction at its
      address, a MOVZ's shift aside. */
  predicate Shown(raw: seq<u8>, i: nat, base: nat, l: Line)
    requires i <= |raw| && i % 4 == 0
  {
    && base <= l.pc < base + i && (l.pc - base) % 4 == 0
    && Encodable(l.insn, l.pc) && Encode(l.insn, l.pc) == Unshifted(WordAt(raw, l.pc - base))
  }

  /** The listing holds exactly the lines of the words that encode an instruction. */
  lemma {:induction false} ListingExact(raw: seq<u8>, i: nat, base: nat, l: Line)
    requires i <= |raw| && i % 4 == 0
    ensures l in LinesBelow(raw, i, base) <==> Shown(raw, i, base, l)
    decreases i
  {
    hide Decode, LinesBelow, LineAt, Shown;
    LinesUnfold(raw, i, base);
    if i == 0 {
      assert !Shown(raw, i, base, l) by { NothingShown(raw, base, l); }
    } else {
      ListingExact(raw, i - 4, base, l);
      LineShown(raw, i - 4, base, l);
    }
  }

  lemma NothingShown(raw: seq<u8>, base: nat, l: Line)
    ensures !Shown(raw, 0, base, l)
  {
  }

  lemma LineShown(raw: seq<u8>, o: nat, base: nat, l: Line)
    requires o + 4 <= |raw| && o % 4 == 0
    ensures Shown(raw, o + 4, base, l) <==> Shown(raw, o, base, l) || l in LineAt(raw, o, base)
  {
    hide Decode, LeValue, Encode, Encodable, Unshifted;
    DecodeExact(WordAt(raw, o), l.insn, base + o);
  }

  /** Lines come in the order of their addresses, at most one for a word. */
  lemma {:induction false} LinesInOrder(raw: seq<u8>, i: nat, base: nat)
    requires i <= |raw| && i % 4 == 0
    ensures var ls := LinesBelow(raw, i, base);
            && (forall j :: 0 <= j < |ls| ==> base <= ls[j].pc < base + i)
            && (forall j, k :: 0 <= j < k < |ls| ==> ls[j].pc < ls[k].pc)
    decreases i
  {
    hide Decode, LeValue, LinesBelow;
    LinesUnfold(raw, i, base);
    if i != 0 {
      LinesInOrder(raw, i - 4, base);
    }
  }

  /** disasm_bl: one pass over the words of a function. */
  method DisasmBl(raw: seq<u8>, base: nat) returns (out: Listing)
    ensures out.lines == LinesBelow(raw, |raw| - |raw| % 4, base)
    ensures forall l :: l in out.lines <==> Shown(raw, |raw| - |raw| % 4, base, l)
    ensures out.truncated <==> |raw| % 4 != 0
  {
    hide Decode, LeValue, LinesBelow, Shown;
    ghost var n := |raw| - |raw| % 4;
    forall l
      ensures l in LinesBelow(raw, n, base) <==> Shown(raw, n, base, l)
    {
      ListingExact(raw, n, base, l);
    }
    assert LinesBelow(raw, 0, base) == [] by { LinesUnfold(raw, 0, base); }
    var lines: seq<Line> := [];
    var i := 0;
    while i < |raw|
      invariant i % 4 == 0 && 0 <= i <= |raw|
      invariant lines == LinesBelow(raw, i, base)
    {
      if i + 4 > |raw| {
        return Listing(lines, true);
      }
      var insn := LeValue(raw[i..i + 4]);
      var pc := base + i;
      ghost var before := lines;
      match Decode(insn, pc) {
        case Some(d) => lines := lines + [Line(pc, d)];
        case None =>
      }
      assert lines == before + LineAt(raw, i, base);
      LinesUnfold(raw, i + 4, base);
      i := i + 4;
    }
    out := Listing(lines, false);
  }

  /** The bytes of a straight-line function at `base`. */
  function Assemble(code: seq<Instruction>, base: nat): (raw: seq<u8>)
    requires forall k :: 0 <= k < |code| ==> Encodable(code[k], base + 4 * k)
    ensures |raw| == 4 * |code|
  {
    if code == [] then []
    else
      var n := |code| - 1;
      Assemble(code[..n], base) + LeBytes(Encode(code[n], base + 4 * n), 4)
  }

  lemma SameWord(raw: seq<u8>, more: seq<u8>, i: nat, base: nat)
    requires i + 4 <= |raw|
    ensures LineAt(raw + more, i, base) == LineAt(raw, i, base)
  {
    hide Decode, LeValue;
    assert (raw + more)[i..i + 4] == raw[i..i + 4];
  }

  lemma {:induction false} LinesPrefix(raw: seq<u8>, more: seq<u8>, i: nat, base: nat)
    requires i <= |raw| && i % 4 == 0
    ensures LinesBelow(raw + more, i, base) == LinesBelow(raw, i, base)
    decreases i
  {
    hide LineAt, LinesBelow;
    LinesUnfold(raw, i, base);
    LinesUnfold(raw + more, i, base);
    if i != 0 {
      LinesPrefix(raw, more, i - 4, base);
      SameWord(raw, more, i - 4, base);
    }
  }

  /** Disassembling assembled code lists exactly its instructions, in order, each at
      its own address. */
  lemma {:induction false} DisassembleAssemble(code: seq<Instruction>, base: nat)
    requires forall k :: 0 <= k < |code| ==> Encodable(code[k], base + 4 * k)
    ensures LinesBelow(Assemble(code, base), 4 * |code|, base)
            == seq(|code|, k requires 0 <= k < |code| => Line(base + 4 * k, code[k]))
    decreases |code|
  {
    hide Decode, LeValue, LeBytes, Encode, Encodable;
    if code != [] {
      var n := |code| - 1;
      var front, word := Assemble(code[..n], base), LeBytes(Encode(code[n], base + 4 * n), 4);
      DisassembleAssemble(code[..n], base);
      LinesPrefix(front, word, 4 * n, base);
      assert (front + word)[4 * n..4 * n + 4] == word;
      WordBack(Encode(code[n], base + 4 * n));
      DecodeEncode(code[n], base + 4 * n);
      assert 4 * |code| - 4 == 4 * n;
    }
  }

  lemma WordBack(v: u32)
    ensures LeValue(LeBytes(v, 4)) == v
  {
    assert Pow256(4) == TWO_32;
    LoadStore(v, 4);
  }

  // ---------------------------------------------------------------- import stubs

  /** decode_plt.py: the address formed by the ADRP and ADD that open a stub, if the
      first word is an ADRP. */
  function GotAddress(stub: seq<u8>, base: nat): Option<int>
    requires |stub| >= 16
  {
    var adrp, add := LeValue(stub[0..4]), LeValue(stub[4..8]);
    if IsAdrp(adrp) then Some(AdrpPage(adrp, base) + And(Shr(add, 10), 0xFFF)) else None
  }

  /** An address is formed exactly if the stub opens with an ADRP; it lies in the page
      that word encodes, at bits 10 to 21 of the second. */
  lemma GotAddressExact(stub: seq<u8>, base: nat)
    requires |stub| >= 16
    ensures var adrp, low := WordAt(stub, 0), WordAt(stub, 4) / 0x400 % 0x1000;
            match GotAddress(stub, base)
            case None => forall i: Instruction :: i.Adrp? && Encodable(i, base) ==> Encode(i, base) != adrp
            case Some(a) => var i := Adrp(adrp % 0x20, a - low); Encodable(i, base) && Encode(i, base) == adrp
  {
    hide LeValue, And, Shr, AdrpPage, IsAdrp, Encode, Encodable;
    var adrp := WordAt(stub, 0);
    AddField(WordAt(stub, 4));
    Fields(adrp);
    if IsAdrp(adrp) {
      AdrpEncodes(adrp, Adrp(And(adrp, 0x1F), AdrpPage(adrp, base)), base);
    } else {
      forall i: Instruction | i.Adrp? && Encodable(i, base)
        ensures Encode(i, base) != adrp
      {
        AdrpRoundTrip(i, base);
      }
    }
  }

  /** ADD Xrd, Xn, #imm12 */
  function EncodeAdd(rd: nat, rn: nat, imm12: nat): u32
    requires rd < 32 && rn < 32 && imm12 < 0x1000
  {
    0x9100_0000 + imm12 * 0x400 + rn * 0x20 + rd
  }

  /** For every address within the ADRP range, the stub that forms it decodes to it. */
  lemma GotAddressRoundTrip(got: nat, base: nat, rd: nat, rest: seq<u8>)
    requires rd < 32 && |rest| >= 8 && Encodable(Adrp(rd, got - got % 0x1000), base)
    ensures var stub := LeBytes(Encode(Adrp(rd, got - got % 0x1000), base), 4)
                        + LeBytes(EncodeAdd(rd, rd, got % 0x1000), 4) + rest;
            GotAddress(stub, base) == Some(got)
  {
    hide LeBytes, LeValue, And, Shr, AdrpPage, IsAdrp, Encode, Encodable;
    var a, b := Encode(Adrp(rd, got - got % 0x1000), base), EncodeAdd(rd, rd, got % 0x1000);
    var stub := LeBytes(a, 4) + LeBytes(b, 4) + rest;
    assert stub[0..4] == LeBytes(a, 4) && stub[4..8] == LeBytes(b, 4);
    WordBack(a);
    WordBack(b);
    AdrpRoundTrip(Adrp(rd, got - got % 0x1000), base);
    AddField(b);
  }

  lemma AddField(insn: u32)
    ensures And(Shr(insn, 10), 0xFFF) == insn / 0x400 % 0x1000
  {
    hide And, Shr, Pow2;
    Pow2Small();
    LowField(insn, 10, 12);
  }
}
