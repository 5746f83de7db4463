/** What the written instructions do to values. A register agrees with a value when its low bits are those
    of the value; the bits above the type may be junk. */
module LoweredValues {
  import opened Words
  import opened IrTypes
  import opened Riscv
  import opened Ir
  import opened IrSemantics
  import opened Allocator
  import opened SourceSemantics
  import opened Lowering

  /** The word that a truncated register holds: the sign or zero extension. */
  function Canonical(t: IrType, w: int): Word { ToWord(t.Wrap(w)) }

  /** What the operation instructions leave in the result register. */
  function ResultWord(op: Op, signed: bool, w1: Word, w2: Word): Word
    requires op.IsBinary()
  {
    match op
    case Add => AluResult(ADD, w1, w2)
    case Sub => AluResult(SUB, w1, w2)
    case Mul => AluResult(MUL, w1, w2)
    case Div => AluResult(if signed then DIV else DIVU, w1, w2)
    case Rem => AluResult(if signed then REM else REMU, w1, w2)
    case BitAnd => AluResult(AND, w1, w2)
    case BitOr => AluResult(OR, w1, w2)
    case BitXor => AluResult(XOR, w1, w2)
    case BitShl => AluResult(SLL, w1, w2)
    case BitShr => AluResult(if signed then SRA else SRL, w1, w2)
    case CmpEq => ImmResult(SLTIU, AluResult(XOR, w1, w2), 1)
    case CmpNe => AluResult(SLTU, 0, AluResult(XOR, w1, w2))
    case CmpGt => AluResult(if signed then SLT else SLTU, w2, w1)
    case CmpGte => ImmResult(XORI, AluResult(if signed then SLT else SLTU, w1, w2), 1)
    case CmpLt => AluResult(if signed then SLT else SLTU, w1, w2)
    case CmpLte => ImmResult(XORI, AluResult(if signed then SLT else SLTU, w2, w1), 1)
  }

  /** Truncation and agreement: the register of a value, truncated, is its canonical word. */
  lemma CanonicalOf(t: IrType, w: Word, x: int)
    requires t.Agrees(w, x) && t.InRange(x)
    ensures Canonical(t, w) == ToWord(x) && t.Agrees(ToWord(x), x)
  {
    hide ToWord;
    WordAgrees(t, x);
    InRangeUnique(t, t.Wrap(w), x);
  }

  lemma InRangeUnique(t: IrType, x: int, y: int)
    requires t.InRange(x) && t.InRange(y) && x % t.Modulus() == y % t.Modulus()
    ensures x == y
  {
    hide IrTypes.IrType.Wrap;
  }

  /** Agreement modulo 2^32 implies agreement. */
  lemma WordAgrees(t: IrType, y: int)
    ensures t.Agrees(ToWord(y), y) && t.Agrees(ToWord(y), t.Wrap(y))
  {
    hide IrTypes.IrType.Wrap;
    ModMod(y, t.Modulus(), 0x1_0000_0000 / t.Modulus());
  }

  lemma ModulusIsPower(t: IrType)
    ensures t.Modulus() == Pow2(8 * t.Size())
  {
    hide Pow2;
    Pow2Values();
  }

  lemma AddAgrees(t: IrType, w1: Word, w2: Word, x1: int, x2: int)
    requires t.Agrees(w1, x1) && t.Agrees(w2, x2)
    ensures t.Agrees(ToWord(w1 + w2), t.Wrap(x1 + x2)) && t.Agrees(ToWord(w1 - w2), t.Wrap(x1 - x2))
  {
    hide IrTypes.IrType.Wrap, IrTypes.IrType.Modulus, ToWord;
    WordAgrees(t, w1 + w2);
    WordAgrees(t, w1 - w2);
    CongruentAdd(w1, x1, w2, x2, t.Modulus());
  }

  lemma MulAgrees(t: IrType, w1: Word, w2: Word, x1: int, x2: int)
    requires t.Agrees(w1, x1) && t.Agrees(w2, x2)
    ensures t.Agrees(ToWord(w1 * w2), t.Wrap(x1 * x2))
  {
    hide IrTypes.IrType.Wrap, IrTypes.IrType.Modulus, ToWord;
    WordAgrees(t, w1 * w2);
    CongruentMul(w1, x1, w2, x2, t.Modulus());
  }

  lemma BitsAgree(op: BitOp, t: IrType, w1: Word, w2: Word, x1: int, x2: int)
    requires t.Agrees(w1, x1) && t.Agrees(w2, x2)
    ensures t.Agrees(Bitwise(op, w1, w2), BitsOf(op, t, x1, x2))
  {
    hide Bitwise, Pow2, IrTypes.IrType.Wrap, IrTypes.IrType.Modulus, IrTypes.IrType.Size;
    ModulusIsPower(t);
    var k, m := 8 * t.Size(), t.Modulus();
    BitwiseLow(op, w1, w2, k);
    BitwiseLow(op, x1 % m, x2 % m, k);
    DivModUnique(x1 % m, m, 0, x1 % m);
    DivModUnique(x2 % m, m, 0, x2 % m);
  }

  /** Shift amounts agree in the five bits that count. */
  lemma LowFiveBits(t: IrType, w: Word, x: int)
    requires t.Agrees(w, x)
    ensures w % 32 == x % 32
  {
    hide IrTypes.IrType.Wrap;
    ModMod(w, 32, t.Modulus() / 32);
    ModMod(x, 32, t.Modulus() / 32);
  }

  lemma ShlAgrees(t: IrType, t2: IrType, w1: Word, w2: Word, x1: int, x2: int)
    requires t.Agrees(w1, x1) && t2.Agrees(w2, x2)
    ensures t.Agrees(AluResult(SLL, w1, w2), ShiftedLeft(t, x1, x2))
  {
    hide Pow2, IrTypes.IrType.Wrap, IrTypes.IrType.Modulus, ToWord;
    LowFiveBits(t2, w2, x2);
    var p := Pow2(x2 % 32);
    WordAgrees(t, w1 * p);
    CongruentMul(w1, x1, p, p, t.Modulus());
  }

  lemma ShiftRightIs(a: Word, b: Word)
    ensures AluResult(SRA, a, b) == ToWord(Signed(a) / Pow2(b % 32)) && AluResult(SRL, a, b) == a / Pow2(b % 32)
  {
  }

  lemma ShrAgrees(t: IrType, t2: IrType, w2: Word, x1: int, x2: int)
    requires t.InRange(x1) && t2.Agrees(w2, x2)
    ensures t.Agrees(AluResult(if t.IsSigned() then SRA else SRL, ToWord(x1), w2), ShiftedRight(t, x1, x2))
  {
    hide Pow2, IrTypes.IrType.Wrap, IrTypes.IrType.Modulus, IrTypes.IrType.InRange, ToWord, Signed, AluResult;
    CanonicalOfWord(t, x1);
    ShiftRightIs(ToWord(x1), w2);
    LowFiveBits(t2, w2, x2);
    WordAgrees(t, x1 / Pow2(x2 % 32));
  }

  lemma CanonicalOfWord(t: IrType, x: int)
    requires t.InRange(x)
    ensures t.IsSigned() ==> Signed(ToWord(x)) == x
    ensures !t.IsSigned() ==> ToWord(x) == x >= 0
    ensures ToWord(x) == 0 <==> x == 0
    ensures forall y :: t.InRange(y) && ToWord(y) == ToWord(x) ==> y == x
  {
    hide IrTypes.IrType.Wrap;
  }

  lemma DivIs(a: Word, b: Word)
    ensures AluResult(DIVU, a, b) == if b == 0 then 0xFFFF_FFFF else a / b
    ensures AluResult(DIV, a, b) ==
            if b == 0 then 0xFFFF_FFFF else ToWord(TruncatedQuotient(Signed(a), Signed(b)))
  {
    hide TruncatedQuotient;
    OverflowQuotient(a, b);
  }

  lemma RemIs(a: Word, b: Word)
    ensures AluResult(REMU, a, b) == if b == 0 then a else a % b
    ensures AluResult(REM, a, b) ==
            if b == 0 then a
            else ToWord(Signed(a) - Signed(b) * TruncatedQuotient(Signed(a), Signed(b)))
  {
    hide TruncatedQuotient;
    OverflowQuotient(a, b);
  }

  lemma DivAgrees(t: IrType, x1: int, x2: int)
    requires t.InRange(x1) && t.InRange(x2)
    ensures t.Agrees(AluResult(if t.IsSigned() then DIV else DIVU, ToWord(x1), ToWord(x2)), Quotient(t, x1, x2))
  {
    hide IrTypes.IrType.Wrap, IrTypes.IrType.Modulus, IrTypes.IrType.InRange, AluResult, ToWord, Signed;
    hide TruncatedQuotient;
    CanonicalOfWord(t, x1);
    CanonicalOfWord(t, x2);
    DivIs(ToWord(x1), ToWord(x2));
    AllOnes();
    WordAgrees(t, -1);
    if x2 != 0 {
      WordAgrees(t, TruncatedQuotient(x1, x2));
      if !t.IsSigned() { UnsignedQuotient(x1, x2); }
    }
  }

  lemma AllOnes()
    ensures ToWord(-1) == 0xFFFF_FFFF
  {
  }

  lemma UnsignedQuotient(a: nat, b: nat)
    requires b != 0
    ensures TruncatedQuotient(a, b) == a / b
  {
  }

  /** The one signed division whose quotient does not fit. */
  lemma OverflowQuotient(a: Word, b: Word)
    ensures a == 0x8000_0000 && b == 0xFFFF_FFFF ==>
              ToWord(TruncatedQuotient(Signed(a), Signed(b))) == 0x8000_0000 &&
              Signed(a) - Signed(b) * TruncatedQuotient(Signed(a), Signed(b)) == 0
  {
  }

  lemma RemAgrees(t: IrType, x1: int, x2: int)
    requires t.InRange(x1) && t.InRange(x2)
    ensures t.Agrees(AluResult(if t.IsSigned() then REM else REMU, ToWord(x1), ToWord(x2)), Remainder(t, x1, x2))
  {
    hide IrTypes.IrType.Wrap, IrTypes.IrType.Modulus, IrTypes.IrType.InRange, AluResult, ToWord, Signed;
    hide TruncatedQuotient;
    CanonicalOfWord(t, x1);
    CanonicalOfWord(t, x2);
    RemIs(ToWord(x1), ToWord(x2));
    WordAgrees(t, x1);
    if x2 != 0 {
      WordAgrees(t, x1 - x2 * TruncatedQuotient(x1, x2));
      if !t.IsSigned() { UnsignedRemainder(x1, x2); }
    }
  }

  lemma UnsignedRemainder(a: nat, b: nat)
    requires b != 0
    ensures a - b * TruncatedQuotient(a, b) == a % b
  {
    DivMod(a, b);
  }

  lemma FlipLowBit(b: bool)
    ensures ImmResult(XORI, if b then 1 else 0, 1) == if b then 0 else 1
  {
    hide Bitwise;
    XorComplement(if b then 1 else 0, 1);
    assert Pow2(1) == 2;
  }

  lemma SetLessIs(a: Word, b: Word)
    ensures AluResult(SLT, a, b) == if Signed(a) < Signed(b) then 1 else 0
    ensures AluResult(SLTU, a, b) == if a < b then 1 else 0
    ensures AluResult(XOR, a, b) == XorWord(a, b)
  {
  }

  lemma CompareResult(op: Op, t: IrType, x1: int, x2: int)
    requires op.IsCompare() && t.InRange(x1) && t.InRange(x2)
    ensures ResultWord(op, t.IsSigned(), ToWord(x1), ToWord(x2)) == EvalBinaryOp(op, t, x1, x2)
  {
    hide XorWord, ToWord, Signed, IrTypes.IrType.Wrap, IrTypes.IrType.InRange, AluResult, ImmResult;
    var w1, w2 := ToWord(x1), ToWord(x2);
    CanonicalOfWord(t, x1);
    CanonicalOfWord(t, x2);
    SetLessIs(w1, w2);
    SetLessIs(w2, w1);
    SetLessIs(0, XorWord(w1, w2));
    XorWordZeroIff(w1, w2);
    SetBelowOne(XorWord(w1, w2));
    FlipLowBit(true);
    FlipLowBit(false);
  }

  lemma XorWordZeroIff(a: Word, b: Word)
    ensures XorWord(a, b) == 0 <==> a == b
  {
    hide Bitwise;
    XorZeroIff(a, b);
  }

  /** sltiu with 1 tests for zero. */
  lemma SetBelowOne(w: Word)
    ensures ImmResult(SLTIU, w, 1) == if w == 0 then 1 else 0
  {
  }

  lemma SimpleAlu(a: Word, b: Word)
    ensures AluResult(ADD, a, b) == ToWord(a + b) && AluResult(SUB, a, b) == ToWord(a - b)
    ensures AluResult(MUL, a, b) == ToWord(a * b)
    ensures AluResult(AND, a, b) == Bitwise(And, a, b) && AluResult(OR, a, b) == Bitwise(Or, a, b)
    ensures AluResult(XOR, a, b) == Bitwise(Xor, a, b)
  {
    hide Bitwise;
  }

  /** Junk bits are harmless: operations that only truncated registers can serve get truncated registers,
      and all others depend only on the low bits. The result agrees with the value of the operation. */
  lemma ResultAgrees(op: Op, t: IrType, t2: IrType, dt: IrType, w1: Word, w2: Word, x1: int, x2: int)
    requires op.IsBinary() && t.InRange(x1) && t2.InRange(x2)
    requires if op.IsCompare() then t2 == t && dt == BOOL
             else if op.BitShl? || op.BitShr? then dt == t
             else t2 == t && dt == t
    requires if TruncatesFirst(op) then w1 == ToWord(x1) else t.Agrees(w1, x1)
    requires if TruncatesSecond(op) then w2 == ToWord(x2) else t2.Agrees(w2, x2)
    ensures dt.Agrees(ResultWord(op, t.IsSigned(), w1, w2), EvalBinaryOp(op, t, x1, x2))
  {
    hide AluResult, ImmResult, Bitwise, ToWord, IrTypes.IrType.Wrap, IrTypes.IrType.InRange, ShiftedLeft;
    hide ShiftedRight, Quotient, Remainder, BitsOf;
    SimpleAlu(w1, w2);
    match op
    case Add => AddAgrees(t, w1, w2, x1, x2);
    case Sub => AddAgrees(t, w1, w2, x1, x2);
    case Mul => MulAgrees(t, w1, w2, x1, x2);
    case Div => DivAgrees(t, x1, x2);
    case Rem => RemAgrees(t, x1, x2);
    case BitAnd => BitsAgree(And, t, w1, w2, x1, x2);
    case BitOr => BitsAgree(Or, t, w1, w2, x1, x2);
    case BitXor => BitsAgree(Xor, t, w1, w2, x1, x2);
    case BitShl => ShlAgrees(t, t2, w1, w2, x1, x2);
    case BitShr => ShrAgrees(t, t2, w2, x1, x2);
    case _ => CompareResult(op, t, x1, x2);
  }

  /** The compensated immediate, split over lui and addi, or in an addi alone, is the immediate again. */
  lemma CompensationExact(imm: Word)
    ensures ToWord(Upper(Compensated(imm)) + SignExtend12(Compensated(imm))) == imm
    ensures Compensated(imm) <= I_TYPE_IMMEDIATE_MAX_SIZE ==> ToWord(SignExtend12(Compensated(imm))) == imm
  {
    hide SignExtend12, Upper, AndWord, ToWord;
    assert ToWord(imm) == imm by { WordIsWord(imm); }
    BitElevenSet(imm);
    SplitImmediateParts(imm);
    SplitImmediateParts(ToWord(imm + 0x1000));
    WrapAround(imm);
  }

  lemma WordIsWord(w: Word)
    ensures ToWord(w) == w
  {
  }

  lemma WrapAround(imm: Word)
    ensures var c := ToWord(imm + 0x1000);
            c % 0x1000 == imm % 0x1000 && ToWord(c - 0x1000) == imm && (c < 0x1000 ==> c % 0x1000 == c)
  {
  }

  lemma SplitImmediateParts(w: Word)
    ensures Upper(w) == w - w % 0x1000
    ensures SignExtend12(w) == if w % 0x1000 < 0x800 then w % 0x1000 else w % 0x1000 - 0x1000
  {
  }

  lemma BitElevenSet(imm: Word)
    ensures AndWord(imm, 0x800) != 0 <==> imm % 0x1000 >= 0x800
  {
    hide Bitwise, Pow2;
    Pow2Values();
    AndBit(imm, 11);
    var q := imm / 0x800;
    assert imm == 0x800 * q + imm % 0x800 && q == 2 * (q / 2) + q % 2;
    DivModUnique(imm, 0x1000, q / 2, 0x800 * (q % 2) + imm % 0x800);
  }

  /** The flip mask has exactly the bits of the type, as an immediate and as a register. */
  lemma FlipMaskExact(t: IrType)
    ensures FlipMask(t) > I_TYPE_IMMEDIATE_MAX_SIZE <==> t.Size() == 2
    ensures ToWord(Upper(FlipMask(t)) + SignExtend12(FlipMask(t))) == t.Modulus() - 1
    ensures FlipMask(t) <= I_TYPE_IMMEDIATE_MAX_SIZE ==> ToWord(SignExtend12(FlipMask(t))) == t.Modulus() - 1
  {
    hide LowerBitmask, Pow2, AndWord, Upper, SignExtend12;
    MaskIsModulus(t);
    CompensationExact(t.Modulus() - 1);
    BitElevenSet(t.Modulus() - 1);
  }

  lemma MaskIsModulus(t: IrType)
    ensures LowerBitmask(8 * t.Size()) == t.Modulus() - 1
  {
    hide Pow2;
    ModulusIsPower(t);
  }

  lemma ComplementAgrees(t: IrType, w: Word, x: int)
    requires t.Agrees(w, x)
    ensures t.Agrees(XorWord(w, t.Modulus() - 1), t.Wrap(-x - 1))
    ensures t.Agrees(XorWord(t.Modulus() - 1, w), t.Wrap(-x - 1))
  {
    var k, m := 8 * t.Size(), t.Modulus();
    hide Bitwise, Pow2, IrTypes.IrType.Wrap, IrTypes.IrType.Modulus, IrTypes.IrType.Size;
    ModulusIsPower(t);
    BitwiseLow(Xor, w, m - 1, k);
    BitwiseLow(Xor, m - 1, w, k);
    XorComplement(w % m, k);
    DivModUnique(m - 1, m, 0, m - 1);
    CongruentAdd(-1, m - 1, w, w % m, m) by {
      ModAdd(-1, 1, m);
      DivModUnique(w % m, m, 0, w % m);
    }
    DivModUnique(m - 1 - w % m, m, 0, m - 1 - w % m);
    CongruentAdd(-1, -1, w, x, m);
  }

  lemma NegAgrees(t: IrType, w: Word, x: int)
    requires t.Agrees(w, x)
    ensures t.Agrees(AluResult(SUB, 0, w), t.Wrap(-x))
  {
    AddAgrees(t, 0, w, 0, x);
  }

  /** What is left of a word when it is cut down to a type: its low 8, 16 or 32 bits, sign- or zero-extended. */
  function Cut(t: IrType, w: Word): Word {
    match t
    case BOOL | U8 => w % 256
    case U16 => w % 65536
    case U32 | I32 => w
    case I8 => if w % 256 < 128 then w % 256 else w % 256 + 0xFFFF_FF00
    case I16 => if w % 65536 < 32768 then w % 65536 else w % 65536 + 0xFFFF_0000
  }

  lemma CanonicalCut(t: IrType, w: Word)
    ensures Canonical(t, w) == Cut(t, w)
  {
  }

  /** Loading the low bytes of a word with the width and the sign of a type cuts it down to that type. */
  lemma LoadedCut(t: IrType, w: Word)
    ensures Loaded(w, WidthOf(t), t.IsSigned()) == Cut(t, w)
  {
  }

  /** Shifting left and back cuts a word down to its type, which leaves the canonical word; truncation is
      idempotent and keeps the low bits. */
  lemma TruncateExact(t: IrType, w: Word)
    ensures var s := (32 - 8) * t.Size();
            && ShiftResult(if t.IsSigned() then SRAI else SRLI, ShiftResult(SLLI, w, s), s) == Cut(t, w)
            && Canonical(t, w) == Cut(t, w)
    ensures Canonical(t, Canonical(t, w)) == Canonical(t, w) && t.Agrees(Canonical(t, w), w)
  {
    hide ShiftResult, Canonical, ToWord, IrTypes.IrType.Wrap, Cut;
    CanonicalIs(t, w);
    CanonicalCut(t, w);
    if t.Size() == 1 {
      ShiftBackMasked(w, 24, 24, 0x100, 0x100_0000);
    } else if t.Size() == 2 {
      ShiftBackMasked(w, 48, 16, 0x1_0000, 0x1_0000);
    } else {
      ShiftBackMasked(w, 96, 0, 0x1_0000_0000, 1);
    }
  }

  /** The 48 of a 16-bit truncation is a 16, the 96 of a 32-bit one a 0. */
  lemma ShiftBackMasked(w: Word, s: nat, k: nat, m: nat, p: nat)
    requires s % 32 == k
    requires (k == 24 && m == 0x100 && p == 0x100_0000) || (k == 16 && m == 0x1_0000 && p == 0x1_0000)
          || (k == 0 && m == 0x1_0000_0000 && p == 1)
    ensures ShiftResult(SRLI, ShiftResult(SLLI, w, s), s) == ToWord(w % m)
    ensures ShiftResult(SRAI, ShiftResult(SLLI, w, s), s) == ToWord(if w % m >= m / 2 then w % m - m else w % m)
  {
    hide ShiftResult, ToWord;
    ShiftAmountMasked(w, s);
    ShiftAmountMasked(ShiftResult(SLLI, w, s), s);
    ShiftBack(w, k, m, p);
    WordIsWord(w % m);
  }

  lemma CanonicalIs(t: IrType, w: Word)
    ensures Canonical(t, w) == ToWord(if t.IsSigned() && w % t.Modulus() >= t.Modulus() / 2
                                      then w % t.Modulus() - t.Modulus() else w % t.Modulus())
    ensures Canonical(t, Canonical(t, w)) == Canonical(t, w) && t.Agrees(Canonical(t, w), w)
  {
    WordAgrees(t, t.Wrap(w));
    CanonicalOf(t, ToWord(t.Wrap(w)), t.Wrap(w));
  }

  lemma ShiftAmountMasked(w: Word, s: nat)
    ensures forall op :: ShiftResult(op, w, s) == ShiftResult(op, w, s % 32)
  {
  }

  lemma ShiftBack(w: Word, s: nat, m: nat, p: nat)
    requires (s == 24 && m == 0x100 && p == 0x100_0000) || (s == 16 && m == 0x1_0000 && p == 0x1_0000)
          || (s == 0 && m == 0x1_0000_0000 && p == 1)
    ensures ShiftResult(SLLI, w, s) == p * (w % m)
    ensures ShiftResult(SRLI, p * (w % m), s) == w % m
    ensures ShiftResult(SRAI, p * (w % m), s) == ToWord(if w % m >= m / 2 then w % m - m else w % m)
  {
    hide Pow2;
    Pow2Values();
    Pow2Zero();
    var q, r := w / m, w % m;
    assert w * p == 0x1_0000_0000 * q + p * r;
    DivModUnique(w * p, 0x1_0000_0000, q, p * r);
    DivModUnique(p * r, p, r, 0);
    if r >= m / 2 { DivModUnique(p * r - 0x1_0000_0000, p, r - m, 0); }
  }

  lemma Pow2Zero()
    ensures Pow2(0) == 1
  {
  }
}
