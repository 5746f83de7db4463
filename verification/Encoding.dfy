/** Instruction words: the encoder of the code generator, the decoder of the machine, and the machine
    that runs encoded text. */
module Encoding {
  import opened Words
  import opened Results
  import opened Riscv

  // ---- the encoder -------------------------------------------------------------------------

  function EncodeRType(opcode: Word, rd: Reg, funct3: Word, rs1: Reg, rs2: Reg, funct7: Word): Word {
    var i0 := AndWord(opcode, LowerBitmask(7));
    var i1 := OrWord(i0, ShiftLeft(AndWord(rd, LowerBitmask(5)), 7));
    var i2 := OrWord(i1, ShiftLeft(AndWord(funct3, LowerBitmask(3)), 12));
    var i3 := OrWord(i2, ShiftLeft(AndWord(rs1, LowerBitmask(5)), 15));
    var i4 := OrWord(i3, ShiftLeft(AndWord(rs2, LowerBitmask(5)), 20));
    OrWord(i4, ShiftLeft(AndWord(funct7, LowerBitmask(7)), 25))
  }

  function EncodeIType(opcode: Word, rd: Reg, funct3: Word, rs1: Reg, imm: Word): Word {
    var i0 := AndWord(opcode, LowerBitmask(7));
    var i1 := OrWord(i0, ShiftLeft(AndWord(rd, LowerBitmask(5)), 7));
    var i2 := OrWord(i1, ShiftLeft(AndWord(funct3, LowerBitmask(3)), 12));
    var i3 := OrWord(i2, ShiftLeft(AndWord(rs1, LowerBitmask(5)), 15));
    OrWord(i3, ShiftLeft(AndWord(imm, LowerBitmask(12)), 20))
  }

  function EncodeSType(opcode: Word, funct3: Word, rs1: Reg, rs2: Reg, imm: Word): Word {
    var low := AndWord(imm, LowerBitmask(5));
    var high := AndWord(ShiftRight(imm, 5), LowerBitmask(7));
    var i0 := AndWord(opcode, LowerBitmask(7));
    var i1 := OrWord(i0, ShiftLeft(low, 7));
    var i2 := OrWord(i1, ShiftLeft(AndWord(funct3, LowerBitmask(3)), 12));
    var i3 := OrWord(i2, ShiftLeft(AndWord(rs1, LowerBitmask(5)), 15));
    var i4 := OrWord(i3, ShiftLeft(AndWord(rs2, LowerBitmask(5)), 20));
    OrWord(i4, ShiftLeft(high, 25))
  }

  /** Puts the four scrambled parts of a jump offset into a word. */
  function OrJumpOffset(word: Word, imm: Word): Word {
    var imm10To1 := AndWord(ShiftRight(imm, 1), LowerBitmask(10));
    var imm11 := AndWord(ShiftRight(imm, 11), 1);
    var imm19To12 := AndWord(ShiftRight(imm, 12), LowerBitmask(8));
    var imm20 := AndWord(ShiftRight(imm, 20), 1);
    var i1 := OrWord(word, ShiftLeft(imm19To12, 12));
    var i2 := OrWord(i1, ShiftLeft(imm11, 20));
    var i3 := OrWord(i2, ShiftLeft(imm10To1, 21));
    OrWord(i3, ShiftLeft(imm20, 31))
  }

  function EncodeJType(opcode: Word, rd: Reg, imm: Word): Word {
    var i0 := AndWord(opcode, LowerBitmask(7));
    OrJumpOffset(OrWord(i0, ShiftLeft(AndWord(rd, LowerBitmask(5)), 7)), imm)
  }

  function EncodeUType(opcode: Word, rd: Reg, imm: Word): Word {
    var i0 := AndWord(opcode, LowerBitmask(7));
    var i1 := OrWord(i0, ShiftLeft(AndWord(rd, LowerBitmask(5)), 7));
    OrWord(i1, AndWord(imm, NotWord(LowerBitmask(12))))
  }

  /** funct3 and funct7 of a register-register operation. */
  function AluFunct(op: AluOp): (Word, Word) {
    match op
    case ADD => (0, 0)
    case SUB => (0, 0x20)
    case XOR => (4, 0)
    case OR => (6, 0)
    case AND => (7, 0)
    case SLL => (1, 0)
    case SRL => (5, 0)
    case SRA => (5, 0x20)
    case SLT => (2, 0)
    case SLTU => (3, 0)
    case MUL => (0, 1)
    case DIV => (4, 1)
    case DIVU => (5, 1)
    case REM => (6, 1)
    case REMU => (7, 1)
  }

  function LoadFunct(width: Width, signed: bool): Word {
    match width
    case Byte1 => if signed then 0 else 4
    case Half => if signed then 1 else 5
    case Full => 2
  }

  function StoreFunct(width: Width): Word {
    match width
    case Byte1 => 0
    case Half => 1
    case Full => 2
  }

  /** The word that the write_ function of the instruction pushes. */
  function Encode(i: Instr): Word {
    match i
    case Alu(op, rd, rs1, rs2) => EncodeRType(0x33, rd, AluFunct(op).0, rs1, rs2, AluFunct(op).1)
    case AluImm(ADDI, rd, rs1, imm) => EncodeIType(0x13, rd, 0, rs1, ToWord(imm))
    case AluImm(XORI, rd, rs1, imm) => EncodeIType(0x13, rd, 4, rs1, ToWord(imm))
    case AluImm(SLTIU, rd, rs1, imm) => EncodeIType(0x13, rd, 3, rs1, ToWord(imm))
    case Shift(SLLI, rd, rs1, imm) => EncodeIType(0x13, rd, 1, rs1, AndWord(ToWord(imm), LowerBitmask(5)))
    case Shift(SRLI, rd, rs1, imm) => EncodeIType(0x13, rd, 5, rs1, AndWord(ToWord(imm), LowerBitmask(5)))
    case Shift(SRAI, rd, rs1, imm) =>
      EncodeIType(0x13, rd, 5, rs1, OrWord(AndWord(ToWord(imm), LowerBitmask(5)), 0x400))
    case LoadMem(width, signed, rd, rs1, imm) => EncodeIType(0x03, rd, LoadFunct(width, signed), rs1, ToWord(imm))
    case StoreMem(width, rs1, rs2, imm) => EncodeSType(0x23, StoreFunct(width), rs1, rs2, ToWord(imm))
    case Lui(rd, imm) => EncodeUType(0x37, rd, ToWord(imm))
    case Auipc(rd, imm) => EncodeUType(0x17, rd, ToWord(imm))
    case Jal(rd, imm) => EncodeJType(0x6F, rd, ToWord(imm))
    case Jalr(rd, rs1, imm) => EncodeIType(0x67, rd, 0, rs1, ToWord(imm))
    case Ecall => EncodeIType(0x73, ZERO, 0, ZERO, 0)
  }

  // ---- the decoder -------------------------------------------------------------------------

  /** The fields of an instruction word. */
  datatype Fields = Fields(opcode: nat, rd: Reg, funct3: nat, rs1: Reg, rs2: Reg, funct7: nat)

  function FieldsOf(w: Word): Fields {
    Fields(w % 0x80, (w / 0x80) % 32, (w / 0x1000) % 8, (w / 0x8000) % 32, (w / 0x10_0000) % 32, w / 0x200_0000)
  }

  function DecodeAlu(funct3: nat, funct7: nat): Option<AluOp> {
    match (funct7, funct3)
    case (0, 0) => Some(ADD)
    case (0, 1) => Some(SLL)
    case (0, 2) => Some(SLT)
    case (0, 3) => Some(SLTU)
    case (0, 4) => Some(XOR)
    case (0, 5) => Some(SRL)
    case (0, 6) => Some(OR)
    case (0, 7) => Some(AND)
    case (0x20, 0) => Some(SUB)
    case (0x20, 5) => Some(SRA)
    case (1, 0) => Some(MUL)
    case (1, 4) => Some(DIV)
    case (1, 5) => Some(DIVU)
    case (1, 6) => Some(REM)
    case (1, 7) => Some(REMU)
    case _ => None
  }

  /** The jump offset of a word, reassembled from its scattered bits. */
  function ImmJ(w: Word): int {
    var m := 0x800 * ((w / 0x10_0000) % 2) + 2 * ((w / 0x20_0000) % 0x400) + 0x1000 * ((w / 0x1000) % 0x100);
    if w / 0x8000_0000 == 0 then m else m - 0x10_0000
  }

  function DecodeImmediateOp(f: Fields, imm: int): Option<Instr> {
    if f.funct3 == 0 then Some(AluImm(ADDI, f.rd, f.rs1, imm))
    else if f.funct3 == 3 then Some(AluImm(SLTIU, f.rd, f.rs1, imm))
    else if f.funct3 == 4 then Some(AluImm(XORI, f.rd, f.rs1, imm))
    else if f.funct3 == 1 && f.funct7 == 0 then Some(Shift(SLLI, f.rd, f.rs1, f.rs2))
    else if f.funct3 == 5 && f.funct7 == 0 then Some(Shift(SRLI, f.rd, f.rs1, f.rs2))
    else if f.funct3 == 5 && f.funct7 == 0x20 then Some(Shift(SRAI, f.rd, f.rs1, f.rs2))
    else None
  }

  function DecodeLoad(f: Fields, imm: int): Option<Instr> {
    if f.funct3 == 0 then Some(LoadMem(Byte1, true, f.rd, f.rs1, imm))
    else if f.funct3 == 1 then Some(LoadMem(Half, true, f.rd, f.rs1, imm))
    else if f.funct3 == 2 then Some(LoadMem(Full, true, f.rd, f.rs1, imm))
    else if f.funct3 == 4 then Some(LoadMem(Byte1, false, f.rd, f.rs1, imm))
    else if f.funct3 == 5 then Some(LoadMem(Half, false, f.rd, f.rs1, imm))
    else None
  }

  function DecodeStore(f: Fields): Option<Instr> {
    var imm := SignExtend12(0x20 * f.funct7 + f.rd);
    if f.funct3 == 0 then Some(StoreMem(Byte1, f.rs1, f.rs2, imm))
    else if f.funct3 == 1 then Some(StoreMem(Half, f.rs1, f.rs2, imm))
    else if f.funct3 == 2 then Some(StoreMem(Full, f.rs1, f.rs2, imm))
    else None
  }

  function DecodeRegisterOp(f: Fields): Option<Instr> {
    var op := DecodeAlu(f.funct3, f.funct7);
    if op.Some? then Some(Alu(op.value, f.rd, f.rs1, f.rs2)) else None
  }

  function Decode(w: Word): Option<Instr> {
    var f := FieldsOf(w);
    var immI := SignExtend12(w / 0x10_0000);
    match f.opcode
    case 0x33 => DecodeRegisterOp(f)
    case 0x13 => DecodeImmediateOp(f, immI)
    case 0x03 => DecodeLoad(f, immI)
    case 0x23 => DecodeStore(f)
    case 0x37 => Some(Lui(f.rd, w - w % 4096))
    case 0x17 => Some(Auipc(f.rd, w - w % 4096))
    case 0x6F => Some(Jal(f.rd, ImmJ(w)))
    case 0x67 => if f.funct3 == 0 then Some(Jalr(f.rd, f.rs1, immI)) else None
    case 0x73 => if w == 0x73 then Some(Ecall) else None
    case _ => None
  }

  /** An instruction with its immediate as the machine reads it. A load of a full word has no sign. */
  function Normal(i: Instr): Instr {
    match i
    case AluImm(op, rd, rs1, imm) => AluImm(op, rd, rs1, SignExtend12(imm))
    case Shift(op, rd, rs1, imm) => Shift(op, rd, rs1, imm % 32)
    case LoadMem(width, signed, rd, rs1, imm) => LoadMem(width, signed || width.Full?, rd, rs1, SignExtend12(imm))
    case StoreMem(width, rs1, rs2, imm) => StoreMem(width, rs1, rs2, SignExtend12(imm))
    case Lui(rd, imm) => Lui(rd, Upper(imm))
    case Auipc(rd, imm) => Auipc(rd, Upper(imm))
    case Jal(rd, imm) => Jal(rd, JumpOffset(imm))
    case Jalr(rd, rs1, imm) => Jalr(rd, rs1, SignExtend12(imm))
    case _ => i
  }

  // ---- round trip --------------------------------------------------------------------------

  /** Adding a masked field above the bits that are already there. */
  lemma OrField(word: Word, field: Word, width: nat, low: nat)
    requires word < Pow2(low) && low + width <= 32 && 0 < width < 32
    ensures OrWord(word, ShiftLeft(AndWord(field, LowerBitmask(width)), low)) ==
            word + Pow2(low) * (field % Pow2(width))
    ensures word + Pow2(low) * (field % Pow2(width)) < Pow2(low + width)
  {
    hide Bitwise, Pow2;
    var p, f := Pow2(low), field % Pow2(width);
    AndMask(field, width);
    Pow2Add(low, width);
    FieldFits(word, p, f, Pow2(width));
    Pow2Monotone(low + width, 32);
    Pow2Values();
    assert ShiftLeft(f, low) == p * f;
    ModAdd(0, f, p);
    OrDisjoint(word, p * f, low);
  }

  lemma FieldFits(word: nat, p: nat, f: nat, q: nat)
    requires word < p && f < q
    ensures 0 <= p * f && word + p * f < p * q
  {
    MulMinus(p, q, f);
    MulAtLeast(p, q - f);
  }

  lemma MaskOpcode(opcode: Word)
    requires opcode < 0x80
    ensures AndWord(opcode, LowerBitmask(7)) == opcode
  {
    hide Bitwise, Pow2;
    AndMask(opcode, 7);
    Pow2Values();
  }

  lemma RTypeValue(opcode: Word, rd: Reg, funct3: Word, rs1: Reg, rs2: Reg, funct7: Word)
    requires opcode < 0x80 && funct3 < 8 && funct7 < 0x80
    ensures EncodeRType(opcode, rd, funct3, rs1, rs2, funct7) ==
            opcode + 0x80 * rd + 0x1000 * funct3 + 0x8000 * rs1 + 0x10_0000 * rs2 + 0x200_0000 * funct7
  {
    hide OrWord, AndWord, ShiftLeft, LowerBitmask, Pow2;
    Pow2Values();
    Pow2Small();
    MaskOpcode(opcode);
    var w := opcode;
    OrField(w, rd, 5, 7);
    w := w + 0x80 * rd;
    OrField(w, funct3, 3, 12);
    w := w + 0x1000 * funct3;
    OrField(w, rs1, 5, 15);
    w := w + 0x8000 * rs1;
    OrField(w, rs2, 5, 20);
    w := w + 0x10_0000 * rs2;
    OrField(w, funct7, 7, 25);
  }

  lemma Pow2Small()
    ensures Pow2(1) == 2 && Pow2(3) == 8
  {
  }

  lemma ITypeValue(opcode: Word, rd: Reg, funct3: Word, rs1: Reg, imm: Word)
    requires opcode < 0x80 && funct3 < 8
    ensures EncodeIType(opcode, rd, funct3, rs1, imm) ==
            opcode + 0x80 * rd + 0x1000 * funct3 + 0x8000 * rs1 + 0x10_0000 * (imm % 4096)
  {
    hide OrWord, AndWord, ShiftLeft, LowerBitmask, Pow2;
    Pow2Values();
    Pow2Small();
    MaskOpcode(opcode);
    var w := opcode;
    OrField(w, rd, 5, 7);
    w := w + 0x80 * rd;
    OrField(w, funct3, 3, 12);
    w := w + 0x1000 * funct3;
    OrField(w, rs1, 5, 15);
    w := w + 0x8000 * rs1;
    OrField(w, imm, 12, 20);
  }

  lemma STypeValue(opcode: Word, funct3: Word, rs1: Reg, rs2: Reg, imm: Word)
    requires opcode < 0x80 && funct3 < 8
    ensures EncodeSType(opcode, funct3, rs1, rs2, imm) ==
            opcode + 0x80 * (imm % 32) + 0x1000 * funct3 + 0x8000 * rs1 + 0x10_0000 * rs2
            + 0x200_0000 * ((imm / 32) % 0x80)
  {
    hide OrWord, AndWord, ShiftLeft, LowerBitmask, Pow2;
    Pow2Values();
    Pow2Small();
    MaskOpcode(opcode);
    var w := opcode;
    OrField(w, imm, 5, 7);
    w := w + 0x80 * (imm % 32);
    OrField(w, funct3, 3, 12);
    w := w + 0x1000 * funct3;
    OrField(w, rs1, 5, 15);
    w := w + 0x8000 * rs1;
    OrField(w, rs2, 5, 20);
    w := w + 0x10_0000 * rs2;
    assert ShiftRight(imm, 5) == imm / 32;
    OrField(w, imm / 32, 7, 25);
  }

  lemma JumpValue(word: Word, imm: Word)
    requires word < 0x1000
    ensures OrJumpOffset(word, imm) ==
            word + 0x1000 * ((imm / 0x1000) % 0x100) + 0x10_0000 * ((imm / 0x800) % 2)
            + 0x20_0000 * ((imm / 2) % 0x400) + 0x8000_0000 * ((imm / 0x10_0000) % 2)
  {
    Pow2Small();
    assert LowerBitmask(1) == 1;
    hide OrWord, AndWord, ShiftLeft, LowerBitmask, Pow2;
    Pow2Values();
    assert ShiftRight(imm, 1) == imm / 2 && ShiftRight(imm, 11) == imm / 0x800;
    assert ShiftRight(imm, 12) == imm / 0x1000 && ShiftRight(imm, 20) == imm / 0x10_0000;
    var w := word;
    OrField(w, imm / 0x1000, 8, 12);
    w := w + 0x1000 * ((imm / 0x1000) % 0x100);
    OrField(w, imm / 0x800, 1, 20);
    w := w + 0x10_0000 * ((imm / 0x800) % 2);
    OrField(w, imm / 2, 10, 21);
    w := w + 0x20_0000 * ((imm / 2) % 0x400);
    OrField(w, imm / 0x10_0000, 1, 31);
  }

  lemma JTypePrefix(opcode: Word, rd: Reg)
    requires opcode < 0x80
    ensures OrWord(AndWord(opcode, LowerBitmask(7)), ShiftLeft(AndWord(rd, LowerBitmask(5)), 7)) == opcode + 0x80 * rd
  {
    hide OrWord, AndWord, ShiftLeft, LowerBitmask, Pow2;
    Pow2Values();
    MaskOpcode(opcode);
    OrField(opcode, rd, 5, 7);
  }

  lemma UTypeValue(opcode: Word, rd: Reg, imm: Word)
    requires opcode < 0x80
    ensures EncodeUType(opcode, rd, imm) == opcode + 0x80 * rd + (imm - imm % 4096)
  {
    hide Bitwise, Pow2;
    Pow2Values();
    JTypePrefix(opcode, rd);
    AndHighMask(imm, 12, 32);
    assert NotWord(LowerBitmask(12)) == 0x1_0000_0000 - 0x1000;
    OrDisjoint(opcode + 0x80 * rd, imm - imm % 4096, 12);
  }

  /** Reading one more digit of a mixed-radix number. */
  lemma Digit(w: nat, p: nat, m: nat, digit: nat, rest: nat)
    requires p > 0 && digit < m && w / p == digit + m * rest
    ensures (w / p) % m == digit && p * m > 0 && w / (p * m) == rest
  {
    DivModUnique(w / p, m, rest, digit);
    DivDiv(w, p, m);
  }

  /** The fields of a word assembled from fields. */
  lemma FieldsOfSum(opcode: nat, rd: Reg, funct3: nat, rs1: Reg, rs2: Reg, funct7: nat)
    requires opcode < 0x80 && funct3 < 8 && funct7 < 0x80
    ensures var w := opcode + 0x80 * rd + 0x1000 * funct3 + 0x8000 * rs1 + 0x10_0000 * rs2 + 0x200_0000 * funct7;
            w < 0x1_0000_0000 && FieldsOf(w) == Fields(opcode, rd, funct3, rs1, rs2, funct7)
            && w / 0x10_0000 == rs2 + 0x20 * funct7 && w - w % 4096 == w - opcode - 0x80 * rd
  {
    var r4 := rs2 + 0x20 * funct7;
    var r3 := rs1 + 0x20 * r4;
    var r2 := funct3 + 8 * r3;
    var r1 := rd + 0x20 * r2;
    var w := opcode + 0x80 * r1;
    Digit(w, 1, 0x80, opcode, r1);
    Digit(w, 0x80, 0x20, rd, r2);
    Digit(w, 0x1000, 8, funct3, r3);
    Digit(w, 0x8000, 0x20, rs1, r4);
    Digit(w, 0x10_0000, 0x20, rs2, funct7);
    Digit(w, 1, 0x1000, opcode + 0x80 * rd, r2);
  }

  lemma DecodeAluInverse(op: AluOp)
    ensures DecodeAlu(AluFunct(op).0, AluFunct(op).1) == Some(op)
    ensures AluFunct(op).0 < 8 && AluFunct(op).1 < 0x80
  {
  }

  /** What the decoder does for each opcode that the encoder uses. */
  lemma DecodeByOpcode(w: Word)
    ensures FieldsOf(w).opcode == 0x33 ==> Decode(w) == DecodeRegisterOp(FieldsOf(w))
    ensures FieldsOf(w).opcode == 0x13 ==> Decode(w) == DecodeImmediateOp(FieldsOf(w), SignExtend12(w / 0x10_0000))
    ensures FieldsOf(w).opcode == 0x03 ==> Decode(w) == DecodeLoad(FieldsOf(w), SignExtend12(w / 0x10_0000))
    ensures FieldsOf(w).opcode == 0x23 ==> Decode(w) == DecodeStore(FieldsOf(w))
    ensures FieldsOf(w).opcode == 0x6F ==> Decode(w) == Some(Jal(FieldsOf(w).rd, ImmJ(w)))
    ensures FieldsOf(w).opcode == 0x67 && FieldsOf(w).funct3 == 0 ==>
              Decode(w) == Some(Jalr(FieldsOf(w).rd, FieldsOf(w).rs1, SignExtend12(w / 0x10_0000)))
  {
    hide FieldsOf, DecodeRegisterOp, DecodeImmediateOp, DecodeLoad, DecodeStore, ImmJ, SignExtend12;
  }

  lemma DecodeRType(opcode: Word, rd: Reg, funct3: Word, rs1: Reg, rs2: Reg, funct7: Word)
    requires opcode < 0x80 && funct3 < 8 && funct7 < 0x80
    ensures FieldsOf(EncodeRType(opcode, rd, funct3, rs1, rs2, funct7)) == Fields(opcode, rd, funct3, rs1, rs2, funct7)
  {
    hide EncodeRType;
    RTypeValue(opcode, rd, funct3, rs1, rs2, funct7);
    FieldsOfSum(opcode, rd, funct3, rs1, rs2, funct7);
  }

  lemma DecodeSType(opcode: Word, funct3: Word, rs1: Reg, rs2: Reg, imm: Word)
    requires opcode < 0x80 && funct3 < 8
    ensures var f := FieldsOf(EncodeSType(opcode, funct3, rs1, rs2, imm));
            f.opcode == opcode && f.funct3 == funct3 && f.rs1 == rs1 && f.rs2 == rs2 &&
            SignExtend12(0x20 * f.funct7 + f.rd) == SignExtend12(imm % 4096)
  {
    hide EncodeSType, SignExtend12;
    STypeValue(opcode, funct3, rs1, rs2, imm);
    FieldsOfSum(opcode, imm % 32, funct3, rs1, rs2, (imm / 32) % 0x80);
    SplitImmediate(imm);
  }

  lemma DecodeJType(opcode: Word, rd: Reg, imm: Word)
    requires opcode < 0x80
    ensures var w := EncodeJType(opcode, rd, imm);
            FieldsOf(w).opcode == opcode && FieldsOf(w).rd == rd && ImmJ(w) == JumpOffset(imm)
  {
    hide EncodeJType;
    JTypeValue(opcode, rd, imm);
    JumpReassembled(opcode, rd, imm);
  }

  lemma DecodeIType(opcode: Word, rd: Reg, funct3: Word, rs1: Reg, imm: Word)
    requires opcode < 0x80 && funct3 < 8
    ensures var w := EncodeIType(opcode, rd, funct3, rs1, imm);
            FieldsOf(w) == Fields(opcode, rd, funct3, rs1, imm % 32, (imm % 4096) / 32) &&
            w / 0x10_0000 == imm % 4096
  {
    hide EncodeIType;
    ITypeValue(opcode, rd, funct3, rs1, imm);
    FieldsOfSum(opcode, rd, funct3, rs1, imm % 32, (imm % 4096) / 32);
    SplitImmediate(imm);
  }

  lemma SplitImmediate(imm: Word)
    ensures imm % 4096 == imm % 32 + 0x20 * ((imm % 4096) / 32) && (imm % 4096) / 32 == (imm / 32) % 0x80
  {
  }

  lemma ShiftAmount(imm: int)
    ensures AndWord(ToWord(imm), LowerBitmask(5)) == imm % 32
    ensures OrWord(imm % 32, 0x400) == imm % 32 + 0x400
  {
    hide Bitwise, Pow2;
    Pow2Values();
    AndMask(ToWord(imm), 5);
    OrDisjoint(imm % 32, 0x400, 5);
  }

  /** funct3, and the twelve immediate bits, of a shift. */
  function ShiftFields(op: ShiftOp, amount: nat): (Word, Word)
    requires amount < 32
  {
    match op
    case SLLI => (1, amount)
    case SRLI => (5, amount)
    case SRAI => (5, amount + 0x400)
  }

  lemma EncodeShift(i: Instr)
    requires i.Shift?
    ensures var (funct3, imm) := ShiftFields(i.sop, i.imm % 32);
            Encode(i) == EncodeIType(0x13, i.rd, funct3, i.rs1, imm)
    ensures Normal(i) == Shift(i.sop, i.rd, i.rs1, i.imm % 32)
  {
    hide EncodeIType, AndWord, OrWord, ToWord, LowerBitmask;
    ShiftAmount(i.imm);
  }

  lemma DecodeShiftFields(op: ShiftOp, f: Fields, amount: nat, imm: int)
    requires amount < 32 && f.funct3 == ShiftFields(op, amount).0
    requires f.rs2 == ShiftFields(op, amount).1 % 32 && f.funct7 == (ShiftFields(op, amount).1 % 4096) / 32
    ensures DecodeImmediateOp(f, imm) == Some(Shift(op, f.rd, f.rs1, amount))
  {
  }

  lemma DecodeShift(i: Instr)
    requires i.Shift?
    ensures Decode(Encode(i)) == Some(Normal(i))
  {
    hide EncodeIType, FieldsOf, Decode, Encode, Normal, DecodeImmediateOp, SignExtend12, ShiftFields;
    EncodeShift(i);
    var (f, imm) := ShiftFields(i.sop, i.imm % 32);
    assert f < 8 by { ShiftFunct(i.sop, i.imm % 32); }
    DecodeByOpcode(Encode(i));
    DecodeIType(0x13, i.rd, f, i.rs1, imm);
    DecodeShiftFields(i.sop, FieldsOf(Encode(i)), i.imm % 32, SignExtend12(Encode(i) / 0x10_0000));
  }

  lemma ShiftFunct(op: ShiftOp, amount: nat)
    requires amount < 32
    ensures ShiftFields(op, amount).0 < 8
  {
  }

  lemma DecodeStoreFunct(f: Fields, width: Width)
    requires f.funct3 == StoreFunct(width)
    ensures DecodeStore(f) == Some(StoreMem(width, f.rs1, f.rs2, SignExtend12(0x20 * f.funct7 + f.rd)))
  {
  }

  lemma DecodeLoadFunct(f: Fields, width: Width, signed: bool, imm: int)
    requires f.funct3 == LoadFunct(width, signed)
    ensures DecodeLoad(f, imm) == Some(LoadMem(width, signed || width.Full?, f.rd, f.rs1, imm))
  {
  }

  lemma EncodeStore(i: Instr)
    requires i.StoreMem?
    ensures Encode(i) == EncodeSType(0x23, StoreFunct(i.width), i.rs1, i.rs2, ToWord(i.imm)) && StoreFunct(i.width) < 8
    ensures Normal(i) == StoreMem(i.width, i.rs1, i.rs2, SignExtend12(ToWord(i.imm) % 4096))
  {
    hide EncodeSType, SignExtend12, ToWord;
    SignExtend12Word(i.imm);
  }

  lemma DecodeStoreMem(i: Instr)
    requires i.StoreMem?
    ensures Decode(Encode(i)) == Some(Normal(i))
  {
    hide EncodeSType, FieldsOf, Decode, DecodeStore, SignExtend12, ToWord, Encode, StoreFunct, Normal;
    EncodeStore(i);
    DecodeByOpcode(Encode(i));
    DecodeSType(0x23, StoreFunct(i.width), i.rs1, i.rs2, ToWord(i.imm));
    DecodeStoreFunct(FieldsOf(Encode(i)), i.width);
  }

  lemma DecodeUpper(i: Instr)
    requires i.Lui? || i.Auipc?
    ensures Decode(Encode(i)) == Some(Normal(i))
  {
    hide EncodeUType, FieldsOf, DecodeRegisterOp, DecodeImmediateOp, DecodeStore, DecodeLoad;
    var imm, opcode := ToWord(i.imm), if i.Lui? then 0x37 else 0x17;
    UTypeValue(opcode, i.rd, imm);
    FieldsOfSum(opcode, i.rd, (imm / 0x1000) % 8, (imm / 0x8000) % 32, (imm / 0x10_0000) % 32, imm / 0x200_0000);
    SplitUpper(imm);
  }

  lemma SplitUpper(imm: Word)
    ensures imm - imm % 4096 ==
            0x1000 * ((imm / 0x1000) % 8) + 0x8000 * ((imm / 0x8000) % 32) + 0x10_0000 * ((imm / 0x10_0000) % 32)
            + 0x200_0000 * (imm / 0x200_0000)
  {
    var a, b, c, d := imm / 0x1000, imm / 0x8000, imm / 0x10_0000, imm / 0x200_0000;
    DivDiv(imm, 0x1000, 8);
    DivDiv(imm, 0x8000, 32);
    DivDiv(imm, 0x10_0000, 32);
    DivMod(imm, 0x1000);
    DivMod(a, 8);
    DivMod(b, 32);
    DivMod(c, 32);
  }

  lemma DecodeJal(i: Instr)
    requires i.Jal?
    ensures Decode(Encode(i)) == Some(Normal(i))
  {
    hide EncodeJType, FieldsOf, JumpOffset, ImmJ, Decode, ToWord;
    JumpOffsetWord(i.imm);
    DecodeByOpcode(Encode(i));
    DecodeJType(0x6F, i.rd, ToWord(i.imm));
  }

  lemma JumpOffsetWord(imm: int)
    ensures JumpOffset(ToWord(imm)) == JumpOffset(imm)
  {
    ModMod(imm, 0x20_0000, 0x800);
    ModMod(imm, 2, 0x8000_0000);
  }

  lemma JTypeValue(opcode: Word, rd: Reg, imm: Word)
    requires opcode < 0x80
    ensures EncodeJType(opcode, rd, imm) ==
            opcode + 0x80 * rd + 0x1000 * ((imm / 0x1000) % 0x100) + 0x10_0000 * ((imm / 0x800) % 2)
            + 0x20_0000 * ((imm / 2) % 0x400) + 0x8000_0000 * ((imm / 0x10_0000) % 2)
  {
    hide OrJumpOffset;
    JTypePrefix(opcode, rd);
    JumpValue(opcode + 0x80 * rd, imm);
  }

  lemma JumpReassembled(opcode: nat, rd: Reg, imm: Word)
    requires opcode < 0x80
    ensures var w := opcode + 0x80 * rd + 0x1000 * ((imm / 0x1000) % 0x100) + 0x10_0000 * ((imm / 0x800) % 2)
                     + 0x20_0000 * ((imm / 2) % 0x400) + 0x8000_0000 * ((imm / 0x10_0000) % 2);
            w < 0x1_0000_0000 && FieldsOf(w).opcode == opcode && FieldsOf(w).rd == rd && ImmJ(w) == JumpOffset(imm)
  {
    var a, b, c, d := (imm / 0x1000) % 0x100, (imm / 0x800) % 2, (imm / 2) % 0x400, (imm / 0x10_0000) % 2;
    SplitJump(imm);
    ScatteredFields(opcode, rd, a, b, c, d);
  }

  lemma SplitJump(imm: Word)
    ensures 0x10_0000 * ((imm / 0x10_0000) % 2) + 0x1000 * ((imm / 0x1000) % 0x100) + 0x800 * ((imm / 0x800) % 2)
            + 2 * ((imm / 2) % 0x400) == imm % 0x20_0000 - imm % 2
  {
    DivDiv(imm, 2, 0x400);
    DivDiv(imm, 0x800, 2);
    DivDiv(imm, 0x1000, 0x100);
    DivDiv(imm, 0x10_0000, 2);
    var a, b, c, d, e := imm / 2, imm / 0x800, imm / 0x1000, imm / 0x10_0000, imm / 0x20_0000;
    assert a == a % 0x400 + 0x400 * b && b == b % 2 + 2 * c && c == c % 0x100 + 0x100 * d && d == d % 2 + 2 * e;
  }

  lemma ScatteredFields(opcode: nat, rd: Reg, a: nat, b: nat, c: nat, d: nat)
    requires opcode < 0x80 && a < 0x100 && b < 2 && c < 0x400 && d < 2
    ensures var w := opcode + 0x80 * rd + 0x1000 * a + 0x10_0000 * b + 0x20_0000 * c + 0x8000_0000 * d;
            w < 0x1_0000_0000 && w % 0x80 == opcode && (w / 0x80) % 32 == rd && (w / 0x1000) % 0x100 == a &&
            (w / 0x10_0000) % 2 == b && (w / 0x20_0000) % 0x400 == c && w / 0x8000_0000 == d
  {
    var r4 := c + 0x400 * d;
    var r3 := b + 2 * r4;
    var r2 := a + 0x100 * r3;
    var r1 := rd + 0x20 * r2;
    var w := opcode + 0x80 * r1;
    Digit(w, 1, 0x80, opcode, r1);
    Digit(w, 0x80, 0x20, rd, r2);
    Digit(w, 0x1000, 0x100, a, r3);
    Digit(w, 0x10_0000, 2, b, r4);
    Digit(w, 0x20_0000, 0x400, c, d);
  }

  lemma DecodeRegister(i: Instr)
    requires i.Alu?
    ensures Decode(Encode(i)) == Some(Normal(i))
  {
    DecodeAluInverse(i.op);
    hide EncodeRType, FieldsOf, DecodeAlu, AluFunct, Decode;
    DecodeByOpcode(Encode(i));
    DecodeRType(0x33, i.rd, AluFunct(i.op).0, i.rs1, i.rs2, AluFunct(i.op).1);
  }

  lemma SignExtend12Word(imm: int)
    ensures SignExtend12(ToWord(imm) % 4096) == SignExtend12(imm)
  {
  }

  lemma DecodeAluImm(i: Instr)
    requires i.AluImm?
    ensures Decode(Encode(i)) == Some(Normal(i))
  {
    var f: Word := match i.iop case ADDI => 0 case XORI => 4 case SLTIU => 3;
    var w := EncodeIType(0x13, i.rd, f, i.rs1, ToWord(i.imm));
    assert Decode(w) == Some(AluImm(i.iop, i.rd, i.rs1, SignExtend12(i.imm))) by {
      SignExtend12Word(i.imm);
      hide EncodeIType, FieldsOf, SignExtend12, ToWord, Decode, Encode, Normal;
      DecodeByOpcode(w);
      DecodeIType(0x13, i.rd, f, i.rs1, ToWord(i.imm));
    }
    hide EncodeIType, Decode, ToWord, SignExtend12;
  }

  lemma EncodeLoad(i: Instr)
    requires i.LoadMem?
    ensures Encode(i) == EncodeIType(0x03, i.rd, LoadFunct(i.width, i.signed), i.rs1, ToWord(i.imm))
    ensures LoadFunct(i.width, i.signed) < 8
    ensures Normal(i) == LoadMem(i.width, i.signed || i.width.Full?, i.rd, i.rs1, SignExtend12(ToWord(i.imm) % 4096))
  {
    hide EncodeIType, SignExtend12, ToWord;
    SignExtend12Word(i.imm);
  }

  lemma DecodeLoadMem(i: Instr)
    requires i.LoadMem?
    ensures Decode(Encode(i)) == Some(Normal(i))
  {
    hide EncodeIType, FieldsOf, SignExtend12, ToWord, Decode, DecodeLoad, Encode, LoadFunct, Normal;
    EncodeLoad(i);
    DecodeByOpcode(Encode(i));
    DecodeIType(0x03, i.rd, LoadFunct(i.width, i.signed), i.rs1, ToWord(i.imm));
    DecodeLoadFunct(FieldsOf(Encode(i)), i.width, i.signed, SignExtend12(ToWord(i.imm) % 4096));
  }

  lemma DecodeJalr(i: Instr)
    requires i.Jalr?
    ensures Decode(Encode(i)) == Some(Normal(i))
  {
    SignExtend12Word(i.imm);
    hide EncodeIType, FieldsOf, SignExtend12, ToWord, Decode;
    DecodeByOpcode(Encode(i));
    DecodeIType(0x67, i.rd, 0, i.rs1, ToWord(i.imm));
  }

  lemma DecodeEcall()
    ensures Decode(Encode(Ecall)) == Some(Ecall)
  {
    hide EncodeIType, FieldsOf, DecodeRegisterOp, DecodeImmediateOp, DecodeStore, DecodeLoad;
    ITypeValue(0x73, ZERO, 0, ZERO, 0);
    FieldsOfSum(0x73, 0, 0, 0, 0, 0);
  }

  /** Every instruction that the code generator writes is read back by the machine as that instruction,
      with its immediate cut to the bits of the format. */
  lemma DecodeEncode(i: Instr)
    ensures Decode(Encode(i)) == Some(Normal(i))
  {
    hide Encode, Decode, Normal;
    match i
    case Alu(_, _, _, _) => DecodeRegister(i);
    case Shift(_, _, _, _) => DecodeShift(i);
    case StoreMem(_, _, _, _) => DecodeStoreMem(i);
    case Lui(_, _) => DecodeUpper(i);
    case Auipc(_, _) => DecodeUpper(i);
    case Jal(_, _) => DecodeJal(i);
    case Ecall =>
      DecodeEcall();
      assert Normal(Ecall) == Ecall by { NormalEcall(); }
    case AluImm(_, _, _, _) => DecodeAluImm(i);
    case LoadMem(_, _, _, _, _) => DecodeLoadMem(i);
    case Jalr(_, _, _) => DecodeJalr(i);
  }

  lemma NormalEcall()
    ensures Normal(Ecall) == Ecall
  {
  }

  lemma SignExtend12Idempotent(x: int)
    ensures SignExtend12(SignExtend12(x)) == SignExtend12(x)
  {
  }

  lemma UpperIdempotent(x: int)
    ensures Upper(Upper(x)) == Upper(x)
  {
    var w := ToWord(x);
    assert Upper(x) == w - w % 4096;
  }

  lemma JumpOffsetIdempotent(x: int)
    ensures JumpOffset(JumpOffset(x)) == JumpOffset(x)
  {
    var m := x % 0x20_0000 - x % 2;
    assert m % 2 == 0 by { ModMod(x, 2, 0x10_0000); }
    if m < 0x10_0000 {
      assert m % 0x20_0000 == m;
    } else {
      assert (m - 0x20_0000) % 0x20_0000 == m;
    }
  }

  lemma ImmNormal(op: ImmOp, a: Word, imm: int)
    ensures ImmResult(op, a, SignExtend12(imm)) == ImmResult(op, a, imm)
  {
    hide SignExtend12;
    SignExtend12Idempotent(imm);
  }

  lemma ShiftNormal(op: ShiftOp, a: Word, imm: int)
    ensures ShiftResult(op, a, imm % 32) == ShiftResult(op, a, imm)
  {
    hide Pow2;
    DivModUnique(imm % 32, 32, 0, imm % 32);
  }

  /** Reading the immediate loses nothing of what an instruction does. */
  lemma NormalSame(i: Instr, m: Machine)
    ensures StepInstr(Normal(i), m) == StepInstr(i, m)
    ensures Normal(i).Straight() == i.Straight()
    ensures i.Straight() ==> Execute(Normal(i), m.cpu) == Execute(i, m.cpu)
  {
    hide SignExtend12, Upper, JumpOffset, AluResult, ImmResult, ShiftResult, Read, Write, ToWord, Cpu.Get, Cpu.Set;
    if i.AluImm? { ImmNormal(i.iop, m.cpu.Get(i.rs1), i.imm); }
    if i.Shift? { ShiftNormal(i.sop, m.cpu.Get(i.rs1), i.imm); }
    match i
    case Alu(_, _, _, _) =>
    case Ecall =>
    case Jal(_, _) => JumpOffsetIdempotent(i.imm);
    case Lui(_, _) => UpperIdempotent(i.imm);
    case Auipc(_, _) => UpperIdempotent(i.imm);
    case _ => SignExtend12Idempotent(i.imm);
  }
}
