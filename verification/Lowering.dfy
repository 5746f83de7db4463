/** Lowering of IR instructions to machine instructions: what is written for each opcode. */
module Lowering {
  import opened Words
  import opened Results
  import opened IrTypes
  import opened Riscv
  import opened Ir
  import opened IrSemantics
  import opened Allocator

  const I_TYPE_IMMEDIATE_MAX_SIZE := 4095

  /** Cuts a register down to its type: shift left, then back. The shift amount is (32 - 8) * size, of
      which the instruction keeps five bits. */
  function TruncateCode(t: IrType, r: Reg): seq<Instr> {
    var shift := (32 - 8) * t.Size();
    if shift == 0 then []
    else [Shift(SLLI, r, r, shift), Shift(if t.IsSigned() then SRAI else SRLI, r, r, shift)]
  }

  /** Compensates for the sign extension of a 12-bit immediate that is added to an upper immediate. */
  function Compensated(imm: Word): Word {
    if AndWord(imm, 0x800) != 0 then ToWord(imm + 0x1000) else imm
  }

  function LoadImmCode(rd: Reg, data: nat): seq<Instr> {
    var imm := Compensated(ToWord(data));
    if imm > I_TYPE_IMMEDIATE_MAX_SIZE then [Lui(rd, imm), AluImm(ADDI, rd, rd, imm)]
    else [AluImm(ADDI, rd, ZERO, imm)]
  }

  function FlipMask(t: IrType): Word {
    Compensated(LowerBitmask(8 * t.Size()))
  }

  predicate TruncatesFirst(op: Op) {
    op.Div? || op.Rem? || op.BitShr? || op.IsCompare()
  }

  predicate TruncatesSecond(op: Op) {
    op.Div? || op.Rem? || op.IsCompare()
  }

  /** The instructions that compute a binary operation on registers whose types have been taken care of. */
  function OperationCode(op: Op, signed: bool, rd: Reg, r1: Reg, r2: Reg): seq<Instr>
    requires op.IsBinary()
  {
    match op
    case Add => [Alu(ADD, rd, r1, r2)]
    case Sub => [Alu(SUB, rd, r1, r2)]
    case Mul => [Alu(MUL, rd, r1, r2)]
    case Div => [Alu(if signed then DIV else DIVU, rd, r1, r2)]
    case Rem => [Alu(if signed then REM else REMU, rd, r1, r2)]
    case BitAnd => [Alu(AND, rd, r1, r2)]
    case BitOr => [Alu(OR, rd, r1, r2)]
    case BitXor => [Alu(XOR, rd, r1, r2)]
    case BitShl => [Alu(SLL, rd, r1, r2)]
    case BitShr => [Alu(if signed then SRA else SRL, rd, r1, r2)]
    case CmpEq => [Alu(XOR, rd, r1, r2), AluImm(SLTIU, rd, rd, 1)]
    case CmpNe => [Alu(XOR, rd, r1, r2), Alu(SLTU, rd, ZERO, rd)]
    case CmpGt => [Alu(if signed then SLT else SLTU, rd, r2, r1)]
    case CmpGte => [Alu(if signed then SLT else SLTU, rd, r1, r2), AluImm(XORI, rd, rd, 1)]
    case CmpLt => [Alu(if signed then SLT else SLTU, rd, r1, r2)]
    case CmpLte => [Alu(if signed then SLT else SLTU, rd, r2, r1), AluImm(XORI, rd, rd, 1)]
  }

  function LowerBinary(types: seq<IrType>, a: Alloc, i: Instruction): (r: Alloc)
    requires a.Valid() && i.opcode.IsBinary()
    ensures r.Valid()
  {
    var (a3, i0, i1, i2) := LoadOperands(types, a, i.dest, i.op1, i.op2);
    var t1, t2 := TypeAt(types, a3.slots[i1].resident), TypeAt(types, a3.slots[i2].resident);
    var a4 := if TruncatesFirst(i.opcode) then a3.Write(TruncateCode(t1, Physical(i1))) else a3;
    var a5 := if TruncatesSecond(i.opcode) then a4.Write(TruncateCode(t2, Physical(i2))) else a4;
    a5.Write(OperationCode(i.opcode, TypeAt(types, i.op1).IsSigned(), Physical(i0), Physical(i1), Physical(i2)))
  }

  function LowerNeg(types: seq<IrType>, a: Alloc, i: Instruction): (r: Alloc)
    requires a.Valid()
    ensures r.Valid()
  {
    var (a1, i0) := LoadDest(types, a, i.dest);
    var (a2, i1) := LoadSource(types, a1, i.op1);
    a2.Write([Alu(SUB, Physical(i0), ZERO, Physical(i1))])
  }

  function LowerBitNot(types: seq<IrType>, a: Alloc, i: Instruction): (r: Alloc)
    requires a.Valid()
    ensures r.Valid()
  {
    var (a1, i0) := LoadDest(types, a, i.dest);
    var (a2, i1) := LoadSource(types, a1, i.op1);
    var mask := FlipMask(TypeAt(types, a2.slots[i1].resident));
    if mask > I_TYPE_IMMEDIATE_MAX_SIZE then
      var (a3, scratch) := GetEmptySlot(types, a2);
      a3.Write([Lui(Physical(scratch), mask)])
        .Write([AluImm(ADDI, Physical(scratch), Physical(scratch), mask)])
        .Write([Alu(XOR, Physical(i0), Physical(scratch), Physical(i1))])
    else
      a2.Write([AluImm(XORI, Physical(i0), Physical(i1), mask)])
  }

  function LowerLoadImm(types: seq<IrType>, a: Alloc, i: Instruction): (r: Alloc)
    requires a.Valid()
    ensures r.Valid()
  {
    var (a1, i0) := LoadDest(types, a, i.dest);
    a1.Write(LoadImmCode(Physical(i0), i.data))
  }

  predicate Handled(op: Op) {
    op.LoadImm? || op.IsUnary() || op.IsBinary()
  }

  function LowerInstruction(types: seq<IrType>, a: Alloc, i: Instruction): (r: Alloc)
    requires a.Valid() && Handled(i.opcode)
    ensures r.Valid()
  {
    match i.opcode
    case LoadImm => LowerLoadImm(types, a, i)
    case Neg => LowerNeg(types, a, i)
    case BitNot => LowerBitNot(types, a, i)
    case _ => LowerBinary(types, a, i)
  }

  /** Lowers a block; opcodes without a lowering are an error. */
  function LowerBlock(types: seq<IrType>, a: Alloc, instrs: seq<Instruction>): (r: Result<Alloc>)
    requires a.Valid()
    ensures r.Ok? ==> r.value.Valid()
  {
    if instrs == [] then Ok(a)
    else
      var a' :- LowerBlock(types, a, instrs[..|instrs| - 1]);
      var i := instrs[|instrs| - 1];
      if Handled(i.opcode) then Ok(LowerInstruction(types, a', i)) else Err(Unimplemented)
  }

  /** Puts the value to be returned into a0, in its canonical form. */
  function LowerReturnValue(types: seq<IrType>, a: Alloc, v: VRegId): (r: Alloc)
    requires a.Valid()
    ensures r.Valid()
  {
    var (a1, i) := LoadSource(types, a, v);
    a1.Write(TruncateCode(TypeAt(types, a1.slots[i].resident), Physical(i)))
      .Write([AluImm(ADDI, A0, Physical(i), 0)])
  }
}
