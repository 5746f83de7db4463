/** The part of RV32IM that the back end uses, after "The RISC-V Instruction Set Manual, Volume I:
    Unprivileged ISA", version 20191213, chapters 2 and 7. */
module Riscv {
  import opened Words
  import opened Results

  type Reg = r: nat | r < 32

  const ZERO: Reg := 0
  const RA: Reg := 1
  const SP: Reg := 2
  const FP: Reg := 8
  const A0: Reg := 10
  const A7: Reg := 17

  datatype AluOp =
    | ADD | SUB | XOR | OR | AND | SLL | SRL | SRA | SLT | SLTU
    | MUL | DIV | DIVU | REM | REMU

  datatype ImmOp = ADDI | XORI | SLTIU

  datatype ShiftOp = SLLI | SRLI | SRAI

  datatype Width = Byte1 | Half | Full {
    function Size(): (n: nat)
      ensures n == 1 || n == 2 || n == 4
    {
      match this
      case Byte1 => 1
      case Half => 2
      case Full => 4
    }
  }

  /** An instruction with its immediate as the assembler receives it; only the bits that the format
      keeps have a meaning. */
  datatype Instr =
    | Alu(op: AluOp, rd: Reg, rs1: Reg, rs2: Reg)
    | AluImm(iop: ImmOp, rd: Reg, rs1: Reg, imm: int)
    | Shift(sop: ShiftOp, rd: Reg, rs1: Reg, imm: int)
    | LoadMem(width: Width, signed: bool, rd: Reg, rs1: Reg, imm: int)
    | StoreMem(width: Width, rs1: Reg, rs2: Reg, imm: int)
    | Lui(rd: Reg, imm: int)
    | Auipc(rd: Reg, imm: int)
    | Jal(rd: Reg, imm: int)
    | Jalr(rd: Reg, rs1: Reg, imm: int)
    | Ecall
  {
    /** Neither a jump nor a call of the environment, and independent of the program counter. */
    predicate Straight() {
      Alu? || AluImm? || Shift? || LoadMem? || StoreMem? || Lui?
    }
  }

  // ---- data: registers and memory ----------------------------------------------------------

  type Regs = s: seq<Word> | |s| == 32 witness seq(32, _ => 0)

  /** Byte memory; an address that is not in the map holds 0. */
  type Mem = map<Word, Byte>

  datatype Cpu = Cpu(regs: Regs, mem: Mem) {
    function Get(r: Reg): Word { if r == 0 then 0 else regs[r] }

    function Set(r: Reg, v: Word): Cpu { if r == 0 then this else Cpu(regs[r := v], mem) }
  }

  function ReadByte(m: Mem, a: Word): Byte {
    if a in m then m[a] else 0
  }

  /** Little-endian. */
  function Read(m: Mem, a: Word, n: nat): (v: nat)
    requires n == 1 || n == 2 || n == 4
    ensures v < 0x1_0000_0000 && (n == 1 ==> v < 0x100) && (n == 2 ==> v < 0x1_0000)
  {
    var b0 := ReadByte(m, a);
    if n == 1 then b0
    else
      var b1 := ReadByte(m, ToWord(a + 1));
      if n == 2 then b0 + 0x100 * b1
      else b0 + 0x100 * b1 + 0x1_0000 * ReadByte(m, ToWord(a + 2)) + 0x100_0000 * ReadByte(m, ToWord(a + 3))
  }

  function Write(m: Mem, a: Word, n: nat, v: Word): Mem
    requires n == 1 || n == 2 || n == 4
  {
    var m1 := m[a := v % 0x100];
    if n == 1 then m1
    else
      var m2 := m1[ToWord(a + 1) := (v / 0x100) % 0x100];
      if n == 2 then m2
      else m2[ToWord(a + 2) := (v / 0x1_0000) % 0x100][ToWord(a + 3) := v / 0x100_0000]
  }

  lemma ReadByteOther(m: Mem, a: Word, n: nat, v: Word, b: Word)
    requires (n == 1 || n == 2 || n == 4) && a + n <= 0x1_0000_0000 && (b < a || a + n <= b)
    ensures ReadByte(Write(m, a, n, v), b) == ReadByte(m, b)
  {
  }

  /** A write leaves what lies beside it alone. */
  lemma ReadOther(m: Mem, a: Word, n: nat, v: Word, b: Word, k: nat)
    requires (n == 1 || n == 2 || n == 4) && (k == 1 || k == 2 || k == 4)
    requires a + n <= 0x1_0000_0000 && b + k <= 0x1_0000_0000 && (b + k <= a || a + n <= b)
    ensures Read(Write(m, a, n, v), b, k) == Read(m, b, k)
  {
    hide Write, ReadByte;
    ReadByteOther(m, a, n, v, b);
    if k > 1 { ReadByteOther(m, a, n, v, b + 1); }
    if k > 2 {
      ReadByteOther(m, a, n, v, b + 2);
      ReadByteOther(m, a, n, v, b + 3);
    }
  }

  /** Reading back gives the low bytes of what was written. */
  lemma ReadBack(m: Mem, a: Word, n: nat, v: Word)
    requires (n == 1 || n == 2 || n == 4) && a + n <= 0x1_0000_0000
    ensures Read(Write(m, a, n, v), a, n) == if n == 1 then v % 0x100 else if n == 2 then v % 0x1_0000 else v
  {
    hide ReadByte, Write;
    BytesBack(m, a, n, v);
    JoinBytes(v);
  }

  lemma BytesBack(m: Mem, a: Word, n: nat, v: Word)
    requires (n == 1 || n == 2 || n == 4) && a + n <= 0x1_0000_0000
    ensures var m' := Write(m, a, n, v);
            && ReadByte(m', a) == v % 0x100 && (n >= 2 ==> ReadByte(m', ToWord(a + 1)) == (v / 0x100) % 0x100)
            && (n == 4 ==> ReadByte(m', ToWord(a + 2)) == (v / 0x1_0000) % 0x100 &&
                           ReadByte(m', ToWord(a + 3)) == v / 0x100_0000)
  {
  }

  lemma JoinBytes(v: Word)
    ensures v % 0x100 + 0x100 * ((v / 0x100) % 0x100) == v % 0x1_0000
    ensures v % 0x1_0000 + 0x1_0000 * ((v / 0x1_0000) % 0x100) + 0x100_0000 * (v / 0x100_0000) == v
  {
    var q, r := v / 0x100, v / 0x1_0000;
    DivDiv(v, 0x100, 0x100);
    DivDiv(v, 0x1_0000, 0x100);
    DivMod(v, 0x100);
    DivMod(q, 0x100);
    DivMod(r, 0x100);
    DivModUnique(v, 0x1_0000, r, 0x100 * (q % 0x100) + v % 0x100);
  }

  // ---- instructions ------------------------------------------------------------------------

  function AluResult(op: AluOp, a: Word, b: Word): Word {
    match op
    case ADD => ToWord(a + b)
    case SUB => ToWord(a - b)
    case XOR => XorWord(a, b)
    case OR => OrWord(a, b)
    case AND => AndWord(a, b)
    case SLL => ToWord(a * Pow2(b % 32))
    case SRL => QuotientFits(a, Pow2(b % 32)); a / Pow2(b % 32)
    case SRA => ToWord(Signed(a) / Pow2(b % 32))
    case SLT => if Signed(a) < Signed(b) then 1 else 0
    case SLTU => if a < b then 1 else 0
    case MUL => ToWord(a * b)
    case DIV =>
      if b == 0 then 0xFFFF_FFFF
      else if a == 0x8000_0000 && b == 0xFFFF_FFFF then 0x8000_0000
      else ToWord(TruncatedQuotient(Signed(a), Signed(b)))
    case DIVU => if b == 0 then 0xFFFF_FFFF else QuotientFits(a, b); a / b
    case REM =>
      if b == 0 then a
      else if a == 0x8000_0000 && b == 0xFFFF_FFFF then 0
      else ToWord(Signed(a) - Signed(b) * TruncatedQuotient(Signed(a), Signed(b)))
    case REMU => if b == 0 then a else a % b
  }

  function ImmResult(op: ImmOp, a: Word, imm: int): Word {
    match op
    case ADDI => ToWord(a + SignExtend12(imm))
    case XORI => XorWord(a, ToWord(SignExtend12(imm)))
    case SLTIU => if a < ToWord(SignExtend12(imm)) then 1 else 0
  }

  function ShiftResult(op: ShiftOp, a: Word, imm: int): Word {
    match op
    case SLLI => ToWord(a * Pow2(imm % 32))
    case SRLI => QuotientFits(a, Pow2(imm % 32)); a / Pow2(imm % 32)
    case SRAI => ToWord(Signed(a) / Pow2(imm % 32))
  }

  function Loaded(v: nat, width: Width, signed: bool): Word
    requires v < 0x1_0000_0000
  {
    match width
    case Byte1 => if signed && v % 0x100 >= 0x80 then ToWord(v % 0x100 - 0x100) else v % 0x100
    case Half => if signed && v % 0x1_0000 >= 0x8000 then ToWord(v % 0x1_0000 - 0x1_0000) else v % 0x1_0000
    case Full => v
  }

  /** The immediate of lui and auipc: the upper 20 bits. */
  function Upper(imm: int): Word { ToWord(imm) - ToWord(imm) % 4096 }

  /** The immediate of jal: an even number of 21 bits, two's complement. */
  function JumpOffset(imm: int): int {
    var m := imm % 0x20_0000 - imm % 2;
    if m < 0x10_0000 then m else m - 0x20_0000
  }

  /** The effect of a straight-line instruction on registers and memory. */
  function Execute(i: Instr, c: Cpu): Cpu
    requires i.Straight()
  {
    match i
    case Alu(op, rd, rs1, rs2) => c.Set(rd, AluResult(op, c.Get(rs1), c.Get(rs2)))
    case AluImm(op, rd, rs1, imm) => c.Set(rd, ImmResult(op, c.Get(rs1), imm))
    case Shift(op, rd, rs1, imm) => c.Set(rd, ShiftResult(op, c.Get(rs1), imm))
    case LoadMem(width, signed, rd, rs1, imm) =>
      c.Set(rd, Loaded(Read(c.mem, ToWord(c.Get(rs1) + SignExtend12(imm)), width.Size()), width, signed))
    case StoreMem(width, rs1, rs2, imm) =>
      Cpu(c.regs, Write(c.mem, ToWord(c.Get(rs1) + SignExtend12(imm)), width.Size(), c.Get(rs2)))
    case Lui(rd, imm) => c.Set(rd, Upper(imm))
  }

  predicate AllStraight(code: seq<Instr>) {
    forall k :: 0 <= k < |code| ==> code[k].Straight()
  }

  /** The effect of straight-line code. */
  function ExecuteAll(code: seq<Instr>, c: Cpu): Cpu
    requires AllStraight(code)
  {
    if code == [] then c
    else Execute(code[|code| - 1], ExecuteAll(code[..|code| - 1], c))
  }

  lemma ExecuteAppend(code: seq<Instr>, i: Instr, c: Cpu)
    requires i.Straight() && AllStraight(code)
    ensures AllStraight(code + [i])
    ensures ExecuteAll(code + [i], c) == Execute(i, ExecuteAll(code, c))
  {
    assert (code + [i])[..|code|] == code;
  }

  // ---- the machine -------------------------------------------------------------------------

  datatype Machine = Machine(cpu: Cpu, pc: Word)

  /** The effect of an instruction at the program counter. The environment call leaves this model. */
  function StepInstr(i: Instr, m: Machine): Option<Machine> {
    match i
    case Jal(rd, imm) => Some(Machine(m.cpu.Set(rd, ToWord(m.pc + 4)), ToWord(m.pc + JumpOffset(imm))))
    case Jalr(rd, rs1, imm) =>
      var target := ToWord(m.cpu.Get(rs1) + SignExtend12(imm));
      Some(Machine(m.cpu.Set(rd, ToWord(m.pc + 4)), target - target % 2))
    case Auipc(rd, imm) => Some(Machine(m.cpu.Set(rd, ToWord(m.pc + Upper(imm))), ToWord(m.pc + 4)))
    case Ecall => None
    case _ => Some(Machine(Execute(i, m.cpu), ToWord(m.pc + 4)))
  }
}
