/** Filling in the immediates of instructions that were encoded before their targets were known. */
module Backpatching {
  import opened Words
  import opened Results
  import opened Riscv
  import opened Encoding

  datatype InstructionFormat = RType | IType | SType | BType | UType | JType

  function FormatOf(i: Instr): InstructionFormat {
    match i
    case Alu(_, _, _, _) => RType
    case StoreMem(_, _, _, _) => SType
    case Lui(_, _) => UType
    case Auipc(_, _) => UType
    case Jal(_, _) => JType
    case _ => IType
  }

  /** Everything but the immediate of an S-type word: bits 0 to 6 and 12 to 24. */
  const S_TYPE_KEPT: Word := 0x01FF_F07F

  /** Overwrites the immediate of an encoded instruction. */
  function PatchWord(fmt: InstructionFormat, word: Word, offset: Word): Result<Word> {
    match fmt
    case IType =>
      var imm := AndWord(offset, LowerBitmask(12));
      Ok(OrWord(AndWord(word, LowerBitmask(20)), ShiftLeft(imm, 20)))
    case SType =>
      var high := AndWord(ShiftRight(offset, 5), LowerBitmask(7));
      var low := AndWord(offset, LowerBitmask(5));
      Ok(OrWord(OrWord(AndWord(word, S_TYPE_KEPT), ShiftLeft(high, 25)), ShiftLeft(low, 7)))
    case BType => Err(Unimplemented)
    case UType => Err(Unimplemented)
    case JType => Ok(OrJumpOffset(AndWord(word, LowerBitmask(12)), offset))
    case RType => Err(InternalError)
  }

  /** Patching gives the word that encoding with the new offset would have given, whatever was there. */
  lemma PatchExact(rd: Reg, before: Word, offset: Word)
    ensures PatchWord(JType, EncodeJType(0x6F, rd, before), offset) == Ok(EncodeJType(0x6F, rd, offset))
  {
    hide EncodeJType, OrJumpOffset, AndWord, LowerBitmask;
    LowTwelveBits(rd, before);
    JTypeStart(rd, offset);
  }

  lemma LowTwelveBits(rd: Reg, imm: Word)
    ensures AndWord(EncodeJType(0x6F, rd, imm), LowerBitmask(12)) == 0x6F + 0x80 * rd
  {
    hide EncodeJType, Bitwise, Pow2;
    Pow2Values();
    var w := EncodeJType(0x6F, rd, imm);
    AndMask(w, 12);
    JTypeValue(0x6F, rd, imm);
    var a, b, c, d := (imm / 0x1000) % 0x100, (imm / 0x800) % 2, (imm / 2) % 0x400, (imm / 0x10_0000) % 2;
    DivModUnique(w, 0x1000, a + 0x100 * b + 0x200 * c + 0x8_0000 * d, 0x6F + 0x80 * rd);
  }

  lemma JTypeStart(rd: Reg, offset: Word)
    ensures EncodeJType(0x6F, rd, offset) == OrJumpOffset(0x6F + 0x80 * rd, offset)
  {
    hide OrJumpOffset, AndWord, LowerBitmask, OrWord, ShiftLeft;
    JTypePrefix(0x6F, rd);
  }

  lemma PatchedJump(rd: Reg, before: int, offset: int)
    ensures PatchWord(JType, Encode(Jal(rd, before)), ToWord(offset)) == Ok(Encode(Jal(rd, offset)))
  {
    hide EncodeJType, OrJumpOffset, AndWord, LowerBitmask, ToWord;
    PatchExact(rd, ToWord(before), ToWord(offset));
  }
}
