/** The intermediate representation: blocks of three-address instructions over virtual registers. */
module Ir {
  import opened Results
  import opened IrTypes

  type VRegId = nat

  /** Placeholder for an operand that an opcode does not use. */
  const NO_VREG: VRegId := 0xFFFF_FFFF

  datatype Op =
    | Add | Sub | Mul | Div | Rem
    | BitAnd | BitOr | BitXor | BitNot | BitShl | BitShr | Neg
    | CmpEq | CmpNe | CmpGt | CmpGte | CmpLt | CmpLte
    | Load | Store | Move | LoadImm | LoadArg
  {
    predicate IsCompare() { CmpEq? || CmpNe? || CmpGt? || CmpGte? || CmpLt? || CmpLte? }

    predicate IsUnary() { Neg? || BitNot? }

    predicate IsBinary() {
      !IsUnary() && !Load? && !Store? && !Move? && !LoadImm? && !LoadArg?
    }
  }

  datatype Instruction = Instruction(opcode: Op, dest: VRegId, op1: VRegId, op2: VRegId, data: nat)

  datatype Terminator =
    | Unterminated
    | Return(value: Option<VRegId>)
    | Jump(target: nat)
    | Branch(first: nat, second: nat)

  datatype BasicBlock = BasicBlock(id: nat, instructions: seq<Instruction>, terminator: Terminator)

  /** Virtual registers are numbered from 0, so their types are a sequence. The entry is block 0. */
  datatype Function = Function(name: string, vregs: seq<IrType>, blocks: seq<BasicBlock>)
}
