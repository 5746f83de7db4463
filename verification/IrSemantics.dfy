/** What a block of instructions computes, and which blocks the back end can be trusted with. */
module IrSemantics {
  import opened Words
  import opened IrTypes
  import opened Ir
  import opened SourceSemantics

  type Env = map<VRegId, int>

  function Look(env: Env, v: VRegId): int {
    if v in env then env[v] else 0
  }

  function EvalBinaryOp(op: Op, t: IrType, x: int, y: int): int
    requires op.IsBinary()
  {
    match op
    case Add => t.Wrap(x + y)
    case Sub => t.Wrap(x - y)
    case Mul => t.Wrap(x * y)
    case Div => Quotient(t, x, y)
    case Rem => Remainder(t, x, y)
    case BitAnd => BitsOf(And, t, x, y)
    case BitOr => BitsOf(Or, t, x, y)
    case BitXor => BitsOf(Xor, t, x, y)
    case BitShl => ShiftedLeft(t, x, y)
    case BitShr => ShiftedRight(t, x, y)
    case CmpEq => if x == y then 1 else 0
    case CmpNe => if x != y then 1 else 0
    case CmpGt => if x > y then 1 else 0
    case CmpGte => if x >= y then 1 else 0
    case CmpLt => if x < y then 1 else 0
    case CmpLte => if x <= y then 1 else 0
  }

  function EvalUnaryOp(op: Op, t: IrType, x: int): int
    requires op.IsUnary()
  {
    match op
    case Neg => t.Wrap(-x)
    case BitNot => t.Wrap(-x - 1)
  }

  function TypeAt(types: seq<IrType>, v: VRegId): IrType {
    if v < |types| then types[v] else U32
  }

  /** The value an instruction gives to its destination. */
  function ResultOf(types: seq<IrType>, env: Env, i: Instruction): int {
    if i.opcode.LoadImm? then TypeAt(types, i.dest).Wrap(i.data)
    else if i.opcode.IsUnary() then EvalUnaryOp(i.opcode, TypeAt(types, i.op1), Look(env, i.op1))
    else if i.opcode.IsBinary() then
      EvalBinaryOp(i.opcode, TypeAt(types, i.op1), Look(env, i.op1), Look(env, i.op2))
    else 0
  }

  /** The register contents after a block, starting from no registers at all. */
  function Run(types: seq<IrType>, instrs: seq<Instruction>): Env {
    if instrs == [] then map[]
    else
      var i := instrs[|instrs| - 1];
      var env := Run(types, instrs[..|instrs| - 1]);
      env[i.dest := ResultOf(types, env, i)]
  }

  /** The virtual registers in the order of their definition. */
  function Dests(instrs: seq<Instruction>): (ds: seq<VRegId>)
    ensures |ds| == |instrs|
    ensures forall k :: 0 <= k < |instrs| ==> ds[k] == instrs[k].dest
  {
    seq(|instrs|, k requires 0 <= k < |instrs| => instrs[k].dest)
  }

  /** v is one of the last k definitions. */
  predicate Recent(defs: seq<VRegId>, v: VRegId, k: nat) {
    v in (if |defs| <= k then defs else defs[|defs| - k..])
  }

  /** The pairs of operands that survive register allocation: not two old ones, and not an old one beside
      the one that is next to be spilled. */
  predicate SafeOperands(defs: seq<VRegId>, v: VRegId, w: VRegId) {
    v == w || (Recent(defs, v, 14) && Recent(defs, w, 14)) || Recent(defs, v, 13) || Recent(defs, w, 13)
  }

  /** The one-operand instruction that needs a scratch register complements 16 bits. */
  predicate SafeComplement(types: seq<IrType>, defs: seq<VRegId>, v: VRegId) {
    TypeAt(types, v).Size() == 2 ==> Recent(defs, v, 13)
  }

  predicate WellTyped(types: seq<IrType>, i: Instruction) {
    var t, t1, t2 := TypeAt(types, i.dest), TypeAt(types, i.op1), TypeAt(types, i.op2);
    if i.opcode.LoadImm? then true
    else if i.opcode.IsUnary() then t1 == t && t != BOOL
    else if i.opcode.IsCompare() then t1 == t2 && t == BOOL
    else if i.opcode.BitShl? || i.opcode.BitShr? then t1 == t && t != BOOL && t2 != BOOL && !t2.IsSigned()
    else i.opcode.IsBinary() && t1 == t && t2 == t
  }

  /** An instruction that may follow the definitions defs: it defines a new register, reads old ones. */
  predicate InstructionOk(types: seq<IrType>, defs: seq<VRegId>, i: Instruction) {
    && i.dest < |types| && i.dest !in defs
    && WellTyped(types, i)
    && (i.opcode.IsUnary() ==> i.op1 in defs && (i.opcode.BitNot? ==> SafeComplement(types, defs, i.op1)))
    && (i.opcode.IsBinary() ==> i.op1 in defs && i.op2 in defs && SafeOperands(defs, i.op1, i.op2))
  }

  predicate BlockOk(types: seq<IrType>, instrs: seq<Instruction>) {
    instrs == [] ||
    (BlockOk(types, instrs[..|instrs| - 1]) &&
     InstructionOk(types, Dests(instrs[..|instrs| - 1]), instrs[|instrs| - 1]))
  }

  lemma AppendInstruction(types: seq<IrType>, instrs: seq<Instruction>, i: Instruction)
    ensures Dests(instrs + [i]) == Dests(instrs) + [i.dest]
    ensures Run(types, instrs + [i]) == Run(types, instrs)[i.dest := ResultOf(types, Run(types, instrs), i)]
    ensures BlockOk(types, instrs + [i]) <==> BlockOk(types, instrs) && InstructionOk(types, Dests(instrs), i)
  {
    assert (instrs + [i])[..|instrs|] == instrs;
  }

  predicate Distinct(defs: seq<VRegId>) {
    forall j, k :: 0 <= j < k < |defs| ==> defs[j] != defs[k]
  }

  /** env gives a value in the range of its type to each register in defs, and to no other. */
  ghost predicate Covers(types: seq<IrType>, env: Env, defs: seq<VRegId>) {
    && (forall v :: v in env <==> v in defs)
    && (forall v :: v in env ==> v < |types| && types[v].InRange(env[v]))
  }

  /** A block defines each of its registers once, with a value in the range of its type. */
  lemma {:induction false} RunDefines(types: seq<IrType>, instrs: seq<Instruction>)
    requires BlockOk(types, instrs)
    ensures Covers(types, Run(types, instrs), Dests(instrs)) && Distinct(Dests(instrs))
  {
    hide Run, Covers, Distinct, ResultOf, InstructionOk, IrTypes.IrType.InRange;
    if instrs == [] {
      NothingDefined(types);
    } else {
      var prefix, i := instrs[..|instrs| - 1], instrs[|instrs| - 1];
      RunDefines(types, prefix);
      AppendInstruction(types, prefix, i);
      assert instrs == prefix + [i];
      DefinesNew(types, Dests(prefix), i);
      ResultInRange(types, Run(types, prefix), Dests(prefix), i);
      CoversAppend(types, Run(types, prefix), Dests(prefix), i.dest, ResultOf(types, Run(types, prefix), i));
    }
  }

  lemma NothingDefined(types: seq<IrType>)
    ensures Covers(types, Run(types, []), Dests([])) && Distinct(Dests([]))
  {
  }

  lemma DefinesNew(types: seq<IrType>, defs: seq<VRegId>, i: Instruction)
    requires InstructionOk(types, defs, i)
    ensures i.dest !in defs && i.dest < |types|
  {
    hide WellTyped, SafeOperands, SafeComplement;
  }

  lemma CoversAppend(types: seq<IrType>, env: Env, defs: seq<VRegId>, d: VRegId, x: int)
    requires Covers(types, env, defs) && Distinct(defs) && d !in defs && d < |types| && types[d].InRange(x)
    ensures Covers(types, env[d := x], defs + [d]) && Distinct(defs + [d])
  {
  }

  lemma ResultInRange(types: seq<IrType>, env: Env, defs: seq<VRegId>, i: Instruction)
    requires Covers(types, env, defs) && InstructionOk(types, defs, i)
    ensures types[i.dest].InRange(ResultOf(types, env, i))
  {
    hide SafeOperands, SafeComplement;
    if i.opcode.IsBinary() {
      BinaryInRange(i.opcode, types[i.dest], TypeAt(types, i.op1), Look(env, i.op1), Look(env, i.op2));
    }
  }

  lemma BinaryInRange(op: Op, t: IrType, t1: IrType, x: int, y: int)
    requires op.IsBinary() && t1.InRange(x)
    requires if op.IsCompare() then t == BOOL else t1 == t
    ensures t.InRange(EvalBinaryOp(op, t1, x, y))
  {
  }
}
