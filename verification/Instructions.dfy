/** Every lowered instruction, and so every lowered block, simulates the IR. */
module Instructions {
  import opened Words
  import opened IrTypes
  import opened Riscv
  import opened Ir
  import opened IrSemantics
  import opened Allocator
  import opened Lowering
  import opened LoweredValues
  import opened Simulation

  // ---- effect of the written code ----------------------------------------------------------

  lemma ExecuteOne(code: seq<Instr>, i: Instr, c: Cpu)
    requires AllStraight(code) && i.Straight()
    ensures AllStraight(code + [i]) && ExecuteAll(code + [i], c) == Execute(i, ExecuteAll(code, c))
  {
    hide Execute;
    ExecuteAppend(code, i, c);
  }

  lemma ExecuteTwo(code: seq<Instr>, i: Instr, j: Instr, c: Cpu)
    requires AllStraight(code) && i.Straight() && j.Straight()
    ensures AllStraight(code + [i, j])
    ensures ExecuteAll(code + [i, j], c) == Execute(j, Execute(i, ExecuteAll(code, c)))
  {
    hide Execute;
    ExecuteAppend(code, i, c);
    ExecuteAppend(code + [i], j, c);
    assert code + [i, j] == (code + [i]) + [j];
  }

  lemma SetSet(c: Cpu, r: Reg, v: Word, w: Word)
    requires r != 0
    ensures c.Set(r, v).Set(r, w) == c.Set(r, w) && c.Set(r, v).Get(r) == v && c.Set(r, v).Get(0) == 0
    ensures forall q: Reg :: q != r ==> c.Set(r, v).Get(q) == c.Get(q)
  {
  }

  /** truncate_reg leaves the canonical word in the register and touches nothing else. */
  lemma ExecuteTruncate(code: seq<Instr>, t: IrType, r: Reg, start: Cpu)
    requires AllStraight(code) && r != 0
    ensures AllStraight(code + TruncateCode(t, r))
    ensures var c := ExecuteAll(code, start);
            ExecuteAll(code + TruncateCode(t, r), start) == c.Set(r, Canonical(t, c.Get(r)))
  {
    hide ExecuteAll, ShiftResult, Canonical, AllStraight;
    var c, s := ExecuteAll(code, start), (32 - 8) * t.Size();
    var back := if t.IsSigned() then SRAI else SRLI;
    ExecuteTwo(code, Shift(SLLI, r, r, s), Shift(back, r, r, s), start);
    TruncateExact(t, c.Get(r));
    var w := ShiftResult(SLLI, c.Get(r), s);
    SetSet(c, r, w, ShiftResult(back, w, s));
  }

  /** The operation instructions leave their result in rd and touch nothing else. */
  lemma ExecuteOperation(code: seq<Instr>, op: Op, signed: bool, rd: Reg, r1: Reg, r2: Reg, start: Cpu)
    requires AllStraight(code) && rd != 0 && op.IsBinary()
    ensures AllStraight(code + OperationCode(op, signed, rd, r1, r2))
    ensures var c := ExecuteAll(code, start);
            ExecuteAll(code + OperationCode(op, signed, rd, r1, r2), start) ==
            c.Set(rd, ResultWord(op, signed, c.Get(r1), c.Get(r2)))
  {
    hide ExecuteAll, AluResult, ImmResult, AllStraight;
    var c := ExecuteAll(code, start);
    var less := if signed then SLT else SLTU;
    var w := ResultWord(op, signed, c.Get(r1), c.Get(r2));
    if op.CmpEq? {
      ExecuteTwo(code, Alu(XOR, rd, r1, r2), AluImm(SLTIU, rd, rd, 1), start);
      SetSet(c, rd, AluResult(XOR, c.Get(r1), c.Get(r2)), w);
    } else if op.CmpNe? {
      ExecuteTwo(code, Alu(XOR, rd, r1, r2), Alu(SLTU, rd, ZERO, rd), start);
      SetSet(c, rd, AluResult(XOR, c.Get(r1), c.Get(r2)), w);
    } else if op.CmpGte? {
      ExecuteTwo(code, Alu(less, rd, r1, r2), AluImm(XORI, rd, rd, 1), start);
      SetSet(c, rd, AluResult(less, c.Get(r1), c.Get(r2)), w);
    } else if op.CmpLte? {
      ExecuteTwo(code, Alu(less, rd, r2, r1), AluImm(XORI, rd, rd, 1), start);
      SetSet(c, rd, AluResult(less, c.Get(r2), c.Get(r1)), w);
    } else {
      ExecuteOne(code, OperationCode(op, signed, rd, r1, r2)[0], start);
    }
  }

  /** Loading a constant leaves exactly the constant, for every 32-bit value. */
  lemma ExecuteLoadImm(code: seq<Instr>, rd: Reg, data: nat, start: Cpu)
    requires AllStraight(code) && rd != 0
    ensures AllStraight(code + LoadImmCode(rd, data))
    ensures ExecuteAll(code + LoadImmCode(rd, data), start) == ExecuteAll(code, start).Set(rd, ToWord(data))
  {
    hide ExecuteAll, Upper, SignExtend12, AllStraight, Compensated;
    var imm, c := Compensated(ToWord(data)), ExecuteAll(code, start);
    CompensationExact(ToWord(data));
    if imm > I_TYPE_IMMEDIATE_MAX_SIZE {
      ExecuteTwo(code, Lui(rd, imm), AluImm(ADDI, rd, rd, imm), start);
      SetSet(c, rd, Upper(imm), ToWord(data));
    } else {
      ExecuteOne(code, AluImm(ADDI, rd, ZERO, imm), start);
    }
  }

  // ---- instructions ------------------------------------------------------------------------

  /** The state between two instructions: every defined register has its value. */
  ghost predicate SimBlock(ctx: Context, a: Alloc, defs: seq<VRegId>, d: nat, env: Env) {
    a.Valid() && Sim(ctx, a, defs, d, env) && Covers(ctx.types, env, defs)
  }

  /** Truncating an operand that is in slot i. */
  lemma TruncateSim(ctx: Context, a: Alloc, defs: seq<VRegId>, d: nat, env: Env, i: nat, v: VRegId)
    requires a.Valid() && Sim(ctx, a, defs, d, env) && i < SLOT_COUNT && Held(a, i, v) && v in env
    requires TypeAt(ctx.types, v).InRange(env[v])
    ensures var a' := a.Write(TruncateCode(TypeAt(ctx.types, v), Physical(i)));
            && Sim(ctx, a', defs, d, env)
            && CpuAt(ctx, a') == CpuAt(ctx, a).Set(Physical(i), ToWord(env[v]))
  {
    hide TruncateCode, Window, Preserved, StackAgree, IrTypes.IrType.InRange, IrTypes.IrType.Agrees, ToWord;
    hide ExecuteAll, Physical;
    var t, r, cpu := TypeAt(ctx.types, v), Physical(i), CpuAt(ctx, a);
    PhysicalIsSlot(i);
    ExecuteTruncate(a.code, t, r, ctx.start);
    CanonicalOf(t, cpu.Get(r), env[v]);
    WriteSim(ctx, a, defs, d, env, TruncateCode(t, r), i, ToWord(env[v]));
  }

  lemma Agreement(ctx: Context, a: Alloc, defs: seq<VRegId>, d: nat, env: Env, i: nat, v: VRegId)
    requires a.Valid() && Sim(ctx, a, defs, d, env) && i < SLOT_COUNT && Held(a, i, v) && v in env
    ensures TypeAt(ctx.types, v).Agrees(CpuAt(ctx, a).Get(Physical(i)), env[v])
  {
    hide Window, Preserved, StackAgree, IrTypes.IrType.Agrees, ExecuteAll, Physical;
  }

  /** The state of the code before the operation itself, when both operands are in place. */
  function Prepared(types: seq<IrType>, a: Alloc, op: Op, i1: nat, op1: VRegId, i2: nat, op2: VRegId): (r: Alloc)
    requires a.Valid() && i1 < SLOT_COUNT && i2 < SLOT_COUNT
    ensures r.Valid() && r.slots == a.slots && r.spills == a.spills
  {
    var a4 := if TruncatesFirst(op) then a.Write(TruncateCode(TypeAt(types, op1), Physical(i1))) else a;
    if TruncatesSecond(op) then a4.Write(TruncateCode(TypeAt(types, op2), Physical(i2))) else a4
  }

  lemma PrepareSim(ctx: Context, a: Alloc, defs: seq<VRegId>, d: nat, env: Env, op: Op,
                   i1: nat, op1: VRegId, i2: nat, op2: VRegId)
    requires a.Valid() && Sim(ctx, a, defs, d, env) && i1 < SLOT_COUNT && i2 < SLOT_COUNT
    requires Held(a, i1, op1) && Held(a, i2, op2) && op1 in env && op2 in env
    requires TypeAt(ctx.types, op1).InRange(env[op1]) && TypeAt(ctx.types, op2).InRange(env[op2])
    ensures var a5 := Prepared(ctx.types, a, op, i1, op1, i2, op2);
            && Sim(ctx, a5, defs, d, env)
            && (TruncatesFirst(op) ==> CpuAt(ctx, a5).Get(Physical(i1)) == ToWord(env[op1]))
            && (TruncatesSecond(op) ==> CpuAt(ctx, a5).Get(Physical(i2)) == ToWord(env[op2]))
  {
    hide Sim, ToWord, IrTypes.IrType.InRange, TruncateCode, Physical, ExecuteAll, AllStraight;
    SimStraight(ctx, a, defs, d, env);
    PhysicalIsSlot(i1);
    PhysicalIsSlot(i2);
    if TruncatesFirst(op) {
      TruncateSim(ctx, a, defs, d, env, i1, op1);
      var a4 := a.Write(TruncateCode(TypeAt(ctx.types, op1), Physical(i1)));
      if TruncatesSecond(op) {
        SimStraight(ctx, a4, defs, d, env);
        TruncateSim(ctx, a4, defs, d, env, i2, op2);
        if i1 != i2 { PhysicalDistinct(i1, i2); }
      }
    }
  }

  lemma SimStraight(ctx: Context, a: Alloc, defs: seq<VRegId>, d: nat, env: Env)
    requires Sim(ctx, a, defs, d, env)
    ensures AllStraight(a.code) && d <= |defs|
  {
  }

  /** A binary instruction: exactly the operand pairs that keep their slots are simulated. */
  lemma BinarySim(ctx: Context, a: Alloc, defs: seq<VRegId>, d: nat, env: Env, i: Instruction) returns (d': nat)
    requires SimBlock(ctx, a, defs, d, env) && |defs| < ctx.limit
    requires i.opcode.IsBinary() && InstructionOk(ctx.types, defs, i)
    ensures Sim(ctx, LowerBinary(ctx.types, a, i), defs + [i.dest], d', env[i.dest := ResultOf(ctx.types, env, i)])
  {
    hide Sim, LoadSource, LoadDest, Resident, Prepared, OperationCode, EvalBinaryOp, ResultWord, SafeOperands;
    var all := defs + [i.dest];
    SimStraight(ctx, a, defs, d, env);
    BlockDefined(ctx, defs, env);
    SimWindow(ctx, a, defs, d, env);
    LoadDestSim(ctx, a, defs, d, env, i.dest);
    var (a1, i0) := LoadDest(ctx.types, a, i.dest);
    LoadSourceSim(ctx, a1, all, Min(d, 14) + 1, env, i.op1);
    var d2 := if Resident(a1, i.op1) then Min(d, 14) + 1 else 14;
    var (a2, i1) := LoadSource(ctx.types, a1, i.op1);
    LoadSourceSim(ctx, a2, all, d2, env, i.op2);
    d' := if Resident(a2, i.op2) then d2 else 14;
    var (a3, i2) := LoadSource(ctx.types, a2, i.op2);
    OperandsHeldIff(ctx.types, a, defs, d, i.dest, i.op1, i.op2);
    PrepareSim(ctx, a3, all, d', env, i.opcode, i1, i.op1, i2, i.op2);
    SimStraight(ctx, Prepared(ctx.types, a3, i.opcode, i1, i.op1, i2, i.op2), all, d', env);
    OperationSim(ctx, Prepared(ctx.types, a3, i.opcode, i1, i.op1, i2, i.op2), defs, d', env, i, i0, i1, i2);
    BinaryCode(ctx.types, a, i);
  }

  /** LowerBinary, written with its steps. */
  lemma BinaryCode(types: seq<IrType>, a: Alloc, i: Instruction)
    requires a.Valid() && i.opcode.IsBinary()
    ensures var (a3, i0, i1, i2) := LoadOperands(types, a, i.dest, i.op1, i.op2);
            Held(a3, i1, i.op1) && Held(a3, i2, i.op2) ==>
              LowerBinary(types, a, i) ==
              Prepared(types, a3, i.opcode, i1, i.op1, i2, i.op2)
              .Write(OperationCode(i.opcode, TypeAt(types, i.op1).IsSigned(), Physical(i0), Physical(i1), Physical(i2)))
  {
    hide LoadOperands, OperationCode, TruncateCode, Physical;
  }

  lemma BlockDefined(ctx: Context, defs: seq<VRegId>, env: Env)
    requires Covers(ctx.types, env, defs)
    ensures forall k :: 0 <= k < |defs| ==> defs[k] in env
    ensures forall v :: v in defs ==> v in env && TypeAt(ctx.types, v).InRange(env[v])
  {
  }

  lemma SimWindow(ctx: Context, a: Alloc, defs: seq<VRegId>, d: nat, env: Env)
    requires Sim(ctx, a, defs, d, env)
    ensures Window(a, defs, d) && forall v :: v in env ==> v in defs
  {
  }

  /** The operation itself, when the operands are prepared. */
  lemma OperationSim(ctx: Context, a: Alloc, defs: seq<VRegId>, d: nat, env: Env, i: Instruction,
                     i0: nat, i1: nat, i2: nat)
    requires a.Valid() && Sim(ctx, a, defs + [i.dest], d, env) && AllStraight(a.code)
    requires i0 < SLOT_COUNT && i1 < SLOT_COUNT && i2 < SLOT_COUNT
    requires Held(a, i0, i.dest) && Held(a, i1, i.op1) && Held(a, i2, i.op2)
    requires i.op1 in env && i.op2 in env && i.dest !in env
    requires TypeAt(ctx.types, i.op1).InRange(env[i.op1]) && TypeAt(ctx.types, i.op2).InRange(env[i.op2])
    requires i.opcode.IsBinary() && WellTyped(ctx.types, i)
    requires TruncatesFirst(i.opcode) ==> CpuAt(ctx, a).Get(Physical(i1)) == ToWord(env[i.op1])
    requires TruncatesSecond(i.opcode) ==> CpuAt(ctx, a).Get(Physical(i2)) == ToWord(env[i.op2])
    ensures var signed := TypeAt(ctx.types, i.op1).IsSigned();
            var code := OperationCode(i.opcode, signed, Physical(i0), Physical(i1), Physical(i2));
            Sim(ctx, a.Write(code), defs + [i.dest], d, env[i.dest := ResultOf(ctx.types, env, i)])
  {
    hide Sim, OperationCode, EvalBinaryOp, ResultWord, ToWord, Physical, ExecuteAll, AllStraight;
    hide IrTypes.IrType.InRange, IrTypes.IrType.Agrees;
    var all, cpu, t := defs + [i.dest], CpuAt(ctx, a), TypeAt(ctx.types, i.op1);
    var w1, w2 := cpu.Get(Physical(i1)), cpu.Get(Physical(i2));
    Agreement(ctx, a, all, d, env, i1, i.op1);
    Agreement(ctx, a, all, d, env, i2, i.op2);
    ResultAgrees(i.opcode, t, TypeAt(ctx.types, i.op2), TypeAt(ctx.types, i.dest), w1, w2, env[i.op1], env[i.op2]);
    PhysicalIsSlot(i0);
    ExecuteOperation(a.code, i.opcode, t.IsSigned(), Physical(i0), Physical(i1), Physical(i2), ctx.start);
    var code := OperationCode(i.opcode, t.IsSigned(), Physical(i0), Physical(i1), Physical(i2));
    var w := ResultWord(i.opcode, t.IsSigned(), w1, w2);
    WriteSim(ctx, a, all, d, env, code, i0, w);
    SetSet(cpu, Physical(i0), w, w);
    DefineSim(ctx, a.Write(code), defs, d, env, i0, i.dest, ResultOf(ctx.types, env, i));
  }

  /** A negation. */
  lemma NegSim(ctx: Context, a: Alloc, defs: seq<VRegId>, d: nat, env: Env, i: Instruction) returns (d': nat)
    requires SimBlock(ctx, a, defs, d, env) && |defs| < ctx.limit
    requires i.opcode.Neg? && InstructionOk(ctx.types, defs, i)
    ensures Sim(ctx, LowerNeg(ctx.types, a, i), defs + [i.dest], d', env[i.dest := ResultOf(ctx.types, env, i)])
  {
    hide Sim, LoadSource, LoadDest, Resident, Physical, Execute, AluResult, ExecuteAll, AllStraight;
    var a2, i0, i1;
    a2, i0, i1, d' := UnaryOperandSim(ctx, a, defs, d, env, i);
    var cpu := CpuAt(ctx, a2);
    var x := env[i.op1];
    Agreement(ctx, a2, defs + [i.dest], d', env, i1, i.op1);
    NegAgrees(TypeAt(ctx.types, i.op1), cpu.Get(Physical(i1)), x);
    var w := AluResult(SUB, 0, cpu.Get(Physical(i1)));
    ExecuteOne(a2.code, Alu(SUB, Physical(i0), ZERO, Physical(i1)), ctx.start);
    AluSets(cpu, SUB, Physical(i0), ZERO, Physical(i1));
    FinishSim(ctx, a2, defs, d', env, i, i0, [Alu(SUB, Physical(i0), ZERO, Physical(i1))], w);
  }

  lemma AluSets(c: Cpu, op: AluOp, rd: Reg, r1: Reg, r2: Reg)
    ensures Execute(Alu(op, rd, r1, r2), c) == c.Set(rd, AluResult(op, c.Get(r1), c.Get(r2)))
  {
    hide AluResult;
  }

  lemma ImmSets(c: Cpu, op: ImmOp, rd: Reg, r1: Reg, imm: int)
    ensures Execute(AluImm(op, rd, r1, imm), c) == c.Set(rd, ImmResult(op, c.Get(r1), imm))
    ensures Execute(Lui(rd, imm), c) == c.Set(rd, Upper(imm))
  {
    hide ImmResult, Upper;
  }

  /** The slots of a unary instruction; one operand is always safe. */
  lemma UnaryOperandSim(ctx: Context, a: Alloc, defs: seq<VRegId>, d: nat, env: Env, i: Instruction)
    returns (a2: Alloc, i0: nat, i1: nat, d': nat)
    requires SimBlock(ctx, a, defs, d, env) && |defs| < ctx.limit
    requires i.opcode.IsUnary() && InstructionOk(ctx.types, defs, i)
    ensures a.Valid() && a2.Valid() && i0 < SLOT_COUNT && i1 < SLOT_COUNT
    ensures i0 == LoadDest(ctx.types, a, i.dest).1
    ensures (a2, i1) == LoadSource(ctx.types, LoadDest(ctx.types, a, i.dest).0, i.op1)
    ensures Sim(ctx, a2, defs + [i.dest], d', env) && AllStraight(a2.code)
    ensures Held(a2, i0, i.dest) && Held(a2, i1, i.op1)
    ensures i.dest !in env && i.op1 in env && TypeAt(ctx.types, i.op1).InRange(env[i.op1])
    ensures Pending(defs + [i.dest], env) && (d' == SLOT_COUNT ==> |defs| >= 14)
  {
    hide Sim, LoadSource, LoadDest, Resident, Recent;
    var all := defs + [i.dest];
    SimStraight(ctx, a, defs, d, env);
    BlockDefined(ctx, defs, env);
    SimWindow(ctx, a, defs, d, env);
    LoadDestSim(ctx, a, defs, d, env, i.dest);
    var r := LoadDest(ctx.types, a, i.dest);
    var a1 := r.0;
    i0 := r.1;
    LoadSourceSim(ctx, a1, all, Min(d, 14) + 1, env, i.op1);
    d' := if Resident(a1, i.op1) then Min(d, 14) + 1 else 14;
    var s := LoadSource(ctx.types, a1, i.op1);
    a2, i1 := s.0, s.1;
    SimStraight(ctx, a2, all, d', env);
    assert SafeOperands(defs, i.op1, i.op1);
    OperandsHeldIff(ctx.types, a, defs, d, i.dest, i.op1, i.op1);
    SimWindow(ctx, a2, all, d', env);
    LoadSourceFound(ctx.types, a2, all, d', i.op1, i1);
  }

  /** The last step of an instruction: code that sets the result register to a word that agrees. */
  lemma FinishSim(ctx: Context, a: Alloc, defs: seq<VRegId>, d: nat, env: Env, i: Instruction, i0: nat,
                  code: seq<Instr>, w: Word)
    requires a.Valid() && Sim(ctx, a, defs + [i.dest], d, env) && AllStraight(a.code) && AllStraight(a.code + code)
    requires i0 < SLOT_COUNT && Held(a, i0, i.dest) && i.dest !in env
    requires ExecuteAll(a.code + code, ctx.start) == CpuAt(ctx, a).Set(Physical(i0), w)
    requires TypeAt(ctx.types, i.dest).Agrees(w, ResultOf(ctx.types, env, i))
    ensures Sim(ctx, a.Write(code), defs + [i.dest], d, env[i.dest := ResultOf(ctx.types, env, i)])
  {
    hide Sim, Physical, ExecuteAll, AllStraight, IrTypes.IrType.Agrees, ResultOf;
    PhysicalIsSlot(i0);
    WriteSim(ctx, a, defs + [i.dest], d, env, code, i0, w);
    SetSet(CpuAt(ctx, a), Physical(i0), w, w);
    DefineSim(ctx, a.Write(code), defs, d, env, i0, i.dest, ResultOf(ctx.types, env, i));
  }

  /** A constant. */
  lemma LoadImmSim(ctx: Context, a: Alloc, defs: seq<VRegId>, d: nat, env: Env, i: Instruction) returns (d': nat)
    requires SimBlock(ctx, a, defs, d, env) && |defs| < ctx.limit
    requires i.opcode.LoadImm? && InstructionOk(ctx.types, defs, i)
    ensures Sim(ctx, LowerLoadImm(ctx.types, a, i), defs + [i.dest], d', env[i.dest := ResultOf(ctx.types, env, i)])
  {
    hide Sim, LoadDest, Physical, LoadImmCode, ExecuteAll, AllStraight, IrTypes.IrType.Wrap, IrTypes.IrType.Agrees;
    d' := Min(d, 14) + 1;
    BlockDefined(ctx, defs, env);
    SimWindow(ctx, a, defs, d, env);
    LoadDestSim(ctx, a, defs, d, env, i.dest);
    var (a1, i0) := LoadDest(ctx.types, a, i.dest);
    SimStraight(ctx, a1, defs + [i.dest], d', env);
    PhysicalIsSlot(i0);
    ExecuteLoadImm(a1.code, Physical(i0), i.data, ctx.start);
    WordAgrees(TypeAt(ctx.types, i.dest), i.data);
    FinishSim(ctx, a1, defs, d', env, i, i0, LoadImmCode(Physical(i0), i.data), ToWord(i.data));
  }

  /** A complement: an immediate mask for 8 and 32 bits, a scratch register for 16. */
  lemma BitNotSim(ctx: Context, a: Alloc, defs: seq<VRegId>, d: nat, env: Env, i: Instruction) returns (d': nat)
    requires SimBlock(ctx, a, defs, d, env) && |defs| < ctx.limit
    requires i.opcode.BitNot? && InstructionOk(ctx.types, defs, i)
    ensures Sim(ctx, LowerBitNot(ctx.types, a, i), defs + [i.dest], d', env[i.dest := ResultOf(ctx.types, env, i)])
  {
    hide Sim, LoadSource, LoadDest, GetEmptySlot, FlipMask, Recent;
    var a2, i0, i1;
    a2, i0, i1, d' := UnaryOperandSim(ctx, a, defs, d, env, i);
    var t := TypeAt(ctx.types, i.op1);
    FlipMaskExact(t);
    if t.Size() == 2 {
      SimWindow(ctx, a, defs, d, env);
      ScratchHeldIff(ctx.types, a, defs, d, i.dest, i.op1);
      var (a3, scratch) := GetEmptySlot(ctx.types, a2);
      EmptySlotSim(ctx, a2, defs + [i.dest], d', env);
      d' := Min(d', 14);
      SimStraight(ctx, a3, defs + [i.dest], d', env);
      ScratchComplementSim(ctx, a3, defs, d', env, i, i0, i1, scratch);
    } else {
      MaskComplementSim(ctx, a2, defs, d', env, i, i0, i1);
    }
  }

  lemma MaskComplementSim(ctx: Context, a: Alloc, defs: seq<VRegId>, d: nat, env: Env, i: Instruction, i0: nat, i1: nat)
    requires a.Valid() && Sim(ctx, a, defs + [i.dest], d, env) && AllStraight(a.code)
    requires i0 < SLOT_COUNT && i1 < SLOT_COUNT && Held(a, i0, i.dest) && Held(a, i1, i.op1)
    requires i.dest !in env && i.op1 in env && i.opcode.BitNot? && WellTyped(ctx.types, i)
    requires FlipMask(TypeAt(ctx.types, i.op1)) <= I_TYPE_IMMEDIATE_MAX_SIZE
    ensures var code := [AluImm(XORI, Physical(i0), Physical(i1), FlipMask(TypeAt(ctx.types, i.op1)))];
            Sim(ctx, a.Write(code), defs + [i.dest], d, env[i.dest := ResultOf(ctx.types, env, i)])
  {
    hide Sim, Physical, ExecuteAll, AllStraight, FlipMask, XorWord, Execute, SignExtend12, ToWord;
    hide IrTypes.IrType.Wrap, IrTypes.IrType.Agrees;
    var t, cpu := TypeAt(ctx.types, i.op1), CpuAt(ctx, a);
    var w1 := cpu.Get(Physical(i1));
    Agreement(ctx, a, defs + [i.dest], d, env, i1, i.op1);
    FlipMaskExact(t);
    ComplementAgrees(t, w1, env[i.op1]);
    var instr := AluImm(XORI, Physical(i0), Physical(i1), FlipMask(t));
    ExecuteOne(a.code, instr, ctx.start);
    ImmSets(cpu, XORI, Physical(i0), Physical(i1), FlipMask(t));
    FinishSim(ctx, a, defs, d, env, i, i0, [instr], XorWord(w1, t.Modulus() - 1));
  }

  lemma ScratchComplementSim(ctx: Context, a: Alloc, defs: seq<VRegId>, d: nat, env: Env, i: Instruction,
                             i0: nat, i1: nat, scratch: nat)
    requires a.Valid() && Sim(ctx, a, defs + [i.dest], d, env) && AllStraight(a.code)
    requires i0 < SLOT_COUNT && i1 < SLOT_COUNT && scratch < SLOT_COUNT
    requires Held(a, i0, i.dest) && Held(a, i1, i.op1) && !a.slots[scratch].occupied
    requires i.dest !in env && i.op1 in env && i.opcode.BitNot? && WellTyped(ctx.types, i)
    ensures var mask, s := FlipMask(TypeAt(ctx.types, i.op1)), Physical(scratch);
            Sim(ctx, a.Write([Lui(s, mask)]).Write([AluImm(ADDI, s, s, mask)])
                      .Write([Alu(XOR, Physical(i0), s, Physical(i1))]),
                defs + [i.dest], d, env[i.dest := ResultOf(ctx.types, env, i)])
  {
    hide Sim, Physical, ExecuteAll, AllStraight, FlipMask, XorWord, Execute, SignExtend12, Upper, ToWord;
    hide IrTypes.IrType.Wrap, IrTypes.IrType.Agrees, ResultOf;
    var all, t, cpu, s := defs + [i.dest], TypeAt(ctx.types, i.op1), CpuAt(ctx, a), Physical(scratch);
    var mask := FlipMask(t);
    PhysicalIsSlot(scratch);
    ExecuteOne(a.code, Lui(s, mask), ctx.start);
    ImmSets(cpu, ADDI, s, s, mask);
    WriteSim(ctx, a, all, d, env, [Lui(s, mask)], scratch, Upper(mask));
    var a1 := a.Write([Lui(s, mask)]);
    var c1 := CpuAt(ctx, a1);
    SetSet(cpu, s, Upper(mask), Upper(mask));
    ExecuteOne(a1.code, AluImm(ADDI, s, s, mask), ctx.start);
    ImmSets(c1, ADDI, s, s, mask);
    FlipMaskExact(t);
    WriteSim(ctx, a1, all, d, env, [AluImm(ADDI, s, s, mask)], scratch, t.Modulus() - 1);
    var a2 := a1.Write([AluImm(ADDI, s, s, mask)]);
    SetSet(c1, s, t.Modulus() - 1, t.Modulus() - 1);
    ScratchXorSim(ctx, a2, defs, d, env, i, i0, i1, s);
  }

  lemma ScratchXorSim(ctx: Context, a: Alloc, defs: seq<VRegId>, d: nat, env: Env, i: Instruction,
                      i0: nat, i1: nat, s: Reg)
    requires a.Valid() && Sim(ctx, a, defs + [i.dest], d, env) && AllStraight(a.code)
    requires i0 < SLOT_COUNT && i1 < SLOT_COUNT && Held(a, i0, i.dest) && Held(a, i1, i.op1)
    requires i.dest !in env && i.op1 in env && i.opcode.BitNot? && WellTyped(ctx.types, i)
    requires CpuAt(ctx, a).Get(s) == TypeAt(ctx.types, i.op1).Modulus() - 1
    ensures Sim(ctx, a.Write([Alu(XOR, Physical(i0), s, Physical(i1))]), defs + [i.dest], d,
                env[i.dest := ResultOf(ctx.types, env, i)])
  {
    hide Sim, Physical, ExecuteAll, AllStraight, XorWord, Execute, IrTypes.IrType.Wrap, IrTypes.IrType.Agrees;
    var t, cpu := TypeAt(ctx.types, i.op1), CpuAt(ctx, a);
    var w1 := cpu.Get(Physical(i1));
    Agreement(ctx, a, defs + [i.dest], d, env, i1, i.op1);
    ComplementAgrees(t, w1, env[i.op1]);
    ExecuteOne(a.code, Alu(XOR, Physical(i0), s, Physical(i1)), ctx.start);
    AluSets(cpu, XOR, Physical(i0), s, Physical(i1));
    FinishSim(ctx, a, defs, d, env, i, i0, [Alu(XOR, Physical(i0), s, Physical(i1))], XorWord(t.Modulus() - 1, w1));
  }

  // ---- blocks ------------------------------------------------------------------------------

  /** Any instruction. */
  lemma InstructionSim(ctx: Context, a: Alloc, defs: seq<VRegId>, d: nat, env: Env, i: Instruction) returns (d': nat)
    requires SimBlock(ctx, a, defs, d, env) && |defs| < ctx.limit && InstructionOk(ctx.types, defs, i)
    ensures Handled(i.opcode)
    ensures Sim(ctx, LowerInstruction(ctx.types, a, i), defs + [i.dest], d', env[i.dest := ResultOf(ctx.types, env, i)])
  {
    hide Sim, ResultOf, LowerLoadImm, LowerNeg, LowerBitNot, LowerBinary, SafeOperands, SafeComplement;
    if i.opcode.LoadImm? {
      d' := LoadImmSim(ctx, a, defs, d, env, i);
    } else if i.opcode.Neg? {
      d' := NegSim(ctx, a, defs, d, env, i);
    } else if i.opcode.BitNot? {
      d' := BitNotSim(ctx, a, defs, d, env, i);
    } else {
      d' := BinarySim(ctx, a, defs, d, env, i);
    }
  }

  /** The refinement: a block that is fit for the back end lowers without an error, and the lowered code
      leaves every register of the block in a slot or on the stack, agreeing with its value. */
  lemma {:induction false} BlockSim(ctx: Context, a: Alloc, instrs: seq<Instruction>) returns (d: nat)
    requires a.Valid() && Sim(ctx, a, [], 0, map[])
    requires BlockOk(ctx.types, instrs) && |instrs| <= ctx.limit
    ensures LowerBlock(ctx.types, a, instrs).Ok?
    ensures SimBlock(ctx, LowerBlock(ctx.types, a, instrs).value, Dests(instrs), d, Run(ctx.types, instrs))
    decreases |instrs|
  {
    hide Sim, ResultOf, LowerInstruction, InstructionOk, Covers, Dests;
    RunDefines(ctx.types, instrs);
    if instrs == [] {
      d := 0;
      EmptyDests();
    } else {
      var prefix, i := instrs[..|instrs| - 1], instrs[|instrs| - 1];
      assert instrs == prefix + [i];
      AppendInstruction(ctx.types, prefix, i);
      var d0 := BlockSim(ctx, a, prefix);
      assert |Dests(prefix)| == |prefix|;
      d := InstructionSim(ctx, LowerBlock(ctx.types, a, prefix).value, Dests(prefix), d0, Run(ctx.types, prefix), i);
    }
  }

  lemma EmptyDests()
    ensures Dests([]) == []
  {
  }
}
