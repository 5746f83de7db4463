/** Running a lowered function: it returns to its caller with the right value and leaves no trace. */
module FunctionCorrectness {
  import opened Words
  import opened Results
  import opened IrTypes
  import opened Riscv
  import opened Encoding
  import opened Text
  import opened Ir
  import opened IrSemantics
  import opened Allocator
  import opened Lowering
  import opened LoweredValues
  import opened Simulation
  import opened Instructions
  import opened Frame
  import opened FrameLayout

  // ---- the body ----------------------------------------------------------------------------

  lemma InitialSim(ctx: Context, slots: seq<Slot>)
    requires ctx.Ok() && |slots| == SLOT_COUNT
    ensures Sim(ctx, Initial(slots), [], 0, map[])
  {
  }

  /** The returned value ends up in a0, in its canonical form. */
  lemma ReturnValueSim(ctx: Context, a: Alloc, defs: seq<VRegId>, d: nat, env: Env, v: VRegId) returns (d': nat)
    requires SimBlock(ctx, a, defs, d, env) && v in defs
    ensures var a' := LowerReturnValue(ctx.types, a, v);
            && Window(a', defs, d') && AllStraight(a'.code)
            && CpuAt(ctx, a').Get(A0) == ToWord(env[v])
            && Preserved(ctx.start, CpuAt(ctx, a'), ctx.Fp() - 4 * (|a'.spills| + 3), ctx.Fp() - 12)
  {
    hide Sim, LoadSource, Resident, TruncateCode, Execute, Preserved, ToWord, IrTypes.IrType.InRange, Window;
    hide ExecuteAll, AllStraight;
    BlockDefined(ctx, defs, env);
    LoadSourceSim(ctx, a, defs, d, env, v);
    d' := if Resident(a, v) then d else 14;
    var (a1, i) := LoadSource(ctx.types, a, v);
    var t := TypeAt(ctx.types, v);
    TruncateSim(ctx, a1, defs, d', env, i, v);
    var a2 := a1.Write(TruncateCode(t, Physical(i)));
    SimParts(ctx, a1, defs, d', env);
    SimParts(ctx, a2, defs, d', env);
    PhysicalIsSlot(i);
    SetSet(CpuAt(ctx, a1), Physical(i), ToWord(env[v]), 0);
    ExecuteOne(a2.code, AluImm(ADDI, A0, Physical(i), 0), ctx.start);
    ImmSets(CpuAt(ctx, a2), ADDI, A0, Physical(i), 0);
    AddZero(ToWord(env[v]));
    assert Physical(7) == A0;
    SetSet(CpuAt(ctx, a2), A0, ToWord(env[v]), 0);
    SetPreserves(ctx.start, CpuAt(ctx, a2), 7, ToWord(env[v]), ctx.Fp() - 4 * (|a2.spills| + 3), ctx.Fp() - 12);
    WindowIgnoresCode(a2, a2.Write([AluImm(ADDI, A0, Physical(i), 0)]), defs, d');
  }

  /** Sixteen constants. */
  function SixteenLoads(): seq<Instruction> {
    seq(16, i requires 0 <= i < 16 => Instruction(LoadImm, i, NO_VREG, NO_VREG, i))
  }

  const SUM := Instruction(Op.Add, 16, 0, 1, 0)

  /** The code of the sum uses one register for both operands, and leaves 2 in the register of the result. */
  ghost predicate AddsOneTwice(types: seq<IrType>, a: Alloc, start: Cpu)
    requires a.Valid()
  {
    var (a3, i0, i1, i2) := LoadOperands(types, a, 16, 0, 1);
    var b := LowerInstruction(types, a, SUM);
    i1 == i2 && Held(b, i0, 16) && AllStraight(b.code) && ExecuteAll(b.code, start).Get(Physical(i0)) == 2
  }

  /** Why the shape of the IR matters: the sum of the first two of sixteen constants is compiled wrongly,
      although the block is well typed and reads only what it has defined. Both operands are in one
      register, and the register of the result holds 2 where the sum is 1. */
  lemma SumOfOldConstants(slots: seq<Slot>, start: Cpu)
    requires |slots| == SLOT_COUNT && 76 <= start.Get(FP)
    ensures var types: seq<IrType> := seq(17, _ => U32);
            var a := LowerBlock(types, Initial(slots), SixteenLoads());
            && BlockOk(types, SixteenLoads()) && WellTyped(types, SUM)
            && 16 in Run(types, SixteenLoads() + [SUM]) && Run(types, SixteenLoads() + [SUM])[16] == 1
            && a.Ok? && AddsOneTwice(types, a.value, start)
  {
    hide Sim, LowerBlock, Recent, Run, AddsOneTwice, BlockOk, WellTyped, CountsTo, Covers;
    var types: seq<IrType>, loads := seq(17, _ => U32), SixteenLoads();
    var ctx := Context(types, start, 17);
    InitialSim(ctx, slots);
    LoadsOk(16);
    assert loads[..16] == loads;
    var d := BlockSim(ctx, Initial(slots), loads);
    var a, defs, env := LowerBlock(types, Initial(slots), loads).value, Dests(loads), Run(types, loads);
    assert defs[0] == 0 && defs[1] == 1;
    OldOnes(defs);
    RunLoads(16);
    SumIsOne(types);
    OneIsOne(env, 16);
    SumExecuted(ctx, a, defs, d, env);
  }

  lemma SumIsOne(types: seq<IrType>)
    requires types == seq(17, _ => U32) && CountsTo(Run(types, SixteenLoads()), 16)
    ensures WellTyped(types, SUM)
    ensures 16 in Run(types, SixteenLoads() + [SUM]) && Run(types, SixteenLoads() + [SUM])[16] == 1
  {
    hide Run;
    AppendInstruction(types, SixteenLoads(), SUM);
  }

  lemma OneIsOne(env: Env, n: nat)
    requires CountsTo(env, n) && n > 1
    ensures 1 in env && env[1] == 1
  {
  }

  lemma SumExecuted(ctx: Context, a: Alloc, defs: seq<VRegId>, d: nat, env: Env)
    requires ctx.types == seq(17, _ => U32) && ctx.limit == 17 && |defs| == 16
    requires SimBlock(ctx, a, defs, d, env) && 16 !in defs && 0 in defs && 1 in defs && 1 in env && env[1] == 1
    requires !Recent(defs, 0, 14) && !Recent(defs, 1, 14)
    ensures AddsOneTwice(ctx.types, a, ctx.start)
  {
    hide Sim, Recent, ExecuteAll, AllStraight, Covers, Physical, AluResult, Cpu.Get, Cpu.Set, LoadOperands;
    hide OperationCode, LowerInstruction, Window;
    SimParts(ctx, a, defs, d, env);
    OldPairCollides(ctx.types, a, defs, d, 16, 0, 1);
    var (a3, i0, i1, i2) := LoadOperands(ctx.types, a, 16, 0, 1);
    SecondOperandIsOne(ctx, a, defs, d, env);
    var p, q := Physical(i0), Physical(i2);
    assert LowerInstruction(ctx.types, a, SUM) == a3.Write([Alu(ADD, p, q, q)]) by { SumCode(ctx.types, a); }
    ExecuteOne(a3.code, Alu(ADD, p, q, q), ctx.start);
    AluSets(CpuAt(ctx, a3), ADD, p, q, q);
    PhysicalIsSlot(i0);
    OnePlusOne();
    SetSet(CpuAt(ctx, a3), p, 2, 0);
  }

  lemma SumCode(types: seq<IrType>, a: Alloc)
    requires a.Valid()
    ensures var (a3, i0, i1, i2) := LoadOperands(types, a, 16, 0, 1);
            LowerInstruction(types, a, SUM) == a3.Write([Alu(ADD, Physical(i0), Physical(i1), Physical(i2))])
  {
    hide LoadOperands;
  }

  /** Placed last, the second operand is where it should be. */
  lemma SecondOperandIsOne(ctx: Context, a: Alloc, defs: seq<VRegId>, d: nat, env: Env)
    requires ctx.types == seq(17, _ => U32) && ctx.limit == 17 && |defs| == 16
    requires SimBlock(ctx, a, defs, d, env) && 16 !in defs && 0 in defs && 1 in defs && 1 in env && env[1] == 1
    ensures var (a3, i0, i1, i2) := LoadOperands(ctx.types, a, 16, 0, 1);
            AllStraight(a3.code) && CpuAt(ctx, a3).Get(Physical(i2)) == 1
  {
    hide Sim, LoadDest, LoadSource, ExecuteAll, AllStraight, Covers, Resident, Physical, Pending, Cpu.Get;
    BlockDefined(ctx, defs, env);
    LoadDestSim(ctx, a, defs, d, env, 16);
    var (a1, i0) := LoadDest(ctx.types, a, 16);
    var all, d1 := defs + [16], Min(d, 14) + 1;
    LoadSourceSim(ctx, a1, all, d1, env, 0);
    var (a2, i1) := LoadSource(ctx.types, a1, 0);
    var d2 := if Resident(a1, 0) then d1 else 14;
    LoadSourceSim(ctx, a2, all, d2, env, 1);
    var (a3, i2) := LoadSource(ctx.types, a2, 1);
    var d3 := if Resident(a2, 1) then d2 else 14;
    Agreement(ctx, a3, all, d3, env, i2, 1);
    SimParts(ctx, a3, all, d3, env);
    FullWordAgrees(CpuAt(ctx, a3).Get(Physical(i2)));
  }

  lemma FullWordAgrees(w: Word)
    requires U32.Agrees(w, 1)
    ensures w == 1
  {
  }

  lemma OnePlusOne()
    ensures AluResult(ADD, 1, 1) == 2
  {
  }

  /** The first n registers hold their own numbers. */
  predicate CountsTo(env: Env, n: nat) {
    forall k: VRegId :: k < n ==> k in env && env[k] == k
  }

  lemma {:induction false} RunLoads(n: nat)
    requires n <= 16
    ensures CountsTo(Run(seq(17, _ => U32), SixteenLoads()[..n]), n)
  {
    hide Run;
    if n == 0 {
    } else {
      RunLoads(n - 1);
      var prefix, i := SixteenLoads()[..n - 1], SixteenLoads()[n - 1];
      assert SixteenLoads()[..n] == prefix + [i];
      AppendInstruction(seq(17, _ => U32), prefix, i);
      assert U32.Wrap(n - 1) == n - 1;
    }
  }

  lemma OldOnes(defs: seq<VRegId>)
    requires |defs| == 16 && forall k :: 0 <= k < 16 ==> defs[k] == k
    ensures !Recent(defs, 0, 14) && !Recent(defs, 1, 14) && 16 !in defs && 0 in defs && 1 in defs
  {
    assert defs[0] == 0 && defs[1] == 1;
  }

  lemma {:induction false} LoadsOk(n: nat)
    requires n <= 16
    ensures BlockOk(seq(17, _ => U32), SixteenLoads()[..n])
  {
    if n == 0 {
    } else {
      LoadsOk(n - 1);
      var prefix, i := SixteenLoads()[..n - 1], SixteenLoads()[n - 1];
      assert SixteenLoads()[..n] == prefix + [i];
      AppendInstruction(seq(17, _ => U32), prefix, i);
    }
  }

  lemma AddZero(w: Word)
    ensures ImmResult(ADDI, w, 0) == w
  {
  }

  lemma SimParts(ctx: Context, a: Alloc, defs: seq<VRegId>, d: nat, env: Env)
    requires Sim(ctx, a, defs, d, env)
    ensures Window(a, defs, d) && AllStraight(a.code)
    ensures Preserved(ctx.start, CpuAt(ctx, a), ctx.Fp() - 4 * (|a.spills| + 3), ctx.Fp() - 12)
  {
  }

  lemma WindowIgnoresCode(a: Alloc, b: Alloc, defs: seq<VRegId>, d: nat)
    requires Window(a, defs, d) && b.slots == a.slots && b.spills == a.spills && b.next == a.next
    ensures Window(b, defs, d)
  {
  }

  /** A block that the back end can be trusted with, and that ends the function. */
  predicate Finishes(types: seq<IrType>, entry: BasicBlock) {
    && BlockOk(types, entry.instructions) && entry.terminator.Return?
    && (entry.terminator.value.Some? ==> entry.terminator.value.value in Dests(entry.instructions))
  }

  /** What a block that ends a function leaves in a0: the returned value, in its canonical form; a block that
      only returns leaves a0 as it was. */
  predicate Answers(types: seq<IrType>, entry: BasicBlock, before: Word, after: Word)
    requires entry.terminator.Return?
  {
    match entry.terminator.value
    case Some(v) => v in Run(types, entry.instructions) && after == ToWord(Run(types, entry.instructions)[v])
    case None => entry.instructions == [] ==> after == before
  }

  /** The body up to its jump: it lowers, runs straight through, answers in a0, and changes nothing but slot
      registers and the frame. */
  lemma BodyCorrect(ctx: Context, slots: seq<Slot>, entry: BasicBlock)
    requires ctx.Ok() && |slots| == SLOT_COUNT && |entry.instructions| <= ctx.limit && Finishes(ctx.types, entry)
    ensures LowerToReturn(ctx.types, Initial(slots), entry).Ok?
    ensures var a := LowerToReturn(ctx.types, Initial(slots), entry).value;
            && AllStraight(a.code)
            && Answers(ctx.types, entry, ctx.start.Get(10), CpuAt(ctx, a).Get(10))
            && Preserved(ctx.start, CpuAt(ctx, a), ctx.Fp() - PaddedStackSize(|entry.instructions|), ctx.Fp() - 12)
            && |AfterReturn(ctx.types, a).spills| == |entry.instructions|
  {
    hide Sim, LowerBlock, LowerReturnValue, Preserved, ToWord, Window, ExecuteAll, AllStraight, SpillDirty;
    hide BlockOk, Run, PaddedStackSize, Cpu.Get, SlotsDistinct, IrTypes.IrType.InRange;
    InitialSim(ctx, slots);
    var d := BlockSim(ctx, Initial(slots), entry.instructions);
    var defs, env := Dests(entry.instructions), Run(ctx.types, entry.instructions);
    var a1 := LowerBlock(ctx.types, Initial(slots), entry.instructions).value;
    BlockDefined(ctx, defs, env);
    var a, d' := a1, d;
    if entry.terminator.value.Some? {
      d' := ReturnValueSim(ctx, a1, defs, d, env, entry.terminator.value.value);
      a := LowerReturnValue(ctx.types, a1, entry.terminator.value.value);
    } else {
      SimParts(ctx, a1, defs, d, env);
      if entry.instructions == [] { NothingExecuted(ctx, slots); }
    }
    ReachedSlotsFit(a, defs, d');
    var low := ctx.Fp() - PaddedStackSize(|defs|);
    PreservedWider(ctx.start, CpuAt(ctx, a), ctx.Fp() - 4 * (|a.spills| + 3), low, ctx.Fp() - 12);
    WindowIgnoresCode(a, a.Write([Jal(ZERO, 0)]), defs, d');
    SpillAccounting(ctx.types, a.Write([Jal(ZERO, 0)]), defs, d');
  }

  lemma NothingExecuted(ctx: Context, slots: seq<Slot>)
    requires |slots| == SLOT_COUNT
    ensures LowerBlock(ctx.types, Initial(slots), []) == Ok(Initial(slots))
    ensures AllStraight(Initial(slots).code) && CpuAt(ctx, Initial(slots)) == ctx.start
  {
  }

  lemma PreservedWider(start: Cpu, cpu: Cpu, low: int, low': int, high: int)
    requires Preserved(start, cpu, low, high) && low' <= low
    ensures Preserved(start, cpu, low', high)
  {
  }

  // ---- prologue and epilogue ---------------------------------------------------------------

  lemma SmallImmediate(x: int)
    requires -2048 <= x < 2048
    ensures SignExtend12(x) == x
  {
  }

  lemma ExecuteFour(i: Instr, j: Instr, k: Instr, l: Instr, c: Cpu)
    requires i.Straight() && j.Straight() && k.Straight() && l.Straight()
    ensures AllStraight([i, j, k]) && ExecuteAll([i, j, k], c) == Execute(k, Execute(j, Execute(i, c)))
    ensures AllStraight([i, j, k, l])
    ensures ExecuteAll([i, j, k, l], c) == Execute(l, Execute(k, Execute(j, Execute(i, c))))
  {
    hide Execute;
    ExecuteTwo([], i, j, c);
    assert [] + [i, j] == [i, j];
    ExecuteOne([i, j], k, c);
    assert [i, j] + [k] == [i, j, k];
    ExecuteOne([i, j, k], l, c);
    assert [i, j, k] + [l] == [i, j, k, l];
  }

  /** The prologue moves sp (x2) down, sets fp (x8) to the old sp, and saves ra (x1) and fp above the stack
      slots. */
  lemma PrologueEffect(c: Cpu, size: nat)
    requires 16 <= size <= 2047 && size <= c.Get(2)
    ensures AllStraight(Prologue(size))
    ensures var sp, c1 := c.Get(2), ExecuteAll(Prologue(size), c);
            && c1.Get(2) == sp - size && c1.Get(8) == sp
            && (forall r: Reg :: r != 2 && r != 8 ==> c1.Get(r) == c.Get(r))
            && Read(c1.mem, sp - 4, 4) == c.Get(1) && Read(c1.mem, sp - 8, 4) == c.Get(8)
            && (forall b: Word :: b < sp - 8 || sp <= b ==> ReadByte(c1.mem, b) == ReadByte(c.mem, b))
  {
    hide Read, Write, ReadByte, SignExtend12;
    var sp, p := c.Get(SP), Prologue(size);
    SmallImmediate(-(size as int));
    SmallImmediate(size);
    SmallImmediate(size - 4);
    SmallImmediate(size - 8);
    ExecuteFour(p[0], p[1], p[2], p[3], c);
    WordIsWord(sp - size);
    WordIsWord(sp - 4);
    WordIsWord(sp - 8);
    WordIsWord(sp);
    var m1 := Write(c.mem, sp - 4, 4, c.Get(RA));
    var c2 := Execute(p[1], Execute(p[0], c));
    assert c2 == Cpu(c.Set(SP, sp - size).regs, m1);
    var m2 := Write(m1, sp - 8, 4, c.Get(FP));
    assert Execute(p[2], c2) == Cpu(c2.regs, m2);
    ReadBack(c.mem, sp - 4, 4, c.Get(RA));
    ReadOther(m1, sp - 8, 4, c.Get(FP), sp - 4, 4);
    ReadBack(m1, sp - 8, 4, c.Get(FP));
    forall b: Word | b < sp - 8 || sp <= b
      ensures ReadByte(m2, b) == ReadByte(c.mem, b)
    {
      ReadByteOther(c.mem, sp - 4, 4, c.Get(RA), b);
      ReadByteOther(m1, sp - 8, 4, c.Get(FP), b);
    }
  }

  /** Exactly which frames are set up as they should be: for larger ones, the immediates do not fit. */
  lemma FrameSetUpIff(c: Cpu, size: nat)
    requires 16 <= size < 0x8000_0000 && size % 16 == 0 && size <= c.Get(2)
    ensures AllStraight(Prologue(size))
    ensures var c1 := ExecuteAll(Prologue(size), c);
            c1.Get(2) == c.Get(2) - size && c1.Get(8) == c.Get(2) <==> size <= 2047
  {
    hide Write, SignExtend12;
    var p := Prologue(size);
    ExecuteFour(p[0], p[1], p[2], p[3], c);
    Immediates(size);
    SpMoves(c.Get(2), size);
  }

  lemma Immediates(size: nat)
    requires 16 <= size && size % 16 == 0
    ensures SignExtend12(-(size as int)) == -(size as int) <==> size <= 2048
    ensures size <= 2047 ==> SignExtend12(size) == size
    ensures size == 2048 ==> SignExtend12(size) == -2048
    ensures SignExtend12(-(size as int)) >= -2048
  {
  }

  lemma SpMoves(sp: Word, size: nat)
    requires 16 <= size <= sp && size < 0x8000_0000
    ensures ToWord(sp + SignExtend12(-(size as int))) == sp - size <==> SignExtend12(-(size as int)) == -(size as int)
    ensures ToWord(ToWord(sp - size) + size) == sp && (size == 2048 ==> ToWord(ToWord(sp - size) - 2048) != sp)
  {
    hide SignExtend12;
    var x := sp + SignExtend12(-(size as int));
    if 0 <= x < 0x1_0000_0000 {
      WordIsWord(x);
    } else if x < 0 {
      ModAdd(x, 1, 0x1_0000_0000);
      WordIsWord(x + 0x1_0000_0000);
    } else {
      ModAdd(x, -1, 0x1_0000_0000);
      WordIsWord(x - 0x1_0000_0000);
    }
    WordIsWord(sp - size);
    WordIsWord(sp);
  }

  /** The epilogue restores sp (x2), fp (x8) and ra (x1) from fp and the two saved words. */
  lemma RestoreEffect(c: Cpu, ra: Word, fp: Word)
    requires 8 <= c.Get(8) && Read(c.mem, c.Get(8) - 4, 4) == ra && Read(c.mem, c.Get(8) - 8, 4) == fp
    ensures AllStraight(RESTORE)
    ensures var c3 := ExecuteAll(RESTORE, c);
            && c3.Get(2) == c.Get(8) && c3.Get(8) == fp && c3.Get(1) == ra
            && (forall r: Reg :: r != 2 && r != 8 && r != 1 ==> c3.Get(r) == c.Get(r))
            && c3.mem == c.mem
  {
    hide Read, SignExtend12;
    var sp := c.Get(FP);
    SmallImmediate(0);
    SmallImmediate(-4);
    SmallImmediate(-8);
    WordIsWord(sp);
    WordIsWord(sp - 4);
    WordIsWord(sp - 8);
    ExecuteFour(RESTORE[0], RESTORE[1], RESTORE[2], RESTORE[2], c);
    var c1 := c.Set(SP, sp);
    assert Execute(RESTORE[0], c) == c1;
    var c2 := c1.Set(FP, fp);
    assert Execute(RESTORE[1], c1) == c2;
    assert Execute(RESTORE[2], c2) == c2.Set(RA, ra);
  }

  // ---- the whole function ------------------------------------------------------------------

  /** m' is back at the caller of m, in x1, with the value in x10. All registers but the caller-saved ones that
      the allocator uses are as before, and so is the memory outside the size bytes below the stack pointer,
      in x2. */
  ghost predicate Returned(m: Machine, m': Machine, size: nat, value: Word) {
    && m'.pc == m.cpu.Get(1) - m.cpu.Get(1) % 2
    && m'.cpu.Get(10) == value
    && Preserved(m.cpu, m'.cpu, m.cpu.Get(2) - size, m.cpu.Get(2))
  }

  lemma ContainsCode(text: seq<Byte>, offset: nat, a: seq<Instr>, b: seq<Instr>, c: seq<Instr>)
    requires Contains(text, offset, EncodeAll(a + b + c))
    ensures Contains(text, offset + 4 * |a|, EncodeAll(b))
  {
    hide Contains, Encode;
    EncodeAllConcat(a + b, c);
    EncodeAllConcat(a, b);
    ContainsPart(text, offset, EncodeAll(a), EncodeAll(b), EncodeAll(c));
  }

  /** The parts of a function's code. */
  datatype Parts = Parts(size: nat, straight: seq<Instr>, distance: nat, dead: seq<Instr>) {
    function Code(): seq<Instr> {
      Prologue(size) + (straight + [Jal(ZERO, distance)] + dead) + RESTORE + [RETURN]
    }

    predicate Valid() { distance == 4 * (1 + |dead|) && |dead| <= 21 }
  }

  function PartsOf(types: seq<IrType>, a2: Alloc): (p: Parts)
    requires a2.Valid()
    ensures p.Valid()
  {
    var a4 := AfterReturn(types, a2);
    Parts(PaddedStackSize(|a4.spills|), a2.code, JumpDistance(a4.code, |a2.code|), a4.code[|a2.code| + 1..])
  }

  /** Aiming the jump at the end of the body replaces one instruction. */
  lemma LowerFunctionParts(types: seq<IrType>, slots: seq<Slot>, entry: BasicBlock)
    requires |slots| == SLOT_COUNT && LowerToReturn(types, Initial(slots), entry).Ok?
    ensures var a2 := LowerToReturn(types, Initial(slots), entry).value;
            LowerFunction(types, slots, entry) == Ok(PartsOf(types, a2).Code())
  {
    hide LowerToReturn, AfterReturn, PaddedStackSize;
    var a2 := LowerToReturn(types, Initial(slots), entry).value;
    var a4 := AfterReturn(types, a2);
    var at, d := |a2.code|, JumpDistance(a4.code, |a2.code|);
    assert a2.code == a4.code[..at];
    assert a4.code[at := Jal(ZERO, d)] == a2.code + [Jal(ZERO, d)] + a4.code[at + 1..];
  }

  lemma CodeContained(text: seq<Byte>, offset: nat, p: Parts)
    requires Contains(text, offset, EncodeAll(p.Code())) && p.Valid()
    ensures Contains(text, offset, EncodeAll(Prologue(p.size)))
    ensures Contains(text, offset + 16, EncodeAll(p.straight))
    ensures Contains(text, offset + 16 + 4 * |p.straight|, EncodeAll([Jal(ZERO, p.distance)]))
    ensures var epilogue := offset + 16 + 4 * |p.straight| + p.distance;
            Contains(text, epilogue, EncodeAll(RESTORE)) && Contains(text, epilogue + 12, EncodeAll([RETURN]))
  {
    hide Contains, Encode, EncodeAll;
    var pro, jump := Prologue(p.size), [Jal(ZERO, p.distance)];
    var body := p.straight + jump + p.dead;
    var code := p.Code();
    assert |pro| == 4 && |RESTORE| == 3;
    assert code == [] + pro + (body + RESTORE + [RETURN]);
    ContainsCode(text, offset, [], pro, body + RESTORE + [RETURN]);
    assert code == pro + p.straight + (jump + p.dead + RESTORE + [RETURN]);
    ContainsCode(text, offset, pro, p.straight, jump + p.dead + RESTORE + [RETURN]);
    assert code == (pro + p.straight) + jump + (p.dead + RESTORE + [RETURN]);
    ContainsCode(text, offset, pro + p.straight, jump, p.dead + RESTORE + [RETURN]);
    assert code == (pro + body) + RESTORE + [RETURN];
    ContainsCode(text, offset, pro + body, RESTORE, [RETURN]);
    assert code == (pro + body + RESTORE) + [RETURN] + [];
    ContainsCode(text, offset, pro + body + RESTORE, [RETURN], []);
  }

  /** The patched jump lands on the first instruction of the epilogue. */
  lemma JumpLands(distance: nat, m: Machine)
    requires distance % 4 == 0 && distance <= 88 && m.pc + distance < 0x1_0000_0000
    ensures StepInstr(Jal(ZERO, distance), m) == Some(Machine(m.cpu, m.pc + distance))
  {
    hide JumpOffset;
    SmallJump(distance);
    WordIsWord(m.pc + distance);
  }

  lemma SmallJump(distance: nat)
    requires distance % 4 == 0 && distance <= 88
    ensures JumpOffset(distance) == distance
  {
  }

  lemma ReturnLands(m: Machine)
    ensures StepInstr(RETURN, m) == Some(Machine(m.cpu, m.cpu.Get(RA) - m.cpu.Get(RA) % 2))
  {
    SmallImmediate(0);
    WordIsWord(m.cpu.Get(RA));
  }

  /** Running code of that shape, when its straight part does what a body does. */
  lemma PartsRun(text: seq<Byte>, base: Word, offset: nat, p: Parts, m: Machine, value: Word)
    requires Placed(text, base) && offset % 4 == 0 && Contains(text, offset, EncodeAll(p.Code()))
    requires m.pc == base + offset && p.Valid() && 16 <= p.size <= 2047 && p.size <= m.cpu.Get(SP)
    requires AllStraight(Prologue(p.size)) && AllStraight(p.straight)
    requires var c1 := ExecuteAll(Prologue(p.size), m.cpu);
             var c2 := ExecuteAll(p.straight, c1);
             c2.Get(A0) == value && Preserved(c1, c2, c1.Get(FP) - p.size, c1.Get(FP) - 12)
    ensures exists m' ::
              RunSteps(text, base, m, 4 + |p.straight| + 1 + 3 + 1) == Some(m') && Returned(m, m', p.size, value)
  {
    hide Contains, EncodeAll, Encode, StepInstr, ExecuteAll, AllStraight, Prologue, Preserved, Step;
    CodeContained(text, offset, p);
    var c1 := ExecuteAll(Prologue(p.size), m.cpu);
    var c2 := ExecuteAll(p.straight, c1);
    PrologueLength(p.size);
    RunStraight(text, base, offset, Prologue(p.size), m);
    var m1 := Machine(c1, base + offset + 16);
    RunStraight(text, base, offset + 16, p.straight, m1);
    var m2 := Machine(c2, base + offset + 16 + 4 * |p.straight|);
    var jump, epilogue := offset + 16 + 4 * |p.straight|, offset + 16 + 4 * |p.straight| + p.distance;
    StepEncoded(text, base, jump, [Jal(ZERO, p.distance)], 0, m2);
    RestoreStraight();
    ContainsFits(text, base, epilogue, RESTORE);
    JumpLands(p.distance, m2);
    var m3 := Machine(c2, base + epilogue);
    RunStraight(text, base, epilogue, RESTORE, m3);
    var c3 := ExecuteAll(RESTORE, c2);
    var m4 := Machine(c3, base + epilogue + 12);
    StepEncoded(text, base, epilogue + 12, [RETURN], 0, m4);
    ReturnLands(m4);
    var m5 := Machine(c3, c3.Get(RA) - c3.Get(RA) % 2);
    OneStep(text, base, m2);
    OneStep(text, base, m4);
    RunAdd(text, base, m, 4, |p.straight|);
    RunAdd(text, base, m, 4 + |p.straight|, 1);
    RunAdd(text, base, m, 4 + |p.straight| + 1, 3);
    RunAdd(text, base, m, 4 + |p.straight| + 1 + 3, 1);
    PartsReturned(p, m, value, m5);
  }

  lemma PrologueLength(size: nat)
    ensures |Prologue(size)| == 4
  {
  }

  lemma RestoreStraight()
    ensures AllStraight(RESTORE) && |RESTORE| == 3
  {
  }

  lemma ContainsFits(text: seq<Byte>, base: Word, offset: nat, code: seq<Instr>)
    requires Placed(text, base) && Contains(text, offset, EncodeAll(code))
    ensures base + offset < 0x1_0000_0000
  {
  }

  lemma PartsReturned(p: Parts, m: Machine, value: Word, m': Machine)
    requires 16 <= p.size <= 2047 && p.size <= m.cpu.Get(SP)
    requires AllStraight(Prologue(p.size)) && AllStraight(p.straight) && AllStraight(RESTORE)
    requires var c1 := ExecuteAll(Prologue(p.size), m.cpu);
             var c2 := ExecuteAll(p.straight, c1);
             var c3 := ExecuteAll(RESTORE, c2);
             && c2.Get(A0) == value && Preserved(c1, c2, c1.Get(FP) - p.size, c1.Get(FP) - 12)
             && m' == Machine(c3, c3.Get(RA) - c3.Get(RA) % 2)
    ensures Returned(m, m', p.size, value)
  {
    hide ExecuteAll, Prologue, Read, ReadByte;
    var sp := m.cpu.Get(SP);
    var c1 := ExecuteAll(Prologue(p.size), m.cpu);
    var c2 := ExecuteAll(p.straight, c1);
    PrologueEffect(m.cpu, p.size);
    SavedWordKept(c1.mem, c2.mem, sp - 4, sp - 12);
    SavedWordKept(c1.mem, c2.mem, sp - 8, sp - 12);
    RestoreEffect(c2, m.cpu.Get(RA), m.cpu.Get(FP));
  }

  lemma SavedWordKept(m1: Mem, m2: Mem, a: Word, high: int)
    requires a + 4 <= 0x1_0000_0000 && high <= a
    requires forall b: Word :: high <= b ==> ReadByte(m2, b) == ReadByte(m1, b)
    ensures Read(m2, a, 4) == Read(m1, a, 4)
  {
    hide ReadByte;
    WordIsWord(a);
  }

  /** A function whose entry block is fit for the back end and returns: lowered, encoded and placed in a text,
      it runs from its entry to its caller with its answer in x10. Its frame discipline: sp, fp, ra and the
      callee-saved registers are restored, and no byte outside the frame is changed. */
  lemma FunctionRuns(text: seq<Byte>, base: Word, offset: nat, types: seq<IrType>, slots: seq<Slot>,
                     entry: BasicBlock, m: Machine) returns (value: Word)
    requires |slots| == SLOT_COUNT && Finishes(types, entry) && |entry.instructions| <= 506
    requires Placed(text, base) && offset % 4 == 0 && m.pc == base + offset
    requires PaddedStackSize(|entry.instructions|) <= m.cpu.Get(2)
    ensures Answers(types, entry, m.cpu.Get(10), value)
    ensures LowerFunction(types, slots, entry).Ok?
    ensures Contains(text, offset, EncodeAll(LowerFunction(types, slots, entry).value)) ==>
              exists steps: nat, m' :: RunSteps(text, base, m, steps) == Some(m') &&
                Returned(m, m', PaddedStackSize(|entry.instructions|), value)
  {
    hide ExecuteAll, Prologue, Read, ReadByte, Contains, EncodeAll, AllStraight, LowerToReturn, PaddedStackSize;
    hide LowerFunction;
    hide Run, RunSteps, Preserved, BlockOk, Dests, AfterReturn, Returned, Answers;
    var n := |entry.instructions|;
    var size := PaddedStackSize(n);
    FrameFits(n);
    PrologueEffect(m.cpu, size);
    var c1 := ExecuteAll(Prologue(size), m.cpu);
    var ctx := Context(types, c1, n);
    BodyCorrect(ctx, slots, entry);
    LowerFunctionParts(types, slots, entry);
    var a := LowerToReturn(types, Initial(slots), entry).value;
    value := CpuAt(ctx, a).Get(10);
    if Contains(text, offset, EncodeAll(LowerFunction(types, slots, entry).value)) {
      PartsRun(text, base, offset, PartsOf(types, a), m, value);
    }
  }
}
