/** The lowered code simulates the IR: after every instruction, each defined register is in its slot, or on
    the stack, or both, and agrees there with its value. */
module Simulation {
  import opened Words
  import opened IrTypes
  import opened Riscv
  import opened Ir
  import opened IrSemantics
  import opened Allocator
  import opened LoweredValues

  /** The function being lowered, and the machine at the start of its body. limit bounds the number of
      registers; the frame has eight bytes for saved registers and four for each of those. */
  datatype Context = Context(types: seq<IrType>, start: Cpu, limit: nat) {
    function Fp(): Word { start.Get(FP) }

    predicate Ok() { limit <= 506 && 8 + 4 * limit <= Fp() }
  }

  /** The machine after the code written so far. */
  function CpuAt(ctx: Context, a: Alloc): Cpu
    requires AllStraight(a.code)
  {
    ExecuteAll(a.code, ctx.start)
  }

  predicate SlotRegister(r: Reg) { 5 <= r <= 7 || 10 <= r <= 17 || 28 <= r }

  /** Slots agree with the values of their residents. */
  ghost predicate RegsAgree(types: seq<IrType>, slots: seq<Slot>, env: Env, cpu: Cpu)
    requires |slots| == SLOT_COUNT
  {
    forall i :: 0 <= i < SLOT_COUNT && slots[i].occupied && slots[i].resident in env ==>
      TypeAt(types, slots[i].resident).Agrees(cpu.Get(Physical(i)), env[slots[i].resident])
  }

  /** v is on the stack at the offset. */
  predicate StackHolds(types: seq<IrType>, offset: int, v: VRegId, x: int, mem: Mem, fp: int) {
    TypeAt(types, v).Agrees(Read(mem, ToWord(fp + offset), TypeAt(types, v).Size()), x)
  }

  ghost predicate StackAgree(types: seq<IrType>, spills: map<VRegId, int>, env: Env, mem: Mem, fp: int) {
    forall v :: v in spills ==> v in env && StackHolds(types, spills[v], v, env[v], mem, fp)
  }

  /** Only slot registers and bytes of [low, high) have changed. */
  ghost predicate Preserved(start: Cpu, cpu: Cpu, low: int, high: int) {
    && (forall r: Reg :: !SlotRegister(r) ==> cpu.Get(r) == start.Get(r))
    && (forall b: Word :: b < low || high <= b ==> ReadByte(cpu.mem, b) == ReadByte(start.mem, b))
  }

  ghost predicate Sim(ctx: Context, a: Alloc, defs: seq<VRegId>, d: nat, env: Env) {
    && ctx.Ok() && Window(a, defs, d) && |defs| <= ctx.limit && AllStraight(a.code)
    && (forall v :: v in env ==> v in defs)
    && RegsAgree(ctx.types, a.slots, env, CpuAt(ctx, a))
    && StackAgree(ctx.types, a.spills, env, CpuAt(ctx, a).mem, ctx.Fp())
    && Preserved(ctx.start, CpuAt(ctx, a), ctx.Fp() - 4 * (|a.spills| + 3), ctx.Fp() - 12)
  }

  lemma PhysicalDistinct(i: nat, j: nat)
    requires i < SLOT_COUNT && j < SLOT_COUNT && i != j
    ensures Physical(i) != Physical(j)
  {
  }

  lemma PhysicalIsSlot(i: nat)
    requires i < SLOT_COUNT
    ensures SlotRegister(Physical(i)) && Physical(i) != 0 && !SlotRegister(FP) && !SlotRegister(SP)
  {
  }

  // ---- spilling ----------------------------------------------------------------------------

  lemma WidthSize(t: IrType)
    ensures WidthOf(t).Size() == t.Size()
  {
  }

  lemma SmallOffset(k: nat)
    requires k <= 508
    ensures SignExtend12(-4 * (k + 4)) == -4 * (k + 4)
  {
  }

  /** A store to the frame. */
  lemma StoreEffect(cpu: Cpu, t: IrType, i: nat, k: nat)
    requires i < SLOT_COUNT && k <= 500 && 4 * (k + 4) <= cpu.Get(FP)
    ensures Execute(StoreMem(WidthOf(t), FP, Physical(i), -4 * (k + 4)), cpu) ==
            Cpu(cpu.regs, Write(cpu.mem, cpu.Get(FP) - 4 * (k + 4), t.Size(), cpu.Get(Physical(i))))
  {
    hide Write, Physical, SignExtend12;
    SmallOffset(k);
    WidthSize(t);
  }

  lemma StoredHolds(types: seq<IrType>, v: VRegId, k: nat, x: int, mem: Mem, fp: Word, w: Word)
    requires 4 * (k + 4) <= fp && TypeAt(types, v).Agrees(w, x)
    ensures StackHolds(types, -4 * (k + 4), v, x, Write(mem, fp - 4 * (k + 4), TypeAt(types, v).Size(), w), fp)
  {
    hide Write, Read, IrTypes.IrType.Agrees;
    var at, t := fp - 4 * (k + 4), TypeAt(types, v);
    ReadBack(mem, at, t.Size(), w);
    LowBytesAgree(t, w, x);
    WordIsWord(at);
  }

  lemma OthersHold(types: seq<IrType>, v: VRegId, j: nat, k: nat, x: int, mem: Mem, fp: Word, n: nat, w: Word)
    requires (n == 1 || n == 2 || n == 4) && j < k && 4 * (k + 4) <= fp
    requires StackHolds(types, -4 * (j + 4), v, x, mem, fp)
    ensures StackHolds(types, -4 * (j + 4), v, x, Write(mem, fp - 4 * (k + 4), n, w), fp)
  {
    hide Write, Read, IrTypes.IrType.Agrees;
    WordIsWord(fp - 4 * (j + 4));
    ReadOther(mem, fp - 4 * (k + 4), n, w, fp - 4 * (j + 4), TypeAt(types, v).Size());
  }

  /** Storing the k-th register puts it on the stack beside the earlier ones. */
  lemma StoreKeepsStack(types: seq<IrType>, spills: map<VRegId, int>, defs: seq<VRegId>, k: nat, env: Env,
                        mem: Mem, fp: Word, w: Word)
    requires k < |defs| && SpillsOk(spills, defs, k) && 4 * (k + 4) <= fp
    requires StackAgree(types, spills, env, mem, fp) && defs[k] in env
    requires TypeAt(types, defs[k]).Agrees(w, env[defs[k]])
    ensures var mem' := Write(mem, fp - 4 * (k + 4), TypeAt(types, defs[k]).Size(), w);
            StackAgree(types, spills[defs[k] := -4 * (k + 4)], env, mem', fp)
  {
    hide Write, StackHolds, IrTypes.IrType.Agrees;
    var n := TypeAt(types, defs[k]).Size();
    var mem' := Write(mem, fp - 4 * (k + 4), n, w);
    var spills' := spills[defs[k] := -4 * (k + 4)];
    forall v | v in spills'
      ensures v in env && StackHolds(types, spills'[v], v, env[v], mem', fp)
    {
      if v == defs[k] {
        StoredHolds(types, v, k, env[v], mem, fp, w);
      } else {
        var j :| 0 <= j < k && defs[j] == v;
        OthersHold(types, v, j, k, env[v], mem, fp, n, w);
      }
    }
  }

  lemma LowBytesAgree(t: IrType, w: Word, x: int)
    requires t.Agrees(w, x)
    ensures t.Agrees(if t.Size() == 1 then w % 0x100 else if t.Size() == 2 then w % 0x1_0000 else w, x)
  {
    hide IrTypes.IrType.Wrap;
  }

  lemma StorePreserves(start: Cpu, cpu: Cpu, k: nat, fp: Word, n: nat, w: Word)
    requires n == 1 || n == 2 || n == 4
    requires 4 * (k + 4) <= fp && Preserved(start, cpu, fp - 4 * (k + 3), fp - 12)
    ensures Preserved(start, Cpu(cpu.regs, Write(cpu.mem, fp - 4 * (k + 4), n, w)), fp - 4 * (k + 4), fp - 12)
  {
    hide Write, ReadByte;
    var at := fp - 4 * (k + 4);
    forall b: Word | b < at || fp - 12 <= b
      ensures ReadByte(Write(cpu.mem, at, n, w), b) == ReadByte(start.mem, b)
    {
      ReadByteOther(cpu.mem, at, n, w, b);
    }
  }

  /** When all slots are dirty, making room puts the oldest dirty register on the stack. */
  lemma SpillSim(ctx: Context, a: Alloc, defs: seq<VRegId>, env: Env)
    requires a.Valid() && |defs| >= SLOT_COUNT
    requires Sim(ctx, a, defs, SLOT_COUNT, env) && defs[|defs| - SLOT_COUNT] in env
    ensures var a' := GetEmptySlot(ctx.types, a).0;
            Sim(ctx, a', defs, 14, env) && CpuAt(ctx, a').regs == CpuAt(ctx, a).regs
  {
    hide GetEmptySlot, Window, Write, Execute, Preserved, StackAgree;
    var k := |defs| - SLOT_COUNT;
    var v := defs[k];
    var t := TypeAt(ctx.types, v);
    var (a', i) := GetEmptySlot(ctx.types, a);
    EmptySlotSpill(ctx.types, a, defs);
    EmptySlotSpillWindow(ctx.types, a, defs);
    SpillsCount(a, defs);
    var cpu := CpuAt(ctx, a);
    var fp := ctx.Fp();
    FpKept(ctx, a, defs, SLOT_COUNT, env);
    ExecuteAppend(a.code, StoreMem(WidthOf(t), FP, Physical(i), -4 * (k + 4)), ctx.start);
    StoreEffect(cpu, t, i, k);
    StoreKeepsStack(ctx.types, a.spills, defs, k, env, cpu.mem, fp, cpu.Get(Physical(i)));
    StorePreserves(ctx.start, cpu, k, fp, t.Size(), cpu.Get(Physical(i)));
    SpillFreesSlot(ctx.types, a.slots, env, cpu, CpuAt(ctx, a'), i, v);
  }

  lemma SpillsCount(a: Alloc, defs: seq<VRegId>)
    requires Window(a, defs, SLOT_COUNT) && |defs| >= SLOT_COUNT
    ensures var k := |defs| - SLOT_COUNT;
            |a.spills| == k && SpillsOk(a.spills, defs, k)
  {
  }

  lemma FpKept(ctx: Context, a: Alloc, defs: seq<VRegId>, d: nat, env: Env)
    requires Sim(ctx, a, defs, d, env)
    ensures CpuAt(ctx, a).Get(FP) == ctx.Fp()
  {
    PhysicalIsSlot(0);
  }

  lemma SpillFreesSlot(types: seq<IrType>, slots: seq<Slot>, env: Env, cpu: Cpu, cpu': Cpu, i: nat, v: VRegId)
    requires |slots| == SLOT_COUNT && i < SLOT_COUNT && RegsAgree(types, slots, env, cpu) && cpu'.regs == cpu.regs
    ensures RegsAgree(types, slots[i := Slot(v, false, false)], env, cpu')
  {
  }

  // ---- the allocator steps -----------------------------------------------------------------

  /** Making room keeps all registers of the machine, and every value somewhere. */
  lemma EmptySlotSim(ctx: Context, a: Alloc, defs: seq<VRegId>, d: nat, env: Env)
    requires a.Valid() && Sim(ctx, a, defs, d, env)
    requires d == SLOT_COUNT ==> |defs| >= SLOT_COUNT && defs[|defs| - SLOT_COUNT] in env
    ensures var a' := GetEmptySlot(ctx.types, a).0;
            Sim(ctx, a', defs, Min(d, 14), env) && CpuAt(ctx, a').regs == CpuAt(ctx, a).regs
  {
    hide GetEmptySlot, Window, Preserved, StackAgree;
    if d == SLOT_COUNT {
      SpillSim(ctx, a, defs, env);
    } else {
      AtMostAll(a, defs, d);
      EmptySlotFree(ctx.types, a, defs, d);
    }
  }

  lemma AtMostAll(a: Alloc, defs: seq<VRegId>, d: nat)
    requires Window(a, defs, d)
    ensures d <= SLOT_COUNT && d <= |defs| && Distinct(defs)
  {
  }

  /** Every register but the newest has a value. */
  ghost predicate Pending(defs: seq<VRegId>, env: Env) {
    forall k :: 0 <= k < |defs| - 1 ==> defs[k] in env
  }

  /** Placing a result that has no value yet. */
  lemma LoadDestSim(ctx: Context, a: Alloc, defs: seq<VRegId>, d: nat, env: Env, v: VRegId)
    requires a.Valid() && Sim(ctx, a, defs, d, env) && |defs| < ctx.limit && v !in defs
    requires forall k :: 0 <= k < |defs| ==> defs[k] in env
    ensures var (a', i) := LoadDest(ctx.types, a, v);
            Sim(ctx, a', defs + [v], Min(d, 14) + 1, env) && Pending(defs + [v], env) && Held(a', i, v)
  {
    hide GetEmptySlot, Window, Preserved, StackAgree;
    AtMostAll(a, defs, d);
    EmptySlotSim(ctx, a, defs, d, env);
    LoadDestWindow(ctx.types, a, defs, d, v);
  }

  /** The effect of a load from the frame. */
  lemma LoadEffect(cpu: Cpu, types: seq<IrType>, v: VRegId, i: nat, k: nat, x: int)
    requires i < SLOT_COUNT && k <= 500 && 4 * (k + 4) <= cpu.Get(FP)
    requires StackHolds(types, -4 * (k + 4), v, x, cpu.mem, cpu.Get(FP))
    ensures var t := TypeAt(types, v);
            var c := Execute(LoadMem(WidthOf(t), t.IsSigned(), Physical(i), FP, -4 * (k + 4)), cpu);
            exists w: Word :: c == cpu.Set(Physical(i), w) && t.Agrees(w, x)
  {
    hide Read, Physical, SignExtend12, IrTypes.IrType.Agrees, Loaded;
    var t := TypeAt(types, v);
    SmallOffset(k);
    WidthSize(t);
    WordIsWord(cpu.Get(FP) - 4 * (k + 4));
    var r := Read(cpu.mem, cpu.Get(FP) - 4 * (k + 4), t.Size());
    LoadedAgrees(t, r, x);
    var w := Loaded(r, WidthOf(t), t.IsSigned());
    assert Execute(LoadMem(WidthOf(t), t.IsSigned(), Physical(i), FP, -4 * (k + 4)), cpu) == cpu.Set(Physical(i), w);
  }

  lemma LoadedAgrees(t: IrType, r: nat, x: int)
    requires r < 0x1_0000_0000 && t.Agrees(r, x)
    ensures t.Agrees(Loaded(r, WidthOf(t), t.IsSigned()), x)
  {
    hide Loaded, IrTypes.IrType.Wrap, ToWord;
    var m := t.Modulus();
    LoadedIs(t, r);
    DivModUnique(r % m, m, 0, r % m);
    ModAdd(r % m, -1, m);
    WordAgrees(t, r % m);
    WordAgrees(t, r % m - m);
  }

  lemma LoadedIs(t: IrType, r: nat)
    requires r < 0x1_0000_0000
    ensures var low := r % t.Modulus();
            var w := Loaded(r, WidthOf(t), t.IsSigned());
            w == ToWord(low) || w == ToWord(low - t.Modulus())
  {
  }

  /** Getting an operand: afterwards it is in the slot, and everything else still has its value. */
  lemma LoadSourceSim(ctx: Context, a: Alloc, defs: seq<VRegId>, d: nat, env: Env, v: VRegId)
    requires a.Valid() && Sim(ctx, a, defs, d, env) && Pending(defs, env) && v in env
    ensures var (a', i) := LoadSource(ctx.types, a, v);
            Sim(ctx, a', defs, if Resident(a, v) then d else 14, env) && Held(a', i, v)
  {
    hide GetEmptySlot, LoadSource, Window, Preserved, StackAgree, RegsAgree;
    if Resident(a, v) {
      var i :| 0 <= i < SLOT_COUNT && Held(a, i, v);
      LoadSourceFound(ctx.types, a, defs, d, v, i);
    } else {
      AtMostAll(a, defs, d);
      LoadMissingSim(ctx, a, defs, d, env, v);
    }
  }

  lemma LoadMissingSim(ctx: Context, a: Alloc, defs: seq<VRegId>, d: nat, env: Env, v: VRegId)
    requires a.Valid() && Sim(ctx, a, defs, d, env) && Pending(defs, env) && v in env && !Resident(a, v)
    requires d <= |defs|
    ensures var (a', i) := LoadSource(ctx.types, a, v);
            Sim(ctx, a', defs, 14, env) && Held(a', i, v)
  {
    hide GetEmptySlot, LoadSource, Window, Preserved, Execute, StackHolds;
    LoadSourceMissing(ctx.types, a, defs, d, v);
    EmptySlotSim(ctx, a, defs, d, env);
    EmptySlotKeepsSpills(ctx.types, a, defs, d, v);
    EmptySlotWindow(ctx.types, a, defs, d);
    var (a1, i) := GetEmptySlot(ctx.types, a);
    var k := SpillIndex(a, defs, d, v);
    FpKept(ctx, a1, defs, Min(d, 14), env);
    var cpu := CpuAt(ctx, a1);
    LoadEffect(cpu, ctx.types, v, i, k, env[v]);
    var t := TypeAt(ctx.types, v);
    ExecuteAppend(a1.code, LoadMem(WidthOf(t), t.IsSigned(), Physical(i), FP, a.spills[v]), ctx.start);
    var (a', _) := LoadSource(ctx.types, a, v);
    var w: Word :| CpuAt(ctx, a') == cpu.Set(Physical(i), w) && t.Agrees(w, env[v]);
    SetRegister(ctx.types, a1.slots, Slot(v, true, false), i, env, cpu, w);
    SetPreserves(ctx.start, cpu, i, w, ctx.Fp() - 4 * (|a1.spills| + 3), ctx.Fp() - 12);
  }

  lemma SpillIndex(a: Alloc, defs: seq<VRegId>, d: nat, v: VRegId) returns (k: nat)
    requires Window(a, defs, d) && v in a.spills
    ensures k < |defs| - d && defs[k] == v && a.spills[v] == -4 * (k + 4)
  {
    k :| 0 <= k < |defs| - d && defs[k] == v;
  }

  /** Writing the register of slot i, which then holds what s says. */
  lemma SetRegister(types: seq<IrType>, slots: seq<Slot>, s: Slot, i: nat, env: Env, cpu: Cpu, w: Word)
    requires |slots| == SLOT_COUNT && i < SLOT_COUNT && RegsAgree(types, slots, env, cpu)
    requires s.occupied && s.resident in env ==> TypeAt(types, s.resident).Agrees(w, env[s.resident])
    ensures RegsAgree(types, slots[i := s], env, cpu.Set(Physical(i), w))
  {
    hide IrTypes.IrType.Agrees, Physical;
    var slots', cpu' := slots[i := s], cpu.Set(Physical(i), w);
    PhysicalIsSlot(i);
    forall j | 0 <= j < SLOT_COUNT && slots'[j].occupied && slots'[j].resident in env
      ensures TypeAt(types, slots'[j].resident).Agrees(cpu'.Get(Physical(j)), env[slots'[j].resident])
    {
      if j != i { PhysicalDistinct(i, j); }
    }
  }

  lemma SetPreserves(start: Cpu, cpu: Cpu, i: nat, w: Word, low: int, high: int)
    requires i < SLOT_COUNT && Preserved(start, cpu, low, high)
    ensures Preserved(start, cpu.Set(Physical(i), w), low, high)
  {
    hide Physical;
    PhysicalIsSlot(i);
  }

  // ---- writing code ------------------------------------------------------------------------

  /** Code whose net effect is to set the register of slot i, to a word that its resident can live with. */
  lemma WriteSim(ctx: Context, a: Alloc, defs: seq<VRegId>, d: nat, env: Env, code: seq<Instr>, i: nat, w: Word)
    requires a.Valid() && Sim(ctx, a, defs, d, env) && i < SLOT_COUNT && AllStraight(a.code + code)
    requires ExecuteAll(a.code + code, ctx.start) == CpuAt(ctx, a).Set(Physical(i), w)
    requires a.slots[i].occupied && a.slots[i].resident in env ==>
               TypeAt(ctx.types, a.slots[i].resident).Agrees(w, env[a.slots[i].resident])
    ensures Sim(ctx, a.Write(code), defs, d, env)
  {
    hide Preserved, RegsAgree, StackAgree, SpillsOk, SlotOk;
    assert a.slots[i := a.slots[i]] == a.slots;
    SetRegister(ctx.types, a.slots, a.slots[i], i, env, CpuAt(ctx, a), w);
    SetPreserves(ctx.start, CpuAt(ctx, a), i, w, ctx.Fp() - 4 * (|a.spills| + 3), ctx.Fp() - 12);
  }

  /** The newest register gets its value. */
  lemma DefineSim(ctx: Context, a: Alloc, defs: seq<VRegId>, d: nat, env: Env, i: nat, v: VRegId, x: int)
    requires a.Valid() && Sim(ctx, a, defs + [v], d, env) && v !in env && i < SLOT_COUNT && Held(a, i, v)
    requires TypeAt(ctx.types, v).Agrees(CpuAt(ctx, a).Get(Physical(i)), x)
    ensures Sim(ctx, a, defs + [v], d, env[v := x])
  {
    hide Preserved, IrTypes.IrType.Agrees, StackHolds, SpillsOk, SlotOk, Physical;
    var all := defs + [v];
    assert all[|defs|] == v;
    forall j | 0 <= j < SLOT_COUNT && a.slots[j].occupied && a.slots[j].resident == v
      ensures j == i
    {
      ResidentSame(a, all, d, i, j);
    }
  }
}
