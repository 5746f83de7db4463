/** A small program that the compiler accepts and whose executable never gets to its exit call: twenty-six
    functions in front of main move it to where the stub misses it. */
module MisplacedMain {
  import opened Words
  import opened Results
  import opened IrTypes
  import FrontendTypes
  import opened Ast
  import opened Semantics
  import opened Riscv
  import opened Encoding
  import opened Text
  import opened Ir
  import opened IrEmission
  import opened Allocator
  import opened Lowering
  import opened Frame
  import opened FunctionEmission
  import opened Runtime
  import opened Program
  import opened Compiler

  const CROWD_SIZE := 26

  /** `return 1i32;` under some name. */
  function ReturnsOne(name: string): FunctionDefinition {
    FunctionDefinition(name, FrontendTypes.I32, [Some(IntegerLiteral(1, FrontendTypes.I32))], None)
  }

  /** f, ff, fff and so on, then main. */
  function NameAt(k: nat): string {
    if k < CROWD_SIZE then seq(k + 1, _ => 'f') else "main"
  }

  function Crowd(): (defs: seq<FunctionDefinition>)
    ensures |defs| == CROWD_SIZE + 1
    ensures forall k :: 0 <= k <= CROWD_SIZE ==> defs[k] == ReturnsOne(NameAt(k))
  {
    seq(CROWD_SIZE + 1, k requires 0 <= k => ReturnsOne(NameAt(k)))
  }

  const TYPES: seq<IrType> := [IrType.I32]

  const LOAD_ONE := Instruction(LoadImm, 0, NO_VREG, NO_VREG, 1)

  const ENTRY := BasicBlock(0, [LOAD_ONE], Return(Some(0)))

  /** What each of them compiles to. */
  function Compiled(name: string): Function {
    Function.Function(name, TYPES, [ENTRY, BasicBlock(1, [], Unterminated)])
  }

  lemma CompilesToOne(name: string)
    ensures ReturnsOne(name).Fresh() && ReturnsOne(name).Returns()
    ensures CompileFunction(ReturnsOne(name)) == Ok(Compiled(name))
  {
    var f := ReturnsOne(name);
    var s := f.statements;
    assert s == [s[0]] && s[..0] == [] && s[0].Some?;
    assert CheckStatement(s[0], f.returnType) == Ok(s[0]);
    assert CheckStatements([], f.returnType) == Ok([]) && [] + [s[0]] == s;
    assert CheckStatements(s, f.returnType) == Ok(s);
    assert CheckFunction(f) == Ok(f);
    EmitsOne(name);
  }

  lemma EmitsOne(name: string)
    ensures EmitFunction(ReturnsOne(name)) == Ok(Compiled(name))
  {
    var e := IntegerLiteral(1, FrontendTypes.I32);
    var s := ReturnsOne(name).statements;
    assert EmitExpr(EMPTY_DRAFT.writer, e) == Ok((Writer(TYPES, [LOAD_ONE], map[]), 0)) by {
      assert [] + [IrType.I32] == TYPES && [] + [LOAD_ONE] == [LOAD_ONE];
    }
    var d := Draft(Writer(TYPES, [], map[]), [ENTRY]);
    assert EmitReturn(EMPTY_DRAFT, s[0]) == Ok(d) by { assert [] + [ENTRY] == [ENTRY]; }
    assert s[..0] == [];
    assert EmitStatements(EMPTY_DRAFT, s) == Ok(d);
    assert [ENTRY] + [BasicBlock(1, [], Unterminated)] == [ENTRY, BasicBlock(1, [], Unterminated)];
  }

  lemma NamesDiffer(j: nat, k: nat)
    requires j < k <= CROWD_SIZE
    ensures NameAt(j) != NameAt(k)
  {
    if k < CROWD_SIZE {
      assert |NameAt(j)| != |NameAt(k)|;
    } else {
      assert NameAt(j)[0] == 'f' && NameAt(k)[0] == 'm';
    }
  }

  lemma CrowdAcceptable()
    ensures Acceptable(Crowd())
    ensures CompileProgram(Crowd()).Ok?
    ensures forall k :: 0 <= k <= CROWD_SIZE ==> CompileProgram(Crowd()).value[k] == Compiled(NameAt(k))
  {
    hide CompileFunction, CompileProgram, FunctionDefinition.Fresh, FunctionDefinition.Returns;
    hide ReturnsOne, Compiled, NameAt;
    var defs := Crowd();
    forall k | 0 <= k < |defs|
      ensures defs[k].Fresh() && defs[k].Returns() && CompileFunction(defs[k]) == Ok(Compiled(NameAt(k)))
    {
      CompilesToOne(NameAt(k));
    }
    forall j, k | 0 <= j < k < |defs|
      ensures defs[j].name != defs[k].name
    {
      NamesDiffer(j, k);
      NameOfOne(NameAt(j));
      NameOfOne(NameAt(k));
    }
    CompileProgramEach(defs);
  }

  lemma NameOfOne(name: string)
    ensures ReturnsOne(name).name == name && Compiled(name).name == name
    ensures Compiled(name).vregs == TYPES && Compiled(name).blocks != [] && Compiled(name).blocks[0] == ENTRY
  {
  }

  // ---- the code of each --------------------------------------------------------------------

  /** The slots after the constant has been loaded. */
  function OneSlots(slots: seq<Slot>): (r: seq<Slot>)
    requires |slots| == SLOT_COUNT
    ensures |r| == SLOT_COUNT
  {
    Cleared(slots)[0 := Slot(0, true, true)]
  }

  lemma LoadsIntoFirst(slots: seq<Slot>)
    requires |slots| == SLOT_COUNT
    ensures LoadDest(TYPES, Initial(slots), 0) == (Initial(slots).(slots := OneSlots(slots)), 0)
  {
    FirstIs(Free, Cleared(slots), 0);
  }

  lemma OneBody(slots: seq<Slot>)
    requires |slots| == SLOT_COUNT
    ensures LowerToReturn(TYPES, Initial(slots), ENTRY).Ok?
    ensures var a := LowerToReturn(TYPES, Initial(slots), ENTRY).value;
            |a.code| == 4 && a.slots == OneSlots(slots)
  {
    hide LoadDest, LoadSource, Compensated;
    var a := Initial(slots);
    LoadsIntoFirst(slots);
    ConstantOne();
    assert ENTRY.instructions[..0] == [];
    assert LowerBlock(TYPES, a, []) == Ok(a);
    var a1 := a.(slots := OneSlots(slots)).Write([AluImm(ADDI, Physical(0), ZERO, 1)]);
    assert LowerInstruction(TYPES, a, LOAD_ONE) == a1;
    assert LowerBlock(TYPES, a, ENTRY.instructions) == Ok(a1);
    StillInFirst(a1, slots);
  }

  lemma ConstantOne()
    ensures Compensated(ToWord(1)) == 1
  {
    hide AndWord;
    LoweredValues.BitElevenSet(1);
  }

  lemma StillInFirst(a: Alloc, slots: seq<Slot>)
    requires a.Valid() && |slots| == SLOT_COUNT && a.slots == OneSlots(slots)
    ensures LoadSource(TYPES, a, 0) == (a, 0)
  {
    FirstIs(Holds(0), a.slots, 0);
  }

  /** One dirty slot is spilled once. */
  lemma SpillsFirst(a: Alloc, slots: seq<Slot>)
    requires a.Valid() && |slots| == SLOT_COUNT && a.slots == OneSlots(slots)
    ensures |SpillDirty(TYPES, a, 0).code| == |a.code| + 1
  {
    hide Cleared, SpillSlot, SpillDirty;
    SpillParts(a, 0);
    SpillFirstThen(a);
    CleanAfter(SpillSlot(TYPES, a, 0), 1);
  }

  lemma SpillParts(a: Alloc, i: nat)
    requires a.Valid() && i < SLOT_COUNT
    ensures var a' := SpillSlot(TYPES, a, i);
            a'.Valid() && a'.slots == a.slots[i := a.slots[i].(dirty := false)] && |a'.code| == |a.code| + 1
  {
  }

  lemma SpillFirstThen(a: Alloc)
    requires a.Valid() && a.slots[0].dirty
    ensures SpillSlot(TYPES, a, 0).Valid() && SpillDirty(TYPES, a, 0) == SpillDirty(TYPES, SpillSlot(TYPES, a, 0), 1)
  {
    hide SpillSlot;
    SpillParts(a, 0);
  }

  lemma {:induction false} CleanAfter(a: Alloc, i: nat)
    requires a.Valid() && i <= SLOT_COUNT && forall j :: i <= j < SLOT_COUNT ==> !a.slots[j].dirty
    ensures SpillDirty(TYPES, a, i) == a
    decreases SLOT_COUNT - i
  {
    if i == SLOT_COUNT {
    } else {
      CleanAfter(a, i + 1);
    }
  }

  /** Twenty instructions, whatever the slots held before. */
  lemma OneCode(slots: seq<Slot>)
    requires |slots| == SLOT_COUNT
    ensures LowerFunction(TYPES, slots, ENTRY).Ok? && |LowerFunction(TYPES, slots, ENTRY).value| == 20
  {
    hide LowerToReturn, SpillDirty, OneSlots;
    OneBody(slots);
    var a := LowerToReturn(TYPES, Initial(slots), ENTRY).value;
    SpillsFirst(a.Write([Jal(ZERO, 0)]), slots);
  }

  /** So each takes eighty bytes, and function k lies at 80 * k. */
  lemma {:induction false} CrowdLowered(slots: seq<Slot>, fns: seq<Function>)
    requires |slots| == SLOT_COUNT
    requires forall k :: 0 <= k < |fns| ==> fns[k].vregs == TYPES && fns[k].blocks != [] && fns[k].blocks[0] == ENTRY
    ensures Program.LowerIr(slots, fns).Ok?
    ensures var o := Program.LowerIr(slots, fns).value.0;
            |o.code| == 80 * |fns| && forall k :: 0 <= k < |fns| ==> o.functions[k] == (fns[k].name, 80 * k)
    decreases |fns|
  {
    hide LowerFunction, SlotsAfter, Dump, EncodeAll;
    if fns == [] {
    } else {
      var n := |fns| - 1;
      CrowdLowered(slots, fns[..n]);
      OneCode(Program.LowerIr(slots, fns[..n]).value.1);
    }
  }

  // ---- the run -----------------------------------------------------------------------------

  function InOrder(n: nat): seq<nat> { seq(n, i requires 0 <= i => i) }

  lemma InOrderArranges(n: nat)
    ensures Arrangement(InOrder(n), n)
  {
    forall k: nat | k < n
      ensures k in InOrder(n)
    {
      assert InOrder(n)[k] == k;
    }
  }

  lemma CrowdArranged()
    ensures CompileProgram(Crowd()).Ok? && Arrangement(InOrder(CROWD_SIZE + 1), CROWD_SIZE + 1)
    ensures Arrange(CompileProgram(Crowd()).value, InOrder(CROWD_SIZE + 1)) == CompileProgram(Crowd()).value
    ensures HasEntries(CompileProgram(Crowd()).value)
  {
    hide CompileProgram, Acceptable;
    CrowdAcceptable();
    InOrderArranges(CROWD_SIZE + 1);
    CompiledHasEntries(Crowd());
  }

  lemma CrowdMain(slots: seq<Slot>)
    requires |slots| == SLOT_COUNT
    ensures CompileProgram(Crowd()).Ok? && HasEntries(CompileProgram(Crowd()).value)
    ensures Program.LowerIr(slots, CompileProgram(Crowd()).value).Ok?
    ensures FindMain(Program.LowerIr(slots, CompileProgram(Crowd()).value).value.0.functions, 0) == Some(2080)
  {
    hide CompileProgram, Acceptable, Program.LowerIr, Compiled, Crowd;
    CrowdAcceptable();
    CrowdArranged();
    var fns := CompileProgram(Crowd()).value;
    forall k | 0 <= k < |fns|
      ensures fns[k].vregs == TYPES && fns[k].blocks != [] && fns[k].blocks[0] == ENTRY && fns[k].name == NameAt(k)
    {
      NameOfOne(NameAt(k));
    }
    CrowdLowered(slots, fns);
    var functions := Program.LowerIr(slots, fns).value.0.functions;
    forall k | 0 <= k < CROWD_SIZE
      ensures functions[k].0 != "main"
    {
      NamesDiffer(k, CROWD_SIZE);
    }
    FindMainIs(functions, 0, CROWD_SIZE);
  }

  /** The program is acceptable, compiles and links, with its functions in their own order; but wherever its
      image is put above the first page, it does not exit, with any result. */
  lemma CrowdNeverExits(slots: seq<Slot>, base: Word, m: Machine, result: Word)
    requires |slots| == SLOT_COUNT && 4096 <= base && m.pc == base
    ensures Acceptable(Crowd()) && CompileProgram(Crowd()).Ok? && Arrangement(InOrder(CROWD_SIZE + 1), CROWD_SIZE + 1)
    ensures HasEntries(Arrange(CompileProgram(Crowd()).value, InOrder(CROWD_SIZE + 1)))
    ensures var image := Link(slots, Arrange(CompileProgram(Crowd()).value, InOrder(CROWD_SIZE + 1)));
            image.Ok? && (Placed(image.value, base) ==> !ExitsWith(image.value, base, m, result))
  {
    hide CompileProgram, Acceptable, Program.LowerIr, Crowd, Arrange, ExitsWith, EncodeAll, Dump, RuntimeCode, FindMain;
    hide InOrder, Placed, Contains, PlacedAt, Encode;
    CrowdAcceptable();
    CrowdArranged();
    CrowdMain(slots);
    var fns := CompileProgram(Crowd()).value;
    NameOfOne(NameAt(CROWD_SIZE));
    assert fns[CROWD_SIZE].name == "main";
    forall k | 0 <= k < CROWD_SIZE
      ensures fns[k].name != "main"
    {
      NameOfOne(NameAt(k));
      NamesDiffer(k, CROWD_SIZE);
    }
    var offset := LinkPlaces(slots, fns, CROWD_SIZE);
    PlacedFits(fns[CROWD_SIZE], Link(slots, fns).value, 16 + offset);
    if Placed(Link(slots, fns).value, base) {
      MissedMainNeverExits(Link(slots, fns).value, base, offset, m, result);
    }
  }
}
