/** The compiler as a whole, from checked trees to an executable text. */
module Compiler {
  import opened Words
  import opened Results
  import opened Ast
  import S = SourceSemantics
  import opened Semantics
  import opened Symbols
  import opened Riscv
  import opened Text
  import opened Ir
  import opened IrSemantics
  import opened Allocator
  import opened Lowering
  import opened Frame
  import opened FunctionEmission
  import opened Runtime
  import opened Program
  import opened Tokens
  import opened Lexing
  import opened ProgramParsing
  import opened ProgramTexts

  // ---- all functions of a program ----------------------------------------------------------

  function CheckAll(defs: seq<FunctionDefinition>): (r: Result<seq<FunctionDefinition>>)
    ensures r.Ok? ==> |r.value| == |defs|
  {
    if defs == [] then Ok([])
    else
      var checked :- CheckAll(defs[..|defs| - 1]);
      var last :- CheckFunction(defs[|defs| - 1]);
      Ok(checked + [last])
  }

  function EmitAll(defs: seq<FunctionDefinition>): (r: Result<seq<Function>>)
    ensures r.Ok? ==> |r.value| == |defs|
  {
    if defs == [] then Ok([])
    else
      var fns :- EmitAll(defs[..|defs| - 1]);
      var last :- EmitFunction(defs[|defs| - 1]);
      Ok(fns + [last])
  }

  /** All names are declared before any identifier is looked up, all identifiers are looked up before any body
      is checked, and all bodies are checked before any is emitted. */
  function CompileProgram(defs: seq<FunctionDefinition>): (r: Result<seq<Function>>)
    ensures r.Ok? ==> |r.value| == |defs|
  {
    var names :- Declare(defs);
    var resolved :- ResolveAll(defs, names);
    var checked :- CheckAll(resolved);
    EmitAll(checked)
  }

  lemma {:induction false} CheckAllEach(defs: seq<FunctionDefinition>)
    ensures CheckAll(defs).Ok? <==> forall k :: 0 <= k < |defs| ==> CheckFunction(defs[k]).Ok?
    ensures CheckAll(defs).Ok? ==> forall k :: 0 <= k < |defs| ==> CheckFunction(defs[k]) == Ok(CheckAll(defs).value[k])
  {
    hide CheckFunction;
    if defs == [] {
    } else {
      CheckAllEach(defs[..|defs| - 1]);
    }
  }

  lemma {:induction false} EmitAllEach(defs: seq<FunctionDefinition>)
    ensures EmitAll(defs).Ok? <==> forall k :: 0 <= k < |defs| ==> EmitFunction(defs[k]).Ok?
    ensures EmitAll(defs).Ok? ==> forall k :: 0 <= k < |defs| ==> EmitFunction(defs[k]) == Ok(EmitAll(defs).value[k])
  {
    hide EmitFunction;
    if defs == [] {
    } else {
      EmitAllEach(defs[..|defs| - 1]);
    }
  }

  lemma {:induction false} CheckAllStops(defs: seq<FunctionDefinition>, k: nat, e: Error)
    requires k <= |defs| && CheckAll(defs[..k]) == Err(e)
    ensures CheckAll(defs) == Err(e)
    decreases |defs|
  {
    hide CheckFunction;
    if k == |defs| {
      assert defs[..k] == defs;
    } else {
      assert defs[..|defs| - 1][..k] == defs[..k];
      CheckAllStops(defs[..|defs| - 1], k, e);
    }
  }

  lemma {:induction false} EmitAllStops(defs: seq<FunctionDefinition>, k: nat, e: Error)
    requires k <= |defs| && EmitAll(defs[..k]) == Err(e)
    ensures EmitAll(defs) == Err(e)
    decreases |defs|
  {
    hide EmitFunction;
    if k == |defs| {
      assert defs[..k] == defs;
    } else {
      assert defs[..|defs| - 1][..k] == defs[..k];
      EmitAllStops(defs[..|defs| - 1], k, e);
    }
  }

  /** Every function has an entry block. */
  lemma EmitAllHasEntries(defs: seq<FunctionDefinition>)
    requires EmitAll(defs).Ok?
    ensures HasEntries(EmitAll(defs).value)
  {
    hide EmitFunction;
    EmitAllEach(defs);
    forall k | 0 <= k < |defs|
      ensures EmitAll(defs).value[k].blocks != []
    {
      EmittedHasEntry(defs[k]);
    }
  }

  lemma EmittedHasEntry(f: FunctionDefinition)
    requires EmitFunction(f).Ok?
    ensures EmitFunction(f).value.blocks != []
  {
    hide EmitStatements, EmitReturn;
  }

  /** A program compiles exactly when its names differ and each function compiles on its own. */
  lemma CompileProgramEach(defs: seq<FunctionDefinition>)
    requires forall k :: 0 <= k < |defs| ==> defs[k].Fresh()
    ensures CompileProgram(defs).Ok? <==>
              DistinctNames(defs) && forall k :: 0 <= k < |defs| ==> CompileFunction(defs[k]).Ok?
    ensures CompileProgram(defs).Ok? ==>
              forall k :: 0 <= k < |defs| ==> CompileFunction(defs[k]) == Ok(CompileProgram(defs).value[k])
  {
    hide CheckFunction, EmitFunction, FunctionDefinition.Fresh, CheckAll, EmitAll, ResolveAll, Declare, DistinctNames;
    hide CompileFunction, Declares, ResolveFunction, FunctionDefinition.Ground;
    DeclareIff(defs);
    if Declare(defs).Ok? {
      var names := Declare(defs).value;
      if ResolveAll(defs, names).Ok? { CheckEmitEach(ResolveAll(defs, names).value); }
      ResolveCompiled(defs, names);
      CheckEmitEach(defs);
    }
  }

  lemma CheckEmitEach(defs: seq<FunctionDefinition>)
    ensures (CheckAll(defs).Ok? && EmitAll(CheckAll(defs).value).Ok?) <==>
              forall k :: 0 <= k < |defs| ==> CompileFunction(defs[k]).Ok?
    ensures CheckAll(defs).Ok? && EmitAll(CheckAll(defs).value).Ok? ==>
              forall k :: 0 <= k < |defs| ==> CompileFunction(defs[k]) == Ok(EmitAll(CheckAll(defs).value).value[k])
  {
    hide CheckFunction, EmitFunction, CheckAll, EmitAll;
    CheckAllEach(defs);
    if CheckAll(defs).Ok? { EmitAllEach(CheckAll(defs).value); }
  }

  /** Looking up identifiers does not matter to a program that compiles: it has none. */
  lemma ResolveCompiled(defs: seq<FunctionDefinition>, names: Names)
    requires forall k :: 0 <= k < |defs| ==> defs[k].Fresh()
    ensures (forall k :: 0 <= k < |defs| ==> CompileFunction(defs[k]).Ok?) ==> ResolveAll(defs, names) == Ok(defs)
    ensures ResolveAll(defs, names).Ok? &&
            (forall k :: 0 <= k < |defs| ==> CompileFunction(ResolveAll(defs, names).value[k]).Ok?) ==>
              ResolveAll(defs, names) == Ok(defs)
  {
    hide ResolveAll, CompileFunction, FunctionDefinition.Fresh, ResolveFunction, FunctionDefinition.Ground;
    hide FunctionDefinition.Annotated;
    ResolveAllIff(defs, names);
    forall k | 0 <= k < |defs|
      ensures CompileFunction(defs[k]).Ok? ==> defs[k].Ground()
      ensures ResolveFunction(defs[k], names).Ok? && CompileFunction(ResolveFunction(defs[k], names).value).Ok? ==>
                defs[k].Ground()
    {
      StatementsAnnotated(defs[k]);
      ResolveFunctionIff(defs[k], names);
      if CompileFunction(defs[k]).Ok? { CompiledGround(defs[k]); }
      if ResolveFunction(defs[k], names).Ok? && CompileFunction(ResolveFunction(defs[k], names).value).Ok? {
        CompiledGround(ResolveFunction(defs[k], names).value);
      }
    }
  }

  /** Every name in the statements is the name of a function. */
  predicate AllDeclared(defs: seq<FunctionDefinition>) {
    forall k, i :: 0 <= k < |defs| && 0 <= i < |defs[k].statements| ==> StatementDeclared(defs[k].statements[i], defs)
  }

  predicate StatementDeclared(s: Option<Expr>, defs: seq<FunctionDefinition>) {
    s.Some? ==> forall name :: name in s.value.Names() ==> Declares(defs, name)
  }

  /** Exactly when compiling ends with a name error, whatever other errors the program has. */
  lemma NameErrorIff(defs: seq<FunctionDefinition>)
    ensures CompileProgram(defs) == Err(NameError) <==> !DistinctNames(defs) || !AllDeclared(defs)
  {
    hide CheckAll, EmitAll, Declare, ResolveAll, DistinctNames, ResolveFunction, AllDeclared;
    DeclareIff(defs);
    if Declare(defs).Ok? {
      var names := Declare(defs).value;
      ResolveAllIff(defs, names);
      DeclaredIff(defs, names);
      if ResolveAll(defs, names).Ok? {
        CheckAllNoNameError(ResolveAll(defs, names).value);
        if CheckAll(ResolveAll(defs, names).value).Ok? {
          EmitAllNoNameError(CheckAll(ResolveAll(defs, names).value).value);
        }
      }
    }
  }

  lemma DeclaredIff(defs: seq<FunctionDefinition>, names: Names)
    requires forall name :: name in names <==> Declares(defs, name)
    ensures AllDeclared(defs) <==> forall k :: 0 <= k < |defs| ==> ResolveFunction(defs[k], names).Ok?
  {
    hide ResolveFunction, Declares;
    forall k | 0 <= k < |defs|
      ensures ResolveFunction(defs[k], names).Ok? <==>
                forall i :: 0 <= i < |defs[k].statements| ==> StatementDeclared(defs[k].statements[i], defs)
    {
      ResolveFunctionIff(defs[k], names);
      forall i | 0 <= i < |defs[k].statements|
        ensures Visible(defs[k].statements[i], names) <==> StatementDeclared(defs[k].statements[i], defs)
      {
      }
    }
  }

  lemma {:induction false} CheckAllNoNameError(defs: seq<FunctionDefinition>)
    ensures CheckAll(defs) != Err(NameError)
    decreases |defs|
  {
    hide CheckFunction, EmitFunction;
    if defs == [] {
    } else {
      CheckAllNoNameError(defs[..|defs| - 1]);
      NoNameError(defs[|defs| - 1]);
    }
  }

  lemma {:induction false} EmitAllNoNameError(defs: seq<FunctionDefinition>)
    ensures EmitAll(defs) != Err(NameError)
    decreases |defs|
  {
    hide CheckFunction, EmitFunction;
    if defs == [] {
    } else {
      EmitAllNoNameError(defs[..|defs| - 1]);
      NoNameError(defs[|defs| - 1]);
    }
  }

  // ---- lowering succeeds -------------------------------------------------------------------

  lemma {:induction false} LowerBlockSucceeds(types: seq<IrTypes.IrType>, a: Alloc, instrs: seq<Instruction>)
    requires a.Valid() && BlockOk(types, instrs)
    ensures LowerBlock(types, a, instrs).Ok?
  {
    hide LowerInstruction, SafeOperands, SafeComplement;
    if instrs == [] {
    } else {
      LowerBlockSucceeds(types, a, instrs[..|instrs| - 1]);
    }
  }

  lemma LowersWhenReturning(types: seq<IrTypes.IrType>, slots: seq<Slot>, entry: BasicBlock)
    requires |slots| == SLOT_COUNT && BlockOk(types, entry.instructions) && entry.terminator.Return?
    ensures LowerFunction(types, slots, entry).Ok?
  {
    hide LowerBlock, LowerReturnValue, AfterReturn, BlockOk;
    LowerBlockSucceeds(types, Initial(slots), entry.instructions);
  }

  /** A compiled function that returns can be lowered. */
  lemma EntryLowers(f: FunctionDefinition, slots: seq<Slot>)
    requires |slots| == SLOT_COUNT && f.Fresh() && CompileFunction(f).Ok? && f.Returns()
    ensures CompileFunction(f).value.blocks != []
    ensures LowerFunction(CompileFunction(f).value.vregs, slots, CompileFunction(f).value.blocks[0]).Ok?
  {
    hide LowerFunction, CompileFunction, S.Eval, Run, FunctionDefinition.Fresh;
    var fn := CompileFunction(f).value;
    if f.Returned().Some? {
      CompiledEntry(f);
    } else {
      EmptyEntry(f);
    }
    LowersWhenReturning(fn.vregs, slots, fn.blocks[0]);
  }

  lemma {:induction false} LowerIrSucceeds(slots: seq<Slot>, fns: seq<Function>)
    requires |slots| == SLOT_COUNT && HasEntries(fns)
    requires forall k, s: seq<Slot> :: 0 <= k < |fns| && |s| == SLOT_COUNT ==>
               LowerFunction(fns[k].vregs, s, fns[k].blocks[0]).Ok?
    ensures Program.LowerIr(slots, fns).Ok?
    decreases |fns|
  {
    hide LowerFunction, SlotsAfter, Dump, EncodeAll;
    if fns == [] {
    } else {
      LowerIrSucceeds(slots, fns[..|fns| - 1]);
    }
  }

  // ---- the theorem -------------------------------------------------------------------------

  /** Some order of n functions, as a hash table may yield them. */
  predicate Arrangement(order: seq<nat>, n: nat) {
    && |order| == n && (forall i :: 0 <= i < n ==> order[i] < n)
    && (forall i, j :: 0 <= i < j < n ==> order[i] != order[j])
    && (forall k: nat :: k < n ==> k in order)
  }

  function Arrange(fns: seq<Function>, order: seq<nat>): (r: seq<Function>)
    requires Arrangement(order, |fns|)
    ensures HasEntries(fns) ==> HasEntries(r)
    ensures |r| == |order| && forall i :: 0 <= i < |order| ==> r[i] == fns[order[i]]
  {
    seq(|order|, i requires 0 <= i < |order| => fns[order[i]])
  }

  /** A program the compiler accepts: as parsed, names distinct, every statement of the type its function
      declares, and a return in every function. */
  ghost predicate Acceptable(defs: seq<FunctionDefinition>) {
    && DistinctNames(defs)
    && (forall k :: 0 <= k < |defs| ==> defs[k].Fresh() && defs[k].Returns() && CompileFunction(defs[k]).Ok?)
  }

  /** Such a program compiles and lowers in any order, and links when it has a main function. */
  lemma AcceptableLinks(defs: seq<FunctionDefinition>, order: seq<nat>, slots: seq<Slot>)
    requires Acceptable(defs) && |slots| == SLOT_COUNT && Arrangement(order, |defs|)
    ensures CompileProgram(defs).Ok? && HasEntries(CompileProgram(defs).value)
    ensures HasEntries(Arrange(CompileProgram(defs).value, order))
    ensures Program.LowerIr(slots, Arrange(CompileProgram(defs).value, order)).Ok?
  {
    hide FunctionDefinition.Fresh, FunctionDefinition.Returns, CompileFunction, CompileProgram, LowerFunction;
    hide Program.LowerIr;
    hide DistinctNames;
    CompileProgramEach(defs);
    var fns := CompileProgram(defs).value;
    forall k, s: seq<Slot> | 0 <= k < |fns| && |s| == SLOT_COUNT
      ensures fns[k].blocks != [] && LowerFunction(fns[k].vregs, s, fns[k].blocks[0]).Ok?
    {
      EntryLowers(defs[k], s);
    }
    forall k | 0 <= k < |fns|
      ensures fns[k].blocks != []
    {
      EntryLowers(defs[k], slots);
    }
    LowerIrSucceeds(slots, Arrange(fns, order));
  }

  /** Main is found, wherever it is put. */
  lemma MainFound(defs: seq<FunctionDefinition>, order: seq<nat>, j: nat) returns (k: nat)
    requires (forall i :: 0 <= i < |defs| ==> defs[i].Fresh()) && CompileProgram(defs).Ok?
    requires Arrangement(order, |defs|) && j < |defs| && defs[j].name == "main"
    ensures var fns := Arrange(CompileProgram(defs).value, order);
            && k < |fns| && CompileFunction(defs[j]) == Ok(fns[k]) && fns[k].name == "main"
            && forall i :: 0 <= i < k ==> fns[i].name != "main"
  {
    hide FunctionDefinition.Fresh, CompileFunction, CheckAll, EmitAll;
    CompileProgramEach(defs);
    assert j in order;
    k :| 0 <= k < |order| && order[k] == j;
    forall i | 0 <= i < |order|
      ensures Arrange(CompileProgram(defs).value, order)[i].name == defs[order[i]].name
    {
      CompiledName(defs[order[i]]);
    }
  }

  /** The machine has room for the frame of `return e;` or `return;`, and the frame fits the immediates. */
  predicate Fits(e: Option<Expr>, m: Machine) {
    FrameSize(e).0 <= 506 && FrameSize(e).1 <= m.cpu.Get(2)
  }

  /** Function j is main, and the machine has room for it. */
  predicate MainFits(defs: seq<FunctionDefinition>, j: nat, m: Machine) {
    j < |defs| && defs[j].name == "main" && Fits(defs[j].Returned(), m)
  }

  /** The image of these functions, placed at base, runs main, which returns e, or nothing. */
  ghost predicate Delivers(slots: seq<Slot>, fns: seq<Function>, base: Word, m: Machine, e: Option<Expr>)
    requires |slots| == SLOT_COUNT && HasEntries(fns)
  {
    && Link(slots, fns).Ok?
    && var image, main := Link(slots, fns).value, FindMain(Program.LowerIr(slots, fns).value.0.functions, 0);
    && main.Some?
    && (Placed(image, base) && m.pc == base ==> RunsMain(image, base, m, main.value, e))
  }

  /** Compiler correctness, end to end. An acceptable program whose main needs at most 506 registers compiles;
      its functions, in whatever order, lower and link to a text. Wherever the text is put, the machine that
      starts at its first instruction, with room for the frame of main below sp, enters main exactly when bit
      11 of its shifted offset is clear, and then reaches the exit call: with the value of e, sign- or
      zero-extended, in x10 if main returns e, and with x10 as it was at the start if main returns nothing. */
  lemma CompilerCorrect(defs: seq<FunctionDefinition>, order: seq<nat>, j: nat, slots: seq<Slot>, base: Word,
                        m: Machine)
    requires Acceptable(defs) && |slots| == SLOT_COUNT && Arrangement(order, |defs|)
    requires MainFits(defs, j, m)
    ensures CompileProgram(defs).Ok? && HasEntries(Arrange(CompileProgram(defs).value, order))
    ensures Delivers(slots, Arrange(CompileProgram(defs).value, order), base, m, defs[j].Returned())
  {
    hide FunctionDefinition.Fresh, FunctionDefinition.Returns, CompileFunction, CompileProgram, Program.LowerIr;
    hide DistinctNames, Arrange, ExitValue, FrameSize, FunctionDefinition.Returned, S.Eval, S.Number, ExitsWith;
    hide Placed, Arrangement, FindMain;
    hide HasEntries, Link, ToWord;
    AcceptableLinks(defs, order, slots);
    var k := MainFound(defs, order, j);
    var fns := Arrange(CompileProgram(defs).value, order);
    LinkSucceeds(slots, fns, k);
    if defs[j].Returned().Some? { CompiledValue(defs[j]); }
    if Placed(Link(slots, fns).value, base) && m.pc == base {
      ProgramCorrect(defs[j], slots, fns, k, base, m);
    }
  }

  /** If main is lowered first, nothing stands in the way: every such program, in particular every program of
      one function, exits with what main returns. */
  lemma MainFirst(defs: seq<FunctionDefinition>, order: seq<nat>, j: nat, slots: seq<Slot>, base: Word, m: Machine)
    requires Acceptable(defs) && |slots| == SLOT_COUNT && Arrangement(order, |defs|)
    requires MainFits(defs, j, m) && order[0] == j
    ensures CompileProgram(defs).Ok? && HasEntries(Arrange(CompileProgram(defs).value, order))
    ensures var image := Link(slots, Arrange(CompileProgram(defs).value, order));
            && image.Ok? && (defs[j].Returned().Some? ==> S.Eval(defs[j].Returned().value).Some?)
            && (Placed(image.value, base) && m.pc == base ==>
                  ExitsWith(image.value, base, m, ExitValue(defs[j].Returned(), m.cpu)))
  {
    hide FunctionDefinition.Fresh, FunctionDefinition.Returns, CompileFunction, CompileProgram, Program.LowerIr;
    hide DistinctNames, ExitValue, Fits, FunctionDefinition.Returned, S.Eval, S.Number, ExitsWith, Placed;
    hide HasEntries, Link, ToWord, EntersMain;
    AcceptableLinks(defs, order, slots);
    CompilerCorrect(defs, order, j, slots, base, m);
    CompileProgramNames(defs, j);
    var fns := Arrange(CompileProgram(defs).value, order);
    FirstAtStart(slots, fns);
    FindMainIs(Program.LowerIr(slots, fns).value.0.functions, 0, 0);
    CompileProgramEach(defs);
    if defs[j].Returned().Some? { CompiledValue(defs[j]); }
  }

  lemma CompileProgramNames(defs: seq<FunctionDefinition>, j: nat)
    requires (forall i :: 0 <= i < |defs| ==> defs[i].Fresh()) && CompileProgram(defs).Ok? && j < |defs|
    ensures CompileProgram(defs).value[j].name == defs[j].name
  {
    hide FunctionDefinition.Fresh, CompileFunction, CompileProgram;
    CompileProgramEach(defs);
    CompiledName(defs[j]);
  }

  lemma LinkSucceeds(slots: seq<Slot>, fns: seq<Function>, k: nat)
    requires |slots| == SLOT_COUNT && HasEntries(fns) && Program.LowerIr(slots, fns).Ok? && k < |fns|
    requires fns[k].name == "main" && forall i :: 0 <= i < k ==> fns[i].name != "main"
    ensures Link(slots, fns).Ok? && FindMain(Program.LowerIr(slots, fns).value.0.functions, 0).Some?
  {
    hide Program.LowerIr, Dump, EncodeAll, RuntimeCode, PlacedAt;
    var o := Program.LowerIr(slots, fns).value.0;
    forall i | 0 <= i < |fns|
      ensures o.functions[i].0 == fns[i].name
    {
      LowerIrPlaces(slots, fns, i);
    }
    FindMainIs(o.functions, 0, k);
  }

  // ---- from text ---------------------------------------------------------------------------

  /** An order for every number of functions. */
  ghost predicate Ordering(order: nat -> seq<nat>) { forall n: nat :: Arrangement(order(n), n) }

  /** The whole pipeline, from tokens to an executable. */
  ghost function Build(ts: seq<Token>, slots: seq<Slot>, order: nat -> seq<nat>): Result<seq<Byte>>
    requires |slots| == SLOT_COUNT && Ordering(order)
  {
    var defs :- ParseProgram(ts);
    var fns :- CompileProgram(defs);
    CompiledHasEntries(defs);
    Link(slots, Arrange(fns, order(|fns|)))
  }

  lemma CompiledHasEntries(defs: seq<FunctionDefinition>)
    requires CompileProgram(defs).Ok?
    ensures HasEntries(CompileProgram(defs).value)
  {
    hide CheckAll, EmitAll, Declare, ResolveAll;
    EmitAllHasEntries(CheckAll(ResolveAll(defs, Declare(defs).value).value).value);
  }

  /** Building comes back when the line comments before the first end of the text end in newlines. */
  lemma BuildComesBack(text: string)
    requires Ends(text, true)
    ensures ParseProgram(Stream(text)) != Err(Divergence)
  {
    hide ParseProgram, Stream, Ends;
    ReachesFirstEnd(text);
    ProgramComesBack(Stream(text));
  }

  /** The compiled functions, in the order in which they are lowered. */
  ghost function Arranged(defs: seq<FunctionDefinition>, order: nat -> seq<nat>): (fns: seq<Function>)
    requires CompileProgram(defs).Ok? && Ordering(order)
    ensures HasEntries(fns)
  {
    CompiledHasEntries(defs);
    Arrange(CompileProgram(defs).value, order(|defs|))
  }

  /** Compiler correctness for program text: tokens that parse to an acceptable program are built into the
      image of its functions, which, run, ends with what main returns. */
  lemma BuildCorrect(ts: seq<Token>, order: nat -> seq<nat>, j: nat, slots: seq<Slot>, base: Word, m: Machine)
    requires ParseProgram(ts).Ok? && Acceptable(ParseProgram(ts).value) && |slots| == SLOT_COUNT && Ordering(order)
    requires MainFits(ParseProgram(ts).value, j, m)
    ensures var defs := ParseProgram(ts).value;
            && CompileProgram(defs).Ok?
            && Build(ts, slots, order) == Link(slots, Arranged(defs, order))
            && Delivers(slots, Arranged(defs, order), base, m, defs[j].Returned())
  {
    hide FunctionDefinition.Fresh, CompileFunction, CompileProgram, Program.LowerIr, Arrange;
    hide FunctionDefinition.Returns;
    hide Fits, FunctionDefinition.Returned, Delivers, Arrangement, HasEntries, Link, ParseProgram, DistinctNames;
    var defs := ParseProgram(ts).value;
    CompilerCorrect(defs, order(|defs|), j, slots, base, m);
  }

  /** From the text of a program to its run. Whatever text consists of an acceptable program - with any
      parentheses that its trees need or allow, and any blanks and comments between its tokens - is lexed,
      parsed and built into the image of its functions, which, run, ends with what main returns. */
  lemma TextCorrect(text: string, defs: seq<FunctionDefinition>, order: nat -> seq<nat>, j: nat, slots: seq<Slot>,
                    base: Word, m: Machine)
    requires IsProgramText(text, defs) && Acceptable(defs) && MainFits(defs, j, m)
    requires |slots| == SLOT_COUNT && Ordering(order)
    ensures CompileProgram(defs).Ok?
    ensures Build(Stream(text), slots, order) == Link(slots, Arranged(defs, order))
    ensures Delivers(slots, Arranged(defs, order), base, m, defs[j].Returned())
  {
    hide FunctionDefinition.Fresh, CompileFunction, CompileProgram, Program.LowerIr, Arrange;
    hide FunctionDefinition.Returns;
    hide Fits, FunctionDefinition.Returned, Delivers, Arrangement, HasEntries, Link, Build, Arranged;
    hide Stream, ParseProgram, DistinctNames, IsProgramText;
    ProgramTextIff(text, defs);
    BuildCorrect(Stream(text), order, j, slots, base, m);
  }
}
