/** Whole programs: the code of all functions behind the runtime stub, and what running it does. */
module Program {
  import opened Words
  import opened Results
  import opened Ast
  import S = SourceSemantics
  import Semantics
  import IrTypes
  import opened Riscv
  import opened Encoding
  import opened Text
  import opened Ir
  import opened IrSemantics
  import opened Allocator
  import opened Frame
  import opened FunctionEmission
  import opened FunctionCorrectness
  import opened Runtime

  datatype ObjectFile = ObjectFile(code: seq<Byte>, functions: seq<(string, nat)>)

  predicate HasEntries(fns: seq<Function>) {
    forall k :: 0 <= k < |fns| ==> fns[k].blocks != []
  }

  /** Lowers functions one after the other. The slots keep their residents from one to the next. */
  function LowerIr(slots: seq<Slot>, fns: seq<Function>): (r: Result<(ObjectFile, seq<Slot>)>)
    requires |slots| == SLOT_COUNT && HasEntries(fns)
    ensures r.Ok? ==> |r.value.1| == SLOT_COUNT && |r.value.0.functions| == |fns|
  {
    if fns == [] then Ok((ObjectFile([], []), slots))
    else
      var (o, s) :- LowerIr(slots, fns[..|fns| - 1]);
      var fn := fns[|fns| - 1];
      var code :- LowerFunction(fn.vregs, s, fn.blocks[0]);
      Ok((ObjectFile(o.code + Dump(EncodeAll(code)), o.functions + [(fn.name, |o.code|)]),
          SlotsAfter(fn.vregs, s, fn.blocks[0])))
  }

  /** The position of the first function called main. */
  function FindMain(functions: seq<(string, nat)>, i: nat): Option<nat>
    requires i <= |functions|
    decreases |functions| - i
  {
    if i == |functions| then None
    else if functions[i].0 == "main" then Some(functions[i].1)
    else FindMain(functions, i + 1)
  }

  /** The executable code: the stub, then the functions. */
  function Link(slots: seq<Slot>, fns: seq<Function>): Result<seq<Byte>>
    requires |slots| == SLOT_COUNT && HasEntries(fns)
  {
    var (o, _) :- LowerIr(slots, fns);
    match FindMain(o.functions, 0)
    case None => Err(SemanticError)
    case Some(offset) => Ok(Dump(EncodeAll(RuntimeCode(offset))) + o.code)
  }

  /** Function k lies in the code where the table says. */
  ghost predicate PlacedAt(fn: Function, code: seq<Byte>, offset: nat) {
    && fn.blocks != [] && offset % 4 == 0 && offset + 4 <= |code|
    && exists s: seq<Slot> {:trigger LowerFunction(fn.vregs, s, fn.blocks[0])} ::
         |s| == SLOT_COUNT && LowerFunction(fn.vregs, s, fn.blocks[0]).Ok? &&
         Contains(code, offset, EncodeAll(LowerFunction(fn.vregs, s, fn.blocks[0]).value))
  }

  lemma ContainsExtend(before: seq<Byte>, text: seq<Byte>, after: seq<Byte>, offset: nat, words: seq<Word>)
    requires Contains(text, offset, words)
    ensures Contains(before + text + after, |before| + offset, words)
  {
    hide Dump;
    var n := offset + 4 * |words|;
    assert (before + text + after)[|before| + offset..|before| + n] == text[offset..n];
  }

  lemma PlacedExtend(fn: Function, before: seq<Byte>, code: seq<Byte>, after: seq<Byte>, offset: nat)
    requires PlacedAt(fn, code, offset) && |before| % 4 == 0
    ensures PlacedAt(fn, before + code + after, |before| + offset)
  {
    hide LowerFunction, Contains, EncodeAll;
    var s: seq<Slot> :| |s| == SLOT_COUNT && LowerFunction(fn.vregs, s, fn.blocks[0]).Ok? &&
         Contains(code, offset, EncodeAll(LowerFunction(fn.vregs, s, fn.blocks[0]).value));
    ContainsExtend(before, code, after, offset, EncodeAll(LowerFunction(fn.vregs, s, fn.blocks[0]).value));
  }

  lemma CodeNotEmpty(types: seq<IrTypes.IrType>, slots: seq<Slot>, entry: BasicBlock)
    requires |slots| == SLOT_COUNT && LowerFunction(types, slots, entry).Ok?
    ensures |LowerFunction(types, slots, entry).value| > 0
  {
    hide LowerToReturn, AfterReturn;
  }

  lemma PlacedLast(fn: Function, s: seq<Slot>, code: seq<Byte>)
    requires fn.blocks != [] && |s| == SLOT_COUNT && LowerFunction(fn.vregs, s, fn.blocks[0]).Ok? && |code| % 4 == 0
    ensures PlacedAt(fn, code + Dump(EncodeAll(LowerFunction(fn.vregs, s, fn.blocks[0]).value)), |code|)
  {
    hide LowerFunction, EncodeAll, Dump;
    CodeNotEmpty(fn.vregs, s, fn.blocks[0]);
    var words := EncodeAll(LowerFunction(fn.vregs, s, fn.blocks[0]).value);
    assert (code + Dump(words))[|code|..|code| + 4 * |words|] == Dump(words);
    assert Contains(code + Dump(words), |code|, words);
  }

  /** The function table is right about every function. */
  lemma {:induction false} LowerIrPlaces(slots: seq<Slot>, fns: seq<Function>, k: nat)
    requires |slots| == SLOT_COUNT && HasEntries(fns) && LowerIr(slots, fns).Ok? && k < |fns|
    ensures var o := LowerIr(slots, fns).value.0;
            |o.code| % 4 == 0 && o.functions[k].0 == fns[k].name && PlacedAt(fns[k], o.code, o.functions[k].1)
    decreases |fns|
  {
    hide LowerFunction, SlotsAfter, PlacedAt, Dump, EncodeAll;
    var n := |fns| - 1;
    var prefix, fn := fns[..n], fns[n];
    var (o, s) := LowerIr(slots, prefix).value;
    LowerIrAligned(slots, prefix);
    PlacedLast(fn, s, o.code);
    if k < n {
      LowerIrPlaces(slots, prefix, k);
      var more := Dump(EncodeAll(LowerFunction(fn.vregs, s, fn.blocks[0]).value));
      PlacedExtend(fns[k], [], o.code, more, o.functions[k].1);
      assert [] + o.code + more == o.code + more;
    }
  }

  lemma {:induction false} LowerIrAligned(slots: seq<Slot>, fns: seq<Function>)
    requires |slots| == SLOT_COUNT && HasEntries(fns) && LowerIr(slots, fns).Ok?
    ensures |LowerIr(slots, fns).value.0.code| % 4 == 0
    decreases |fns|
  {
    hide LowerFunction, SlotsAfter, Dump, EncodeAll;
    if fns == [] {
    } else {
      LowerIrAligned(slots, fns[..|fns| - 1]);
    }
  }

  lemma {:induction false} FindMainIs(functions: seq<(string, nat)>, i: nat, k: nat)
    requires i <= k < |functions| && functions[k].0 == "main"
    requires forall j :: 0 <= j < k ==> functions[j].0 != "main"
    ensures FindMain(functions, i) == Some(functions[k].1)
    decreases k - i
  {
    if i == k {
    } else {
      FindMainIs(functions, i + 1, k);
    }
  }

  lemma {:induction false} FindMainIff(functions: seq<(string, nat)>, i: nat)
    requires i <= |functions|
    ensures FindMain(functions, i).Some? <==> exists k :: i <= k < |functions| && functions[k].0 == "main"
    decreases |functions| - i
  {
    if i == |functions| {
    } else {
      FindMainIff(functions, i + 1);
    }
  }

  /** The first function lies at the start. */
  lemma {:induction false} FirstAtStart(slots: seq<Slot>, fns: seq<Function>)
    requires |slots| == SLOT_COUNT && HasEntries(fns) && LowerIr(slots, fns).Ok? && fns != []
    ensures LowerIr(slots, fns).value.0.functions[0] == (fns[0].name, 0)
    decreases |fns|
  {
    hide LowerFunction, SlotsAfter, Dump, EncodeAll;
    if |fns| == 1 {
      assert fns[..0] == [];
    } else {
      FirstAtStart(slots, fns[..|fns| - 1]);
    }
  }

  /** Functions that lower link exactly when one of them is called main. */
  lemma LinkNeedsMain(slots: seq<Slot>, fns: seq<Function>)
    requires |slots| == SLOT_COUNT && HasEntries(fns) && LowerIr(slots, fns).Ok?
    ensures Link(slots, fns).Ok? <==> exists k :: 0 <= k < |fns| && fns[k].name == "main"
    ensures Link(slots, fns).Err? ==> Link(slots, fns) == Err(SemanticError)
  {
    hide LowerIr, EncodeAll, Dump, RuntimeCode;
    var o := LowerIr(slots, fns).value.0;
    forall j | 0 <= j < |fns|
      ensures o.functions[j].0 == fns[j].name
    {
      LowerIrPlaces(slots, fns, j);
    }
    FindMainIff(o.functions, 0);
  }

  /** Where Link puts main. */
  lemma LinkPlaces(slots: seq<Slot>, fns: seq<Function>, k: nat) returns (offset: nat)
    requires |slots| == SLOT_COUNT && HasEntries(fns) && Link(slots, fns).Ok? && k < |fns|
    requires fns[k].name == "main" && forall j :: 0 <= j < k ==> fns[j].name != "main"
    ensures FindMain(LowerIr(slots, fns).value.0.functions, 0) == Some(offset)
    ensures Contains(Link(slots, fns).value, 0, EncodeAll(RuntimeCode(offset)))
    ensures PlacedAt(fns[k], Link(slots, fns).value, 16 + offset)
  {
    hide LowerIr, EncodeAll, Dump, PlacedAt, RuntimeCode;
    var o := LowerIr(slots, fns).value.0;
    forall j | 0 <= j < |fns|
      ensures o.functions[j].0 == fns[j].name
    {
      LowerIrPlaces(slots, fns, j);
    }
    FindMainIs(o.functions, 0, k);
    offset := o.functions[k].1;
    LowerIrPlaces(slots, fns, k);
    var stub := Dump(EncodeAll(RuntimeCode(offset)));
    StubLength(offset);
    PlacedExtend(fns[k], stub, o.code, [], offset);
    assert stub + o.code + [] == stub + o.code;
    assert (stub + o.code)[0..16] == stub;
  }

  lemma StubLength(offset: nat)
    ensures |Dump(EncodeAll(RuntimeCode(offset)))| == 16 && |EncodeAll(RuntimeCode(offset))| == 4
  {
    hide Dump, EncodeAll;
  }

  /** What x10 holds when a function returns: the value of e, sign- or zero-extended, or what it held before if
      the function returns nothing. */
  function ExitValue(e: Option<Expr>, c: Cpu): Word {
    if e.Some? && S.Eval(e.value).Some? then ToWord(S.Number(S.Eval(e.value).value)) else c.Get(10)
  }

  /** The entry block of a compiled function answers with the value of its source. */
  lemma EntryAnswers(f: FunctionDefinition, c: Cpu, after: Word)
    requires f.Fresh() && CompileFunction(f).Ok? && f.Returns()
    ensures f.Returned().Some? ==> S.Eval(f.Returned().value).Some?
    ensures var fn := CompileFunction(f).value;
            && fn.blocks != [] && Finishes(fn.vregs, fn.blocks[0])
            && |fn.blocks[0].instructions| == FrameSize(f.Returned()).0
            && (Answers(fn.vregs, fn.blocks[0], c.Get(10), after) ==> after == ExitValue(f.Returned(), c))
  {
    hide CompileFunction, S.Eval, FunctionDefinition.Fresh, Run, PaddedStackSize, ToWord;
    if f.Returned().Some? {
      CompiledEntry(f);
    } else {
      EmptyEntry(f);
    }
  }

  /** A function placed in a text, entered at its first instruction, returns the value of its source, or nothing
      if it begins with `return;`. */
  lemma PlacedRuns(f: FunctionDefinition, text: seq<Byte>, base: Word, offset: nat, m: Machine)
    requires f.Fresh() && CompileFunction(f).Ok? && f.Returns()
    requires FrameSize(f.Returned()).0 <= 506 && FrameSize(f.Returned()).1 <= m.cpu.Get(2)
    requires PlacedAt(CompileFunction(f).value, text, offset)
    requires Placed(text, base) && m.pc == base + offset
    ensures f.Returned().Some? ==> S.Eval(f.Returned().value).Some?
    ensures exists steps: nat, m' :: RunSteps(text, base, m, steps) == Some(m') &&
              Returned(m, m', FrameSize(f.Returned()).1, ExitValue(f.Returned(), m.cpu))
  {
    hide CompileFunction, LowerFunction, Contains, EncodeAll, RunSteps, Returned, S.Eval, FunctionDefinition.Fresh;
    hide Finishes, Answers, PaddedStackSize, ToWord, ExitValue, FunctionDefinition.Returned;
    EntryAnswers(f, m.cpu, 0);
    var fn := CompileFunction(f).value;
    var s: seq<Slot> :| |s| == SLOT_COUNT && LowerFunction(fn.vregs, s, fn.blocks[0]).Ok? &&
         Contains(text, offset, EncodeAll(LowerFunction(fn.vregs, s, fn.blocks[0]).value));
    var value := FunctionRuns(text, base, offset, fn.vregs, s, fn.blocks[0], m);
    EntryAnswers(f, m.cpu, value);
  }

  /** The number of registers of `return e;` or `return;`, and the size of its frame. */
  function FrameSize(e: Option<Expr>): (nat, nat) {
    var n := if e.None? then 0 else e.value.Nodes() + if e.value.Negates() then 1 else 0;
    (n, PaddedStackSize(n))
  }

  /** What running an image does, when its main is this: the stub enters main exactly when bit 11 of the shifted
      offset is clear, and then the machine reaches the exit call with the value of e in x10, or with x10 as it
      was at the start if main returns nothing. */
  ghost predicate RunsMain(image: seq<Byte>, base: Word, m: Machine, offset: nat, e: Option<Expr>) {
    && (e.Some? ==> S.Eval(e.value).Some?)
    && (EntersMain(image, base, m, offset) <==> (offset + 16) % 4096 < 2048)
    && (EntersMain(image, base, m, offset) ==> ExitsWith(image, base, m, ExitValue(e, m.cpu)))
  }

  /** Compiler correctness. Take a program, as the parser leaves it, whose first function called main returns
      and needs at most 506 registers. Link it with any other functions that lower, in any order and after any
      earlier use of the slots; put the text anywhere; start the machine at its first instruction with room for
      the frame below sp. */
  lemma ProgramCorrect(f: FunctionDefinition, slots: seq<Slot>, fns: seq<Function>, k: nat, base: Word, m: Machine)
    requires f.Fresh() && f.name == "main" && f.Returns()
    requires FrameSize(f.Returned()).0 <= 506 && FrameSize(f.Returned()).1 <= m.cpu.Get(2)
    requires |slots| == SLOT_COUNT && HasEntries(fns) && k < |fns| && CompileFunction(f) == Ok(fns[k])
    requires forall j :: 0 <= j < k ==> fns[j].name != "main"
    requires Link(slots, fns).Ok? && Placed(Link(slots, fns).value, base) && m.pc == base
    ensures var offset := FindMain(LowerIr(slots, fns).value.0.functions, 0);
            offset.Some? && RunsMain(Link(slots, fns).value, base, m, offset.value, f.Returned())
  {
    hide CompileFunction, Contains, EncodeAll, RunSteps, Returned, S.Eval, FunctionDefinition.Fresh, Link, LowerIr;
    hide RuntimeCode, FrameSize, ExitsWith, ToWord, Cpu.Get, Cpu.Set, PlacedAt, FindMain, Encode, CallLands;
    hide FunctionDefinition.Returned, S.Number, HasEntries, Placed, ExitValue, FunctionDefinition.Returns;
    CompiledName(f);
    var offset := LinkPlaces(slots, fns, k);
    if f.Returned().Some? { CompiledValue(f); }
    PlacedFits(fns[k], Link(slots, fns).value, 16 + offset);
    StubCalls(Link(slots, fns).value, base, offset, m);
    if (offset + 16) % 4096 < 2048 {
      StubCallsMain(f, Link(slots, fns).value, base, offset, m);
    }
  }

  lemma StubCallsMain(f: FunctionDefinition, text: seq<Byte>, base: Word, offset: nat, m: Machine)
    requires f.Fresh() && CompileFunction(f).Ok? && f.Returns()
    requires FrameSize(f.Returned()).0 <= 506 && FrameSize(f.Returned()).1 <= m.cpu.Get(2)
    requires PlacedAt(CompileFunction(f).value, text, 16 + offset)
    requires Contains(text, 0, EncodeAll(RuntimeCode(offset))) && Placed(text, base) && m.pc == base
    requires (offset + 16) % 4096 < 2048
    ensures ExitsWith(text, base, m, ExitValue(f.Returned(), m.cpu))
  {
    hide CompileFunction, Contains, EncodeAll, RunSteps, Returned, S.Eval, FunctionDefinition.Fresh;
    hide FunctionDefinition.Returned;
    hide RuntimeCode, FrameSize, ExitsWith, ToWord, Cpu.Get, Cpu.Set, PlacedAt, ExitValue, FunctionDefinition.Returns;
    PlacedFits(CompileFunction(f).value, text, 16 + offset);
    var m1 := Machine(m.cpu.Set(RA, base + 8), base + 16 + offset);
    SpKept(m.cpu, base + 8);
    PlacedRuns(f, text, base, 16 + offset, m1);
    assert ExitValue(f.Returned(), m1.cpu) == ExitValue(f.Returned(), m.cpu) by { SameExit(f, m.cpu, base + 8); }
    StubRuns(text, base, offset, m, FrameSize(f.Returned()).1, ExitValue(f.Returned(), m.cpu));
  }

  lemma CompiledName(f: FunctionDefinition)
    requires CompileFunction(f).Ok?
    ensures CompileFunction(f).value.name == f.name
  {
    hide EmitStatements, Semantics.CheckStatements, EmitReturn;
  }

  lemma SameExit(f: FunctionDefinition, c: Cpu, w: Word)
    ensures ExitValue(f.Returned(), c.Set(RA, w)) == ExitValue(f.Returned(), c)
  {
    hide S.Eval;
  }

  lemma CompiledValue(f: FunctionDefinition)
    requires f.Fresh() && CompileFunction(f).Ok? && f.Returned().Some?
    ensures S.Eval(f.Returned().value).Some?
  {
    hide CompileFunction, S.Eval, FunctionDefinition.Fresh;
    CompiledEntry(f);
  }

  lemma PlacedFits(fn: Function, text: seq<Byte>, offset: nat)
    requires PlacedAt(fn, text, offset)
    ensures offset % 4 == 0 && offset < |text|
  {
    hide LowerFunction, Contains;
  }

  lemma SpKept(c: Cpu, w: Word)
    ensures c.Set(RA, w).Get(2) == c.Get(2)
  {
  }
}
