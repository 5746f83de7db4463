/** The pipeline as it runs, one object after the other. */
module Driver {
  import opened Words
  import opened Results
  import opened Ast
  import opened Semantics
  import opened Symbols
  import opened Ir
  import opened Program
  import opened Lexing
  import opened ProgramParsing
  import opened Compiler
  import W = IrWriting
  import G = CodeGeneration

  /** Declares all functions in a table. */
  method DeclareProgram(defs: seq<FunctionDefinition>) returns (globals: SymbolScope, r: Result<()>)
    ensures globals.Valid() && fresh(globals.scopes)
    ensures match Declare(defs)
            case Ok(names) => r == Ok(()) && globals.Visible() == names
            case Err(e) => r == Err(e)
  {
    globals := new SymbolScope(null);
    for k := 0 to |defs|
      invariant globals.Valid() && globals.parent == null && fresh(globals.scopes)
      invariant Declare(defs[..k]) == Ok(globals.symbols)
    {
      assert defs[..k + 1][..k] == defs[..k];
      r := globals.Add(defs[k].name, FunctionType(defs[k]));
      if r.Err? {
        DeclareStops(defs, k + 1, NameError);
        return;
      }
    }
    assert defs[..|defs|] == defs;
    r := Ok(());
  }

  /** Looks up all identifiers, those of a function from a table of its own. */
  method ResolveProgram(defs: seq<FunctionDefinition>, globals: SymbolScope)
    returns (r: Result<seq<FunctionDefinition>>)
    requires globals.Valid()
    ensures r == ResolveAll(defs, globals.Visible())
  {
    hide ResolveFunction;
    var resolved: seq<FunctionDefinition> := [];
    for k := 0 to |defs|
      invariant ResolveAll(defs[..k], globals.Visible()) == Ok(resolved)
    {
      assert defs[..k + 1][..k] == defs[..k];
      var scope := new SymbolScope(globals);
      var f := ResolveFunction(defs[k], scope.Visible());
      if f.Err? {
        ResolveAllStops(defs, k + 1, globals.Visible(), f.error);
        return Err(f.error);
      }
      resolved := resolved + [f.value];
    }
    assert defs[..|defs|] == defs;
    r := Ok(resolved);
  }

  method CheckProgram(defs: seq<FunctionDefinition>) returns (r: Result<seq<FunctionDefinition>>)
    ensures r == CheckAll(defs)
  {
    hide CheckFunction;
    var checked: seq<FunctionDefinition> := [];
    for k := 0 to |defs|
      invariant CheckAll(defs[..k]) == Ok(checked)
    {
      assert defs[..k + 1][..k] == defs[..k];
      var f := CheckFunction(defs[k]);
      if f.Err? {
        CheckAllStops(defs, k + 1, f.error);
        return Err(f.error);
      }
      checked := checked + [f.value];
    }
    assert defs[..|defs|] == defs;
    r := Ok(checked);
  }

  method EmitProgram(defs: seq<FunctionDefinition>) returns (r: Result<seq<Function>>)
    ensures r == EmitAll(defs)
  {
    hide FunctionEmission.EmitFunction;
    var writer := new W.IrWriter();
    for k := 0 to |defs|
      invariant fresh(writer) && EmitAll(defs[..k]) == Ok(writer.Functions())
    {
      assert defs[..k + 1][..k] == defs[..k];
      var emitted := W.EmitFunction(writer, defs[k]);
      if emitted.Err? {
        EmitAllStops(defs, k + 1, emitted.error);
        return Err(emitted.error);
      }
    }
    assert defs[..|defs|] == defs;
    var fns := writer.GetObject();
    r := Ok(fns);
  }

  /** Resolves and checks all functions, emits them with one writer, and builds the executable with one generator. order
      stands for the order in which the table of functions is walked. */
  method Compile(defs: seq<FunctionDefinition>, generator: G.CodeGenerator, order: seq<nat>)
    returns (r: Result<seq<Byte>>)
    requires generator.Valid() && Arrangement(order, |defs|)
    modifies generator, generator.registers
    ensures match CompileProgram(defs)
            case Ok(fns) => HasEntries(fns) && r == Link(old(generator.registers[..]), Arrange(fns, order))
            case Err(e) => r == Err(e)
  {
    hide CheckAll, EmitAll, Link, Arrange, HasEntries, Arrangement, Declare, ResolveAll, SymbolScope.Visible;
    var globals, declared := DeclareProgram(defs);
    if declared.Err? { return Err(declared.error); }
    var resolved :- ResolveProgram(defs, globals);
    var checked :- CheckProgram(resolved);
    var fns :- EmitProgram(checked);
    EmitAllHasEntries(checked);
    r := G.BuildExecutable(generator, Arrange(fns, order));
  }

  /** From text to an executable. */
  method CompileText(text: string, generator: G.CodeGenerator, order: nat -> seq<nat>) returns (r: Result<seq<Byte>>)
    requires generator.Valid() && Ordering(order) && ParseProgram(Stream(text)) != Err(Divergence)
    modifies generator, generator.registers
    ensures r == Build(Stream(text), old(generator.registers[..]), order)
  {
    hide CompileProgram, Link, Arrange, HasEntries, Arrangement, Stream, ParseProgram;
    var defs :- ParseText(text);
    r := Compile(defs, generator, order(|defs|));
  }
}
