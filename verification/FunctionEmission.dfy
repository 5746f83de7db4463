/** Emission of whole functions: a block for each return statement. */
module FunctionEmission {
  import opened Results
  import opened IrTypes
  import opened FrontendTypes
  import opened Ast
  import S = SourceSemantics
  import opened Semantics
  import opened Ir
  import opened IrSemantics
  import opened IrEmission

  /** A function under construction: the writer holds the open block. */
  datatype Draft = Draft(writer: Writer, blocks: seq<BasicBlock>)

  const EMPTY_DRAFT := Draft(Writer([], [], map[]), [])

  /** Closes the open block with a return and opens the next one. Constants stay cached. */
  function AddReturn(d: Draft, v: Option<VRegId>): Draft {
    Draft(d.writer.(instrs := []), d.blocks + [BasicBlock(|d.blocks|, d.writer.instrs, Return(v))])
  }

  function EmitReturn(d: Draft, e: Option<Expr>): Result<Draft> {
    if e.None? then Ok(AddReturn(d, None))
    else
      var (w, v) :- EmitExpr(d.writer, e.value);
      Ok(AddReturn(Draft(w, d.blocks), Some(v)))
  }

  function EmitStatements(d: Draft, statements: seq<Option<Expr>>): Result<Draft> {
    if statements == [] then Ok(d)
    else
      var d1 :- EmitStatements(d, statements[..|statements| - 1]);
      EmitReturn(d1, statements[|statements| - 1])
  }

  /** The last block stays open. */
  function Finish(name: string, d: Draft): Function {
    Function.Function(name, d.writer.vregs, d.blocks + [BasicBlock(|d.blocks|, d.writer.instrs, Unterminated)])
  }

  function EmitFunction(f: FunctionDefinition): Result<Function> {
    var d :- EmitStatements(EMPTY_DRAFT, f.statements);
    var d' :- if f.tail.Some? then EmitReturn(d, f.tail) else Ok(d);
    Ok(Finish(f.name, d'))
  }

  function CompileFunction(f: FunctionDefinition): Result<Function> {
    var checked :- CheckFunction(f);
    EmitFunction(checked)
  }

  // ---- what is emitted ---------------------------------------------------------------------

  predicate StatementTyped(s: Option<Expr>) { s.Some? ==> Typed(s.value) }

  /** d' continues d: closed blocks stay, registers stay. */
  predicate Extends(d: Draft, d': Draft) {
    d.blocks <= d'.blocks && d.writer.vregs <= d'.writer.vregs
  }

  lemma EmitReturnSucceeds(d: Draft, s: Option<Expr>)
    requires StatementTyped(s)
    ensures EmitReturn(d, s).Ok? && Extends(d, EmitReturn(d, s).value)
  {
    hide EmitExpr, Typed;
    if s.Some? { EmitSucceeds(d.writer, s.value); }
  }

  lemma {:induction false} EmitStatementsSucceeds(d: Draft, ss: seq<Option<Expr>>)
    requires forall i :: 0 <= i < |ss| ==> StatementTyped(ss[i])
    ensures EmitStatements(d, ss).Ok? && Extends(d, EmitStatements(d, ss).value)
    ensures ss != [] ==> EmitReturn(d, ss[0]).Ok? && Extends(EmitReturn(d, ss[0]).value, EmitStatements(d, ss).value)
  {
    hide EmitReturn, StatementTyped;
    if ss == [] {
    } else {
      var prefix := ss[..|ss| - 1];
      EmitStatementsSucceeds(d, prefix);
      EmitReturnSucceeds(EmitStatements(d, prefix).value, ss[|ss| - 1]);
      if prefix != [] { assert prefix[0] == ss[0]; }
    }
  }

  /** The tail of a checked function is a literal: the types of other trees are not resolved. */
  lemma TailIsLiteral(f: FunctionDefinition)
    requires f.Fresh() && CheckFunction(f).Ok? && f.tail.Some?
    ensures f.tail.value.IsLiteral() && Typed(f.tail.value)
    ensures f.returnType.Resolve() == Ok(S.TypeOf(S.Eval(f.tail.value).value))
  {
    hide CheckStatements;
  }

  /** Exactly the functions whose statements fit and whose tail is a literal of the right type compile. */
  lemma CompilesIff(f: FunctionDefinition)
    requires f.Fresh()
    ensures CompileFunction(f).Ok? <==>
              (forall i :: 0 <= i < |f.statements| ==> StatementFits(f.statements[i], f.returnType)) &&
              (f.tail.Some? ==> f.tail.value.Type() == f.returnType)
  {
    hide CheckStatements, EmitStatements, EmitReturn, StatementFits, Finish, Typed;
    StatementsAnnotated(f);
    CheckStatementsIff(f.statements, f.returnType);
    if CheckFunction(f).Ok? && f.Ground() { CheckedEmits(f); }
    if CompileFunction(f).Ok? { CompiledGround(f); }
  }

  lemma StatementsAnnotated(f: FunctionDefinition)
    requires f.Fresh()
    ensures f.Annotated()
  {
    forall i | 0 <= i < |f.statements| && f.statements[i].Some?
      ensures f.statements[i].value.Annotated()
    {
      FreshAnnotated(f.statements[i].value);
    }
  }

  /** s' is s with its types filled in. */
  predicate Checked(s: Option<Expr>, s': Option<Expr>) {
    && StatementTyped(s') && s'.Some? == s.Some?
    && (s.Some? ==> SameMeaning(s.value, s'.value))
  }

  lemma CheckedStatement(s: Option<Expr>, t: FrontendType)
    requires AnnotatedStatement(s) && GroundStatement(s) && CheckStatement(s, t).Ok?
    ensures Checked(s, CheckStatement(s, t).value)
  {
    hide CheckReturn, S.Eval, Typed, SameMeaning;
    CheckStatementIff(s, t);
  }

  lemma {:induction false} EmitStatementsGround(d: Draft, ss: seq<Option<Expr>>)
    requires EmitStatements(d, ss).Ok?
    ensures forall i :: 0 <= i < |ss| ==> GroundStatement(ss[i])
    decreases |ss|
  {
    hide EmitExpr;
    if ss == [] {
    } else {
      var s := ss[|ss| - 1];
      EmitStatementsGround(d, ss[..|ss| - 1]);
      if s.Some? { EmitsGround(EmitStatements(d, ss[..|ss| - 1]).value.writer, s.value); }
    }
  }

  /** A function that compiles has neither identifiers nor calls in its statements. */
  lemma CompiledGround(f: FunctionDefinition)
    requires f.Annotated() && CompileFunction(f).Ok?
    ensures f.Ground()
  {
    hide EmitStatements, EmitReturn, CheckStatements, CheckStatement, StatementFits, GroundStatement,
         AnnotatedStatement;
    var checked := CheckFunction(f).value;
    EmitStatementsGround(EMPTY_DRAFT, checked.statements);
    CheckStatementsIff(f.statements, f.returnType);
    forall i | 0 <= i < |f.statements|
      ensures GroundStatement(f.statements[i])
    {
      CheckedSameGround(f.statements[i], f.returnType);
    }
  }

  lemma CheckedSameGround(s: Option<Expr>, t: FrontendType)
    requires AnnotatedStatement(s) && CheckStatement(s, t).Ok?
    ensures GroundStatement(CheckStatement(s, t).value) == GroundStatement(s)
  {
    hide ResolveType, S.Eval;
    CheckStatementIff(s, t);
  }

  lemma CheckedTyped(f: FunctionDefinition)
    requires f.Fresh() && f.Ground() && CheckFunction(f).Ok?
    ensures var ss := CheckFunction(f).value.statements;
            |ss| == |f.statements| && forall i :: 0 <= i < |ss| ==> Checked(f.statements[i], ss[i])
  {
    hide CheckStatements, Checked, CheckStatement, StatementFits, FunctionDefinition.Fresh, GroundStatement,
         AnnotatedStatement;
    StatementsAnnotated(f);
    CheckStatementsIff(f.statements, f.returnType);
    forall i | 0 <= i < |f.statements|
      ensures Checked(f.statements[i], CheckFunction(f).value.statements[i])
    {
      CheckedStatement(f.statements[i], f.returnType);
    }
  }

  lemma CheckedEmits(f: FunctionDefinition)
    requires f.Fresh() && f.Ground() && CheckFunction(f).Ok?
    ensures EmitFunction(CheckFunction(f).value).Ok?
  {
    hide EmitStatements, EmitReturn, Typed, CheckStatements;
    CheckedTyped(f);
    hide CheckFunction;
    EmitStatementsSucceeds(EMPTY_DRAFT, CheckFunction(f).value.statements);
    if f.tail.Some? {
      TailIsLiteral(f);
      EmitReturnSucceeds(EmitStatements(EMPTY_DRAFT, CheckFunction(f).value.statements).value, f.tail);
    }
  }

  /** Neither checking nor emission misses a name: that is found out before. */
  lemma NoNameError(f: FunctionDefinition)
    ensures CheckFunction(f) != Err(NameError) && EmitFunction(f) != Err(NameError)
  {
    hide CheckStatements, EmitStatements, EmitExpr;
    CheckNoNameError(f.statements, f.returnType);
    EmitNoNameError(EMPTY_DRAFT, f.statements);
    if f.tail.Some? && EmitStatements(EMPTY_DRAFT, f.statements).Ok? {
      ExprNoNameError(EmitStatements(EMPTY_DRAFT, f.statements).value.writer, f.tail.value);
    }
  }

  lemma {:induction false} EmitNoNameError(d: Draft, ss: seq<Option<Expr>>)
    ensures EmitStatements(d, ss) != Err(NameError)
    decreases |ss|
  {
    hide EmitExpr;
    if ss == [] {
    } else {
      var s := ss[|ss| - 1];
      EmitNoNameError(d, ss[..|ss| - 1]);
      if s.Some? && EmitStatements(d, ss[..|ss| - 1]).Ok? {
        ExprNoNameError(EmitStatements(d, ss[..|ss| - 1]).value.writer, s.value);
      }
    }
  }

  // ---- the entry block ---------------------------------------------------------------------

  /** The number of registers that emission of e allocates; the constant 1 of logical negations is loaded
      once, unless it is cached already. */
  function Registers(w: Writer, e: Expr): nat {
    e.Nodes() + if e.Negates() && (BOOL, 1) !in w.constants then 1 else 0
  }

  lemma {:induction false} EmitCount(w: Writer, e: Expr)
    requires Typed(e)
    ensures EmitExpr(w, e).Ok?
    ensures var w' := EmitExpr(w, e).value.0;
            && |w'.instrs| == |w.instrs| + Registers(w, e)
            && ((BOOL, 1) in w'.constants <==> (BOOL, 1) in w.constants || e.Negates())
    decreases e
  {
    hide OpcodeOf, S.EvalBinary;
    EmitSucceeds(w, e);
    match e
    case Binary(op, l, r, ty) =>
      EmitCount(w, l);
      EmitCount(EmitExpr(w, l).value.0, r);
    case Unary(op, x, ty) =>
      EmitCount(w, x);
      if op.LogicalNot? { NegationIsBool(e); }
    case _ =>
  }

  lemma NegationIsBool(e: Expr)
    requires Typed(e) && e.Unary? && e.uop.LogicalNot?
    ensures e.ty.Resolve() == Ok(BOOL)
  {
    assert S.Eval(e) == S.EvalUnary(e.uop, S.Eval(e.operand).value);
  }

  /** The entry block returns the value: it is fit for the back end, and its size is known. */
  ghost predicate EntryReturns(fn: Function, e: Expr) {
    && |fn.blocks| > 0 && S.Eval(e).Some?
    && var entry := fn.blocks[0];
    && BlockOk(fn.vregs, entry.instructions)
    && |entry.instructions| == e.Nodes() + (if e.Negates() then 1 else 0)
    && entry.terminator.Return? && entry.terminator.value.Some?
    && var v := entry.terminator.value.value;
    && v in Dests(entry.instructions) && v in Run(fn.vregs, entry.instructions)
    && Run(fn.vregs, entry.instructions)[v] == S.Number(S.Eval(e).value)
  }

  /** The first return statement of a function. */
  lemma FirstReturn(e: Expr, fn: Function)
    requires Typed(e) && EmitReturn(EMPTY_DRAFT, Some(e)).Ok?
    requires EmitReturn(EMPTY_DRAFT, Some(e)).value.blocks <= fn.blocks
    requires EmitReturn(EMPTY_DRAFT, Some(e)).value.writer.vregs <= fn.vregs
    ensures EntryReturns(fn, e)
  {
    hide EmitExpr, BlockOk, Typed, Run, ConstantsOk, Registers, S.Eval;
    var w0 := EMPTY_DRAFT.writer;
    EmptyWriterOk(fn.vregs);
    EmitCorrect(w0, e, fn.vregs);
    EmitCount(w0, e);
    RegistersOfEmpty(e);
    TypedHasValue(e);
    var (w, v) := EmitExpr(w0, e).value;
    assert fn.blocks[0] == BasicBlock(0, w.instrs, Return(Some(v)));
    assert v == Dests(w.instrs)[|w.instrs| - 1];
  }

  lemma EmptyWriterOk(types: seq<IrType>)
    ensures WriterOk(EMPTY_DRAFT.writer, types)
  {
  }

  lemma RegistersOfEmpty(e: Expr)
    ensures Registers(EMPTY_DRAFT.writer, e) == e.Nodes() + if e.Negates() then 1 else 0
  {
  }

  lemma TypedHasValue(e: Expr)
    requires Typed(e)
    ensures S.Eval(e).Some?
  {
  }

  lemma SameEntry(fn: Function, e: Expr, e': Expr)
    requires EntryReturns(fn, e') && SameMeaning(e, e')
    ensures EntryReturns(fn, e)
  {
    hide S.Eval, BlockOk, Run;
  }

  lemma NoStatements()
    ensures EmitStatements(EMPTY_DRAFT, []) == Ok(EMPTY_DRAFT)
  {
  }

  lemma ReturnTypeFits(f: FunctionDefinition)
    requires f.Fresh() && f.Ground() && CheckFunction(f).Ok? && f.statements != [] && f.statements[0].Some?
    ensures S.Eval(f.statements[0].value).Some?
    ensures f.returnType.Resolve() == Ok(S.TypeOf(S.Eval(f.statements[0].value).value))
  {
    hide CheckStatements, S.Eval;
    StatementsAnnotated(f);
    CheckStatementsIff(f.statements, f.returnType);
    assert StatementFits(f.statements[0], f.returnType);
  }

  /** A function that begins with `return;` has an empty entry block. */
  lemma EmptyEntry(f: FunctionDefinition)
    requires f.Fresh() && CompileFunction(f).Ok? && f.statements != [] && f.statements[0].None?
    ensures var fn := CompileFunction(f).value;
            fn.blocks != [] && fn.blocks[0] == BasicBlock(0, [], Return(None))
  {
    hide EmitStatements, CheckStatements, SameMeaning, Typed, FunctionDefinition.Fresh, FunctionDefinition.Ground;
    hide FunctionDefinition.Annotated;
    StatementsAnnotated(f);
    CompiledGround(f);
    CheckedTyped(f);
    var checked := CheckFunction(f).value;
    assert Checked(f.statements[0], checked.statements[0]);
    EmitStatementsSucceeds(EMPTY_DRAFT, checked.statements);
    var d := EmitStatements(EMPTY_DRAFT, checked.statements).value;
    if f.tail.Some? {
      TailIsLiteral(f);
      EmitReturnSucceeds(d, f.tail);
    }
    assert EmitReturn(EMPTY_DRAFT, None).value.blocks[0] == BasicBlock(0, [], Return(None));
  }

  /** Compiling a function: its entry block computes and returns the value of its first return, however
      many statements follow. */
  lemma CompiledEntry(f: FunctionDefinition)
    requires f.Fresh() && CompileFunction(f).Ok? && f.Returned().Some?
    ensures EntryReturns(CompileFunction(f).value, f.Returned().value)
    ensures f.returnType.Resolve() == Ok(S.TypeOf(S.Eval(f.Returned().value).value))
  {
    hide EmitStatements, EmitReturn, EntryReturns, Typed, CheckStatements, S.Eval, StatementFits;
    hide FunctionDefinition.Fresh, FunctionDefinition.Ground, FunctionDefinition.Annotated;
    StatementsAnnotated(f);
    CompiledGround(f);
    CheckedTyped(f);
    var fn, checked := CompileFunction(f).value, CheckFunction(f).value;
    EmitStatementsSucceeds(EMPTY_DRAFT, checked.statements);
    var d := EmitStatements(EMPTY_DRAFT, checked.statements).value;
    if f.tail.Some? {
      TailIsLiteral(f);
      EmitReturnSucceeds(d, f.tail);
    }
    if f.statements != [] {
      assert Checked(f.statements[0], checked.statements[0]);
      assert checked.statements[0] == Some(checked.statements[0].value);
      FirstReturn(checked.statements[0].value, fn);
      SameEntry(fn, f.statements[0].value, checked.statements[0].value);
      ReturnTypeFits(f);
    } else {
      assert d == EMPTY_DRAFT by { NoStatements(); }
      FirstReturn(f.tail.value, fn);
    }
  }
}
