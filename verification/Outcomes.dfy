/** How a program is rejected: which error it is that compiling and building end with. */
module Outcomes {
  import opened Results
  import opened FrontendTypes
  import opened Ast
  import opened Semantics
  import opened Symbols
  import opened IrEmission
  import opened FunctionEmission
  import opened Ir
  import opened Allocator
  import opened Text
  import opened Frame
  import opened Runtime
  import opened Program
  import opened Tokens
  import opened Lexing
  import opened Lexemes
  import opened Rendering
  import opened ProgramParsing
  import opened Grammar
  import opened ProgramTexts
  import opened Compiler

  // ---- the types of expressions ------------------------------------------------------------

  const UNSIGNED: set<FrontendType> := {FrontendType.U8, FrontendType.U16, FrontendType.U32}
  const SIGNED: set<FrontendType> := {FrontendType.I8, FrontendType.I16, FrontendType.I32}

  predicate Integral(t: FrontendType) { t in UNSIGNED || t in SIGNED }

  /** The type of a tree, or the first error on the way from its leaves to its root, left before right. */
  function Verdict(e: Expr, names: Names): Result<FrontendType> {
    match e
    case IntegerLiteral(_, annotation) => Ok(annotation)
    case BooleanLiteral(_) => Ok(FrontendType.Bool)
    case Identifier(name, _, _) => if name in names then Ok(names[name]) else Err(NameError)
    case Binary(op, l, r, _) =>
      var tl :- Verdict(l, names);
      var tr :- Verdict(r, names);
      BinaryVerdict(op, tl, tr)
    case Unary(LogicalNot, x, _) =>
      var t :- Verdict(x, names);
      if t == FrontendType.Bool then Ok(t) else Err(TypeError)
    case Unary(BitwiseNot, x, _) =>
      var t :- Verdict(x, names);
      if Integral(t) then Ok(t) else Err(TypeError)
    case Unary(Negation, x, _) =>
      var t :- Verdict(x, names);
      if t in SIGNED then Ok(t) else Err(TypeError)
    case Call(callee, _) =>
      var t :- Verdict(callee, names);
      if t.Function? then Ok(t.returnType) else Err(TypeError)
  }

  /** Logical operators are not implemented; comparisons are for any two values of one type; shifts are for an
      integer by an unsigned one; all else is for two integers of one type. */
  function BinaryVerdict(op: BinaryOperation, l: FrontendType, r: FrontendType): Result<FrontendType> {
    match op
    case LogicalOr | LogicalAnd => Err(Unimplemented)
    case Equal | NotEqual | LessThan | LessThanOrEqual | GreaterThan | GreaterThanOrEqual =>
      if l == r then Ok(FrontendType.Bool) else Err(TypeError)
    case ShiftLeft | ShiftRight => if Integral(l) && r in UNSIGNED then Ok(l) else Err(TypeError)
    case _ => if Integral(l) && l == r then Ok(l) else Err(TypeError)
  }

  /** A type that a function can be declared to return. */
  predicate Declarable(t: FrontendType) {
    Integral(t) || t == FrontendType.Bool || t == FrontendType.Void || t == FrontendType.Unknown("")
  }

  /** A type that an expression can have. */
  predicate Possible(t: FrontendType) {
    Declarable(t) || (t.Function? && Declarable(t.returnType))
  }

  predicate Functions(names: Names) { forall name :: name in names ==> names[name].Function? && Possible(names[name]) }

  lemma BinaryVerdictIs(op: BinaryOperation, l: FrontendType, r: FrontendType)
    requires Possible(l) && Possible(r)
    ensures CheckBinary(op, l, r) == BinaryVerdict(op, l, r)
    ensures BinaryVerdict(op, l, r).Ok? ==>
              BinaryVerdict(op, l, r).value == FrontendType.Bool || Integral(BinaryVerdict(op, l, r).value)
  {
  }

  lemma UnaryVerdictIs(op: UnaryOperation, t: FrontendType)
    requires Possible(t)
    ensures CheckUnary(op, t) ==
            match op
            case LogicalNot => if t == FrontendType.Bool then Ok(t) else Err(TypeError)
            case BitwiseNot => if Integral(t) then Ok(t) else Err(TypeError)
            case Negation => if t in SIGNED then Ok(t) else Err(TypeError)
  {
  }

  lemma LiteralPossible(t: FrontendType)
    requires t.IsInteger() && !t.UnresolvedInt?
    ensures Integral(t) && Possible(t)
  {
  }

  function TypeOfResult(r: Result<Expr>): Result<FrontendType> { if r.Err? then Err(r.error) else Ok(r.value.Type()) }

  /** Type resolution finds exactly these types, and fails with exactly these errors. */
  lemma {:induction false} ResolveVerdict(e: Expr, names: Names)
    requires e.Annotated() && Functions(names) && e.Names() <= names.Keys
    ensures ResolveSymbols(e, names).Ok?
    ensures TypeOfResult(ResolveType(ResolveSymbols(e, names).value)) == Verdict(e, names)
    ensures Verdict(e, names).Ok? ==> Possible(Verdict(e, names).value)
    decreases e
  {
    hide CheckBinary, CheckUnary, BinaryVerdict, Possible;
    match e
    case IntegerLiteral(_, t) => LiteralPossible(t);
    case BooleanLiteral(_) => BoolPossible();
    case Identifier(_, _, _) =>
    case Binary(op, l, r, _) =>
      ResolveVerdict(l, names);
      ResolveVerdict(r, names);
      if Verdict(l, names).Ok? && Verdict(r, names).Ok? {
        BinaryVerdictIs(op, Verdict(l, names).value, Verdict(r, names).value);
        BinaryPossible(op, Verdict(l, names).value, Verdict(r, names).value);
      }
    case Unary(op, x, _) =>
      ResolveVerdict(x, names);
      if Verdict(x, names).Ok? { UnaryVerdictIs(op, Verdict(x, names).value); }
    case Call(callee, _) =>
      ResolveVerdict(callee, names);
      if Verdict(callee, names).Ok? && Verdict(callee, names).value.Function? {
        ReturnPossible(Verdict(callee, names).value);
      }
  }

  lemma BoolPossible()
    ensures Possible(FrontendType.Bool)
  {
  }

  lemma BinaryPossible(op: BinaryOperation, l: FrontendType, r: FrontendType)
    ensures BinaryVerdict(op, l, r).Ok? ==> Possible(BinaryVerdict(op, l, r).value)
  {
  }

  lemma ReturnPossible(t: FrontendType)
    requires Possible(t) && t.Function?
    ensures Possible(t.returnType)
  {
  }

  /** A tree with a type is emitted, or it has identifiers or calls, which are not implemented. */
  lemma {:induction false} EmitVerdict(w: Writer, e: Expr, names: Names)
    requires e.Annotated() && Functions(names) && e.Names() <= names.Keys && Verdict(e, names).Ok?
    ensures ResolveSymbols(e, names).Ok? && ResolveType(ResolveSymbols(e, names).value).Ok?
    ensures var r := EmitExpr(w, ResolveType(ResolveSymbols(e, names).value).value);
            (r.Ok? <==> e.Ground()) && (r.Err? ==> r.error == Unimplemented)
    decreases e
  {
    hide CheckBinary, CheckUnary, Possible, OpcodeOf, BinaryVerdict, Integral;
    ResolveVerdict(e, names);
    match e
    case IntegerLiteral(_, t) => LiteralResolves(t);
    case BooleanLiteral(_) =>
    case Identifier(_, _, _) =>
    case Binary(op, l, r, _) =>
      EmitVerdict(w, l, names);
      var l' := ResolveType(ResolveSymbols(l, names).value).value;
      if EmitExpr(w, l').Ok? { EmitVerdict(EmitExpr(w, l').value.0, r, names); }
      ResolveVerdict(l, names);
      ResolveVerdict(r, names);
      BinaryVerdictIs(op, Verdict(l, names).value, Verdict(r, names).value);
      OperatorResolves(op, Verdict(l, names).value, Verdict(r, names).value);
    case Unary(op, x, _) =>
      EmitVerdict(w, x, names);
      ResolveVerdict(x, names);
      UnaryResolves(op, Verdict(x, names).value);
    case Call(_, _) =>
  }

  lemma LiteralResolves(t: FrontendType)
    requires t.IsInteger() && !t.UnresolvedInt?
    ensures t.Resolve().Ok?
  {
  }

  lemma OperatorResolves(op: BinaryOperation, l: FrontendType, r: FrontendType)
    requires BinaryVerdict(op, l, r).Ok?
    ensures !op.IsLogical() && BinaryVerdict(op, l, r).value.Resolve().Ok?
  {
  }

  lemma UnaryResolves(op: UnaryOperation, t: FrontendType)
    requires CheckUnary(op, t).Ok? && Possible(t)
    ensures CheckUnary(op, t).value.Resolve().Ok?
  {
  }

  // ---- functions ---------------------------------------------------------------------------

  predicate NoLogic(s: Option<Expr>) { s.Some? ==> !s.value.UsesLogic() }

  /** A function as it is read, without the logical operators, which have no meaning yet. */
  predicate Plain(f: FunctionDefinition) {
    f.Fresh() && Declarable(f.returnType) && forall i :: 0 <= i < |f.statements| ==> NoLogic(f.statements[i])
  }

  /** The type of a return statement. */
  function StatementVerdict(s: Option<Expr>, names: Names): Result<FrontendType> {
    if s.None? then Ok(FrontendType.Void) else Verdict(s.value, names)
  }

  /** Every return statement has the declared type, and so does the tail. */
  predicate FunctionFits(f: FunctionDefinition, names: Names) {
    && (forall i :: 0 <= i < |f.statements| ==> StatementVerdict(f.statements[i], names) == Ok(f.returnType))
    && (f.tail.Some? ==> f.tail.value.Type() == f.returnType)
  }

  lemma {:induction false} PlainVerdict(e: Expr, names: Names)
    requires e.Names() <= names.Keys && !e.UsesLogic()
    ensures Verdict(e, names).Err? ==> Verdict(e, names).error == TypeError
    decreases e
  {
    hide Integral;
    match e
    case Binary(_, l, r, _) =>
      PlainVerdict(l, names);
      PlainVerdict(r, names);
    case Unary(_, x, _) => PlainVerdict(x, names);
    case Call(x, _) => PlainVerdict(x, names);
    case _ =>
  }

  lemma StatementOutcome(s: Option<Expr>, t: FrontendType, names: Names)
    requires AnnotatedStatement(s) && Functions(names) && Visible(s, names)
    ensures ResolveStatement(s, names).Ok?
    ensures var r := CheckStatement(ResolveStatement(s, names).value, t);
            && (r.Ok? <==> StatementVerdict(s, names) == Ok(t))
            && (r.Err? && NoLogic(s) ==> r.error == TypeError)
  {
    hide Functions, ResolveSymbols, ResolveType, Verdict;
    if s.Some? {
      ResolveVerdict(s.value, names);
      if NoLogic(s) { PlainVerdict(s.value, names); }
    }
  }

  lemma {:induction false} StatementsOutcome(ss: seq<Option<Expr>>, t: FrontendType, names: Names)
    requires Functions(names) && forall i :: 0 <= i < |ss| ==> AnnotatedStatement(ss[i]) && Visible(ss[i], names)
    ensures ResolveStatements(ss, names).Ok?
    ensures var r := CheckStatements(ResolveStatements(ss, names).value, t);
            && (r.Ok? <==> forall i :: 0 <= i < |ss| ==> StatementVerdict(ss[i], names) == Ok(t))
            && (r.Err? && (forall i :: 0 <= i < |ss| ==> NoLogic(ss[i])) ==> r.error == TypeError)
    decreases |ss|
  {
    hide ResolveStatement, CheckStatement, AnnotatedStatement, Visible, Functions, StatementVerdict, NoLogic;
    if ss == [] {
    } else {
      var n := |ss| - 1;
      StatementsOutcome(ss[..n], t, names);
      StatementOutcome(ss[n], t, names);
      var resolved := ResolveStatements(ss, names).value;
      assert resolved[..n] == ResolveStatements(ss[..n], names).value;
      assert forall i :: 0 <= i < n ==> ss[..n][i] == ss[i];
    }
  }

  /** A resolved function passes its check exactly when it fits; otherwise it has a type error. */
  lemma FunctionOutcome(f: FunctionDefinition, names: Names)
    requires Plain(f) && Functions(names) && ResolveFunction(f, names).Ok?
    ensures var r := CheckFunction(ResolveFunction(f, names).value);
            (r.Ok? <==> FunctionFits(f, names)) && (r.Err? ==> r.error == TypeError)
  {
    hide ResolveStatements, CheckStatements, StatementVerdict, NoLogic, FunctionDefinition.Fresh, Functions;
    hide AnnotatedStatement, Visible;
    StatementsAnnotated(f);
    ResolveFunctionIff(f, names);
    StatementsOutcome(f.statements, f.returnType, names);
  }

  /** Emission of a function that fits fails only for want of code for identifiers and calls. */
  lemma FunctionEmits(f: FunctionDefinition, names: Names)
    requires Plain(f) && Functions(names) && ResolveFunction(f, names).Ok? && FunctionFits(f, names)
    ensures CheckFunction(ResolveFunction(f, names).value).Ok?
    ensures var r := EmitFunction(CheckFunction(ResolveFunction(f, names).value).value);
            (r.Ok? <==> f.Ground()) && (r.Err? ==> r.error == Unimplemented)
  {
    hide ResolveStatements, CheckStatements, StatementVerdict, NoLogic, FunctionDefinition.Fresh, Functions;
    hide AnnotatedStatement, Visible, EmitStatements, EmitReturn;
    FunctionOutcome(f, names);
    StatementsAnnotated(f);
    ResolveFunctionIff(f, names);
    StatementsOutcome(f.statements, f.returnType, names);
    StatementsEmit(EMPTY_DRAFT, f.statements, f.returnType, names);
    TailEmits(f, names);
  }

  lemma TailEmits(f: FunctionDefinition, names: Names)
    requires Plain(f) && f.tail.Some? ==> f.tail.value.Type() == f.returnType
    ensures Plain(f) && f.tail.Some? ==> f.tail.value.IsLiteral() && forall d :: EmitReturn(d, f.tail).Ok?
  {
  }

  lemma {:induction false} StatementsEmit(d: Draft, ss: seq<Option<Expr>>, t: FrontendType, names: Names)
    requires Functions(names) && forall i :: 0 <= i < |ss| ==> AnnotatedStatement(ss[i]) && Visible(ss[i], names)
    requires forall i :: 0 <= i < |ss| ==> StatementVerdict(ss[i], names) == Ok(t)
    ensures ResolveStatements(ss, names).Ok? && CheckStatements(ResolveStatements(ss, names).value, t).Ok?
    ensures var r := EmitStatements(d, CheckStatements(ResolveStatements(ss, names).value, t).value);
            && (r.Ok? <==> forall i :: 0 <= i < |ss| ==> GroundStatement(ss[i]))
            && (r.Err? ==> r.error == Unimplemented)
    decreases |ss|
  {
    hide ResolveStatement, CheckStatement, AnnotatedStatement, Visible, Functions, StatementVerdict, EmitReturn;
    hide GroundStatement, ResolveStatements, CheckStatements;
    StatementsOutcome(ss, t, names);
    if ss == [] {
      NoStatementsChecked(t, names);
    } else {
      var n := |ss| - 1;
      StatementsEmit(d, ss[..n], t, names);
      assert forall i :: 0 <= i < n ==> ss[..n][i] == ss[i];
      LastChecked(ss, t, names);
      var checked := CheckStatements(ResolveStatements(ss, names).value, t).value;
      var r := EmitStatements(d, checked[..n]);
      if r.Ok? { StatementEmits(r.value, ss[n], t, names); }
    }
  }

  lemma NoStatementsChecked(t: FrontendType, names: Names)
    ensures ResolveStatements([], names) == Ok([]) && CheckStatements([], t) == Ok([])
  {
  }

  lemma LastChecked(ss: seq<Option<Expr>>, t: FrontendType, names: Names)
    requires ss != [] && ResolveStatements(ss, names).Ok? && CheckStatements(ResolveStatements(ss, names).value, t).Ok?
    ensures var n, checked := |ss| - 1, CheckStatements(ResolveStatements(ss, names).value, t).value;
            && |checked| == |ss| && ResolveStatements(ss[..n], names).Ok?
            && CheckStatements(ResolveStatements(ss[..n], names).value, t) == Ok(checked[..n])
            && ResolveStatement(ss[n], names).Ok?
            && CheckStatement(ResolveStatement(ss[n], names).value, t) == Ok(checked[n])
  {
    hide ResolveStatement, CheckStatement;
    var n, resolved := |ss| - 1, ResolveStatements(ss, names).value;
    assert resolved[..n] == ResolveStatements(ss[..n], names).value;
    var checked := CheckStatements(resolved, t).value;
    assert checked[..n] == CheckStatements(resolved[..n], t).value;
  }

  lemma StatementEmits(d: Draft, s: Option<Expr>, t: FrontendType, names: Names)
    requires AnnotatedStatement(s) && Functions(names) && Visible(s, names) && StatementVerdict(s, names) == Ok(t)
    ensures ResolveStatement(s, names).Ok? && CheckStatement(ResolveStatement(s, names).value, t).Ok?
    ensures var r := EmitReturn(d, CheckStatement(ResolveStatement(s, names).value, t).value);
            (r.Ok? <==> GroundStatement(s)) && (r.Err? ==> r.error == Unimplemented)
  {
    hide Functions, ResolveSymbols, ResolveType, Verdict, EmitExpr;
    StatementOutcome(s, t, names);
    if s.Some? { EmitVerdict(d.writer, s.value, names); }
  }

  // ---- programs ----------------------------------------------------------------------------

  /** The types under which the functions of a program are known. */
  lemma DeclaredFunctions(defs: seq<FunctionDefinition>)
    requires (forall k :: 0 <= k < |defs| ==> Plain(defs[k])) && Declare(defs).Ok?
    ensures Functions(Declare(defs).value)
  {
    hide Declare, Plain, Declares;
    DeclareIff(defs);
    forall name | name in Declare(defs).value
      ensures Declare(defs).value[name].Function? && Possible(Declare(defs).value[name])
    {
      var k := WhereDeclared(defs, name);
      DeclaredType(defs, k);
      PlainDeclares(defs[k]);
    }
  }

  lemma WhereDeclared(defs: seq<FunctionDefinition>, name: string) returns (k: nat)
    requires Declares(defs, name)
    ensures k < |defs| && defs[k].name == name
  {
    k :| 0 <= k < |defs| && defs[k].name == name;
  }

  lemma PlainDeclares(f: FunctionDefinition)
    requires Plain(f)
    ensures FunctionType(f).Function? && Possible(FunctionType(f))
  {
  }

  lemma {:induction false} CheckAllOutcome(defs: seq<FunctionDefinition>, names: Names)
    requires Functions(names) && (forall k :: 0 <= k < |defs| ==> Plain(defs[k])) && ResolveAll(defs, names).Ok?
    ensures var r := CheckAll(ResolveAll(defs, names).value);
            && (r.Ok? <==> forall k :: 0 <= k < |defs| ==> FunctionFits(defs[k], names))
            && (r.Err? ==> r.error == TypeError)
    decreases |defs|
  {
    hide CheckFunction, ResolveFunction, Plain, FunctionFits, Functions;
    if defs == [] {
    } else {
      var n := |defs| - 1;
      CheckAllOutcome(defs[..n], names);
      FunctionOutcome(defs[n], names);
      var resolved := ResolveAll(defs, names).value;
      assert resolved[..n] == ResolveAll(defs[..n], names).value;
      assert forall k :: 0 <= k < n ==> defs[..n][k] == defs[k];
    }
  }

  lemma {:induction false} EmitAllOutcome(defs: seq<FunctionDefinition>, names: Names)
    requires Functions(names) && (forall k :: 0 <= k < |defs| ==> Plain(defs[k]) && FunctionFits(defs[k], names))
    requires ResolveAll(defs, names).Ok?
    ensures CheckAll(ResolveAll(defs, names).value).Ok?
    ensures var r := EmitAll(CheckAll(ResolveAll(defs, names).value).value);
            && (r.Ok? <==> forall k :: 0 <= k < |defs| ==> defs[k].Ground())
            && (r.Err? ==> r.error == Unimplemented)
    decreases |defs|
  {
    hide CheckFunction, ResolveFunction, Plain, FunctionFits, Functions, EmitFunction, FunctionDefinition.Ground;
    CheckAllOutcome(defs, names);
    if defs == [] {
    } else {
      var n := |defs| - 1;
      EmitAllOutcome(defs[..n], names);
      FunctionEmits(defs[n], names);
      var resolved := ResolveAll(defs, names).value;
      assert resolved[..n] == ResolveAll(defs[..n], names).value;
      var checked := CheckAll(resolved).value;
      assert checked[..n] == CheckAll(resolved[..n]).value;
      assert forall k :: 0 <= k < n ==> defs[..n][k] == defs[k];
    }
  }

  /** What the names in a program stand for. */
  function NamesOf(defs: seq<FunctionDefinition>): Names {
    if Declare(defs).Ok? then Declare(defs).value else map[]
  }

  predicate AllFit(defs: seq<FunctionDefinition>) {
    forall k :: 0 <= k < |defs| ==> FunctionFits(defs[k], NamesOf(defs))
  }

  predicate AllGround(defs: seq<FunctionDefinition>) { forall k :: 0 <= k < |defs| ==> defs[k].Ground() }

  /** What becomes of a program without logical operators: a name error if a name is declared twice or not at all,
      else a type error if a function does not fit, else an unimplemented one if identifiers or calls are used,
      and otherwise IR. */
  lemma CompileOutcome(defs: seq<FunctionDefinition>)
    requires forall k :: 0 <= k < |defs| ==> Plain(defs[k])
    ensures var r := CompileProgram(defs);
            && (r.Ok? <==> DistinctNames(defs) && AllDeclared(defs) && AllFit(defs) && AllGround(defs))
            && (r.Err? ==> r.error == if !DistinctNames(defs) || !AllDeclared(defs) then NameError
                                      else if !AllFit(defs) then TypeError else Unimplemented)
  {
    hide CheckAll, EmitAll, Declare, ResolveAll, DistinctNames, AllDeclared, Plain, FunctionFits;
    hide FunctionDefinition.Ground, ResolveFunction, Functions;
    NameErrorIff(defs);
    DeclareIff(defs);
    if Declare(defs).Ok? {
      var names := Declare(defs).value;
      DeclaredFunctions(defs);
      ResolveAllIff(defs, names);
      DeclaredIff(defs, names);
      if ResolveAll(defs, names).Ok? {
        CheckAllOutcome(defs, names);
        if AllFit(defs) { EmitAllOutcome(defs, names); }
      }
    }
  }

  predicate HasMain(defs: seq<FunctionDefinition>) { exists j :: 0 <= j < |defs| && defs[j].name == "main" }

  /** Programs that are read from a text are as the parser leaves them, and declare types that can be named. */
  lemma TextDeclares(text: string, defs: seq<FunctionDefinition>, k: nat)
    requires IsProgramText(text, defs) && k < |defs|
    ensures defs[k].Fresh() && Declarable(defs[k].returnType)
  {
    hide AllTokensOf, WrittenFunction.Valid, Declarable, FunctionDefinition.Fresh, Separated;
    var fs :| Writes(fs, defs) && Spells(text, AllTokensOf(fs));
    var rest :| AtEnd(rest) && Spelled(text, AllTokensOf(fs), rest);
    var items :| Separated(items, rest) && text == Lexemes.Text(items) + rest && TokensOf(items) == AllTokensOf(fs);
    ArrowRead(items, rest, fs, k);
    WrittenDeclares(fs[k]);
  }

  /** The name of a type that is read is a word. */
  lemma ArrowRead(items: seq<Item>, rest: string, fs: seq<WrittenFunction>, k: nat)
    requires Separated(items, rest) && TokensOf(items) == AllTokensOf(fs) && k < |fs|
    ensures fs[k].arrow != Some("")
  {
    hide Separated, AllTokensOf, Item.Ok;
    if fs[k].arrow.Some? {
      var t := Token(IDENT, fs[k].arrow.value);
      TokensThere(fs, k);
      ItemThere(items, rest, t);
      WordNotEmpty(t);
    }
  }

  lemma WordNotEmpty(t: Token)
    requires t.kind == IDENT && Lexeme(t).Ok()
    ensures t.str != ""
  {
  }

  lemma {:induction false} TokensThere(fs: seq<WrittenFunction>, k: nat)
    requires k < |fs| && fs[k].arrow.Some?
    ensures Token(IDENT, fs[k].arrow.value) in AllTokensOf(fs)
    decreases k
  {
    var t := Token(IDENT, fs[k].arrow.value);
    if k == 0 {
      ArrowThere(fs[0]);
      assert AllTokensOf(fs) == fs[0].Tokens() + AllTokensOf(fs[1..]);
    } else {
      hide WrittenFunction.Tokens;
      TokensThere(fs[1..], k - 1);
      assert t in AllTokensOf(fs[1..]);
    }
  }

  lemma ArrowThere(f: WrittenFunction)
    requires f.arrow.Some?
    ensures Token(IDENT, f.arrow.value) in f.Tokens()
  {
    hide WrittenFunction.FlatBody;
    var t := Token(IDENT, f.arrow.value);
    assert t in f.FlatArrow();
    assert t in f.FlatSignature();
  }

  lemma {:induction false} ItemThere(items: seq<Item>, rest: string, t: Token)
    requires Separated(items, rest) && t in TokensOf(items)
    ensures Lexeme(t).Ok()
    decreases |items|
  {
    hide Item.Ok, Item.EndsAt;
    if items[0] != Lexeme(t) {
      ItemThere(items[1..], rest, t);
    }
  }

  lemma WrittenDeclares(f: WrittenFunction)
    requires f.Valid() && f.arrow != Some("")
    ensures f.Value().Fresh() && Declarable(f.Value().returnType)
  {
    hide Written.Proper, Written.Value;
  }

  /** A function is lowered exactly when it returns. */
  lemma EntryOutcome(f: FunctionDefinition, slots: seq<Slot>)
    requires |slots| == SLOT_COUNT && f.Fresh() && CompileFunction(f).Ok?
    ensures CompileFunction(f).value.blocks != []
    ensures var r := LowerFunction(CompileFunction(f).value.vregs, slots, CompileFunction(f).value.blocks[0]);
            (r.Ok? <==> f.Returns()) && (r.Err? ==> r.error == Unimplemented)
  {
    hide LowerFunction, CompileFunction, FunctionDefinition.Fresh;
    if f.Returns() {
      EntryLowers(f, slots);
    } else {
      NoReturnFails(f, slots);
    }
  }

  lemma NoReturnFails(f: FunctionDefinition, slots: seq<Slot>)
    requires |slots| == SLOT_COUNT && CompileFunction(f).Ok? && !f.Returns()
    ensures CompileFunction(f).value.blocks != []
    ensures var fn := CompileFunction(f).value;
            LowerFunction(fn.vregs, slots, fn.blocks[0]) == Err(Unimplemented)
  {
    assert EmitStatements(EMPTY_DRAFT, []) == Ok(EMPTY_DRAFT);
    assert CompileFunction(f).value.blocks[0] == BasicBlock(0, [], Unterminated);
  }

  lemma {:induction false} LowerIrOutcome(slots: seq<Slot>, fns: seq<Function>, returning: seq<bool>)
    requires |slots| == SLOT_COUNT && HasEntries(fns) && |returning| == |fns|
    requires forall k, s: seq<Slot> :: 0 <= k < |fns| && |s| == SLOT_COUNT ==>
               var r := LowerFunction(fns[k].vregs, s, fns[k].blocks[0]);
               (r.Ok? <==> returning[k]) && (r.Err? ==> r.error == Unimplemented)
    ensures var r := Program.LowerIr(slots, fns);
            (r.Ok? <==> forall k :: 0 <= k < |fns| ==> returning[k]) && (r.Err? ==> r.error == Unimplemented)
    decreases |fns|
  {
    hide LowerFunction, SlotsAfter, Dump, EncodeAll;
    if fns == [] {
    } else {
      var n := |fns| - 1;
      LowerIrOutcome(slots, fns[..n], returning[..n]);
      assert forall k :: 0 <= k < n ==> returning[..n][k] == returning[k];
    }
  }

  /** What becomes of the text of a program without logical operators: the errors of compiling, then an
      unimplemented one if some function does not return, then a semantic error if there is no main, and
      otherwise an image. */
  lemma BuildOutcome(text: string, defs: seq<FunctionDefinition>, order: nat -> seq<nat>, slots: seq<Slot>)
    requires IsProgramText(text, defs) && |slots| == SLOT_COUNT && Ordering(order)
    requires forall k, i :: 0 <= k < |defs| && 0 <= i < |defs[k].statements| ==> NoLogic(defs[k].statements[i])
    ensures var image := Build(Stream(text), slots, order);
            && (image.Ok? <==> DistinctNames(defs) && AllDeclared(defs) && AllFit(defs) && AllGround(defs) &&
                               AllReturn(defs) && HasMain(defs))
            && (image.Err? ==> image.error == if !DistinctNames(defs) || !AllDeclared(defs) then NameError
                                              else if !AllFit(defs) then TypeError
                                              else if !AllGround(defs) || !AllReturn(defs) then Unimplemented
                                              else SemanticError)
  {
    hide IsProgramText, ParseProgram, Stream, CompileProgram, DistinctNames, Link, Arrange, HasEntries, AllDeclared;
    hide Arrangement, FunctionDefinition.Fresh, AllFit, AllGround, NoLogic, Declarable, HasMain, AllReturn;
    ProgramTextIff(text, defs);
    forall k | 0 <= k < |defs|
      ensures Plain(defs[k]) && defs[k].Fresh()
    {
      TextDeclares(text, defs, k);
    }
    CompileOutcome(defs);
    if CompileProgram(defs).Ok? { LinkOutcome(defs, order(|defs|), slots); }
  }

  predicate AllReturn(defs: seq<FunctionDefinition>) { forall k :: 0 <= k < |defs| ==> defs[k].Returns() }

  /** Lowering and linking what compiles. */
  lemma LinkOutcome(defs: seq<FunctionDefinition>, order: seq<nat>, slots: seq<Slot>)
    requires (forall k :: 0 <= k < |defs| ==> defs[k].Fresh()) && CompileProgram(defs).Ok?
    requires |slots| == SLOT_COUNT && Arrangement(order, |defs|)
    ensures HasEntries(CompileProgram(defs).value) && HasEntries(Arrange(CompileProgram(defs).value, order))
    ensures var r := Link(slots, Arrange(CompileProgram(defs).value, order));
            && (r.Ok? <==> AllReturn(defs) && HasMain(defs))
            && (r.Err? ==> r.error == if AllReturn(defs) then SemanticError else Unimplemented)
  {
    hide CompileProgram, Program.LowerIr, FunctionDefinition.Fresh, FunctionDefinition.Returns, CompileFunction;
    hide LowerFunction, FindMain, RuntimeCode, Dump, EncodeAll, HasMain;
    CompileProgramEach(defs);
    CompiledHasEntries(defs);
    var fns := Arrange(CompileProgram(defs).value, order);
    var returning := seq(|order|, k requires 0 <= k < |order| => defs[order[k]].Returns());
    forall k, s: seq<Slot> | 0 <= k < |fns| && |s| == SLOT_COUNT
      ensures var r := LowerFunction(fns[k].vregs, s, fns[k].blocks[0]);
              (r.Ok? <==> returning[k]) && (r.Err? ==> r.error == Unimplemented)
    {
      EntryOutcome(defs[order[k]], s);
    }
    LowerIrOutcome(slots, fns, returning);
    EveryOrdered(defs, order, returning);
    if Program.LowerIr(slots, fns).Ok? {
      LinkNeedsMain(slots, fns);
      ArrangedMain(defs, order);
    }
  }

  lemma EveryOrdered(defs: seq<FunctionDefinition>, order: seq<nat>, returning: seq<bool>)
    requires Arrangement(order, |defs|) && |returning| == |order|
    requires forall k :: 0 <= k < |order| ==> returning[k] == defs[order[k]].Returns()
    ensures AllReturn(defs) <==> forall k :: 0 <= k < |returning| ==> returning[k]
  {
    hide FunctionDefinition.Returns;
    if forall k :: 0 <= k < |returning| ==> returning[k] {
      forall j: nat | j < |defs|
        ensures defs[j].Returns()
      {
        assert j in order;
        var k :| 0 <= k < |order| && order[k] == j;
        assert returning[k];
      }
    }
  }

  /** Main is among the arranged functions exactly when it is defined. */
  lemma ArrangedMain(defs: seq<FunctionDefinition>, order: seq<nat>)
    requires (forall k :: 0 <= k < |defs| ==> defs[k].Fresh()) && CompileProgram(defs).Ok? && Arrangement(order, |defs|)
    ensures var fns := Arrange(CompileProgram(defs).value, order);
            (exists k :: 0 <= k < |fns| && fns[k].name == "main") <==> HasMain(defs)
  {
    hide CompileProgram, FunctionDefinition.Fresh;
    var fns := Arrange(CompileProgram(defs).value, order);
    forall k | 0 <= k < |fns|
      ensures fns[k].name == defs[order[k]].name
    {
      CompileProgramNames(defs, order[k]);
    }
    if HasMain(defs) {
      var j :| 0 <= j < |defs| && defs[j].name == "main";
      assert j in order;
      var k :| 0 <= k < |order| && order[k] == j;
      assert fns[k].name == "main";
    }
  }
}
