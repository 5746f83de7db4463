/** Type resolution: fills in the types of a tree, or reports a type error. */
module Semantics {
  import opened Results
  import IrTypes
  import opened FrontendTypes
  import opened Ast
  import opened SourceSemantics

  /** The operand checks of a binary operator. */
  function CheckBinary(op: BinaryOperation, l: FrontendType, r: FrontendType): Result<FrontendType> {
    if op.IsLogical() then
      Err(Unimplemented)
    else if op.IsComparison() then
      if l != r then Err(TypeError) else Ok(FrontendType.Bool)
    else if op.IsBitwise() then
      if !l.IsInteger() || !r.IsInteger() || l != r then Err(TypeError) else Ok(l)
    else if op.IsShift() then
      if !l.IsInteger() || !r.IsUnsignedInteger() then Err(TypeError) else Ok(l)
    else if !l.IsNumeric() || !r.IsNumeric() || l != r then
      Err(TypeError)
    else
      Ok(l)
  }

  function CheckUnary(op: UnaryOperation, t: FrontendType): Result<FrontendType> {
    match op
    case LogicalNot => if t.Bool? then Ok(t) else Err(TypeError)
    case BitwiseNot => if t.IsInteger() then Ok(t) else Err(TypeError)
    case Negation => if t.IsNumeric() && !t.IsUnsignedInteger() then Ok(t) else Err(TypeError)
  }

  /** The tree with the type of every node filled in. An identifier whose symbol was never looked for is a null
      pointer; in a program, all symbols are resolved before. */
  function ResolveType(e: Expr): Result<Expr> {
    match e
    case IntegerLiteral(_, _) => Ok(e)
    case BooleanLiteral(_) => Ok(e)
    case Identifier(name, symbol, _) =>
      if symbol.None? then Err(UncaughtError) else Ok(Identifier(name, symbol, symbol.value))
    case Binary(op, l, r, _) =>
      var l' :- ResolveType(l);
      var r' :- ResolveType(r);
      var t :- CheckBinary(op, l'.Type(), r'.Type());
      Ok(Binary(op, l', r', t))
    case Unary(op, x, _) =>
      var x' :- ResolveType(x);
      var t :- CheckUnary(op, x'.Type());
      Ok(Unary(op, x', t))
    case Call(callee, _) =>
      var callee' :- ResolveType(callee);
      if !callee'.Type().Function? then Err(TypeError) else Ok(Call(callee', callee'.Type().returnType))
  }

  /** The check of `return e;` in a function with the given return type. */
  function CheckReturn(e: Expr, returnType: FrontendType): Result<Expr> {
    var e' :- ResolveType(e);
    if e'.Type() != returnType then Err(TypeError) else Ok(e')
  }

  /** The check of one statement. */
  function CheckStatement(s: Option<Expr>, returnType: FrontendType): Result<Option<Expr>> {
    if s.None? then
      if returnType != FrontendType.Void then Err(TypeError) else Ok(s)
    else
      var e' :- CheckReturn(s.value, returnType);
      Ok(Some(e'))
  }

  function CheckStatements(statements: seq<Option<Expr>>, returnType: FrontendType): (r: Result<seq<Option<Expr>>>)
    ensures r.Ok? ==> |r.value| == |statements|
  {
    if statements == [] then Ok([])
    else
      var checked :- CheckStatements(statements[..|statements| - 1], returnType);
      var last :- CheckStatement(statements[|statements| - 1], returnType);
      Ok(checked + [last])
  }

  /** The check of a function. The tail is compared as it is: its type is never resolved. */
  function CheckFunction(f: FunctionDefinition): Result<FunctionDefinition> {
    var checked :- CheckStatements(f.statements, f.returnType);
    if f.tail.Some? && f.tail.value.Type() != f.returnType then Err(TypeError)
    else Ok(f.(statements := checked))
  }

  /** Every node has a value, and holds the type of that value. */
  predicate Typed(e: Expr) {
    HasType(Eval(e), e.Type()) &&
    match e
    case Binary(_, l, r, _) => Typed(l) && Typed(r)
    case Unary(_, x, _) => Typed(x)
    case _ => true
  }

  predicate HasType(v: Option<Value>, t: FrontendType) {
    v.Some? && Valid(v.value) && t.Resolve() == Ok(TypeOf(v.value))
  }

  lemma CheckBinaryExact(op: BinaryOperation, l: Value, r: Value, tl: FrontendType, tr: FrontendType)
    requires HasType(Some(l), tl) && HasType(Some(r), tr)
    ensures CheckBinary(op, tl, tr).Ok? <==> EvalBinary(op, l, r).Some?
    ensures CheckBinary(op, tl, tr).Ok? ==> HasType(EvalBinary(op, l, r), CheckBinary(op, tl, tr).value)
  {
    hide Arithmetic, IrTypes.IrType.Wrap, IrTypes.IrType.InRange, ShiftedLeft, ShiftedRight, Compare;
    assert tl == tr <==> TypeOf(l) == TypeOf(r);
    if l.IntValue? && r.IntValue? { ArithmeticInRange(op, l.ty, l.v, r.v); }
  }

  lemma ArithmeticInRange(op: BinaryOperation, t: IrTypes.IrType, a: int, b: int)
    requires t.InRange(a)
    ensures t.InRange(ShiftedLeft(t, a, b)) && t.InRange(ShiftedRight(t, a, b))
    ensures !op.IsLogical() && !op.IsComparison() && !op.IsShift() ==> t.InRange(Arithmetic(op, t, a, b))
  {
    hide IrTypes.IrType.Wrap, IrTypes.IrType.InRange;
  }

  lemma CheckUnaryExact(op: UnaryOperation, x: Value, t: FrontendType)
    requires HasType(Some(x), t)
    ensures CheckUnary(op, t).Ok? <==> EvalUnary(op, x).Some?
    ensures CheckUnary(op, t).Ok? ==> HasType(EvalUnary(op, x), CheckUnary(op, t).value)
  {
  }

  /** Type soundness and its converse: a tree has a value exactly when it has neither identifiers nor calls and
      resolution accepts it; the resolved tree has the same value, and each of its nodes holds the type of its
      value. */
  lemma {:induction false} ResolveExactlyEvaluates(e: Expr)
    requires e.Annotated()
    ensures Eval(e).Some? <==> e.Ground() && ResolveType(e).Ok?
    ensures Eval(e).Some? ==> Typed(ResolveType(e).value) && Eval(ResolveType(e).value) == Eval(e)
  {
    hide EvalBinary, CheckBinary, EvalUnary, CheckUnary;
    match e
    case Binary(op, l, r, _) =>
      ResolveExactlyEvaluates(l);
      ResolveExactlyEvaluates(r);
      if Eval(l).Some? && Eval(r).Some? {
        CheckBinaryExact(op, Eval(l).value, Eval(r).value, ResolveType(l).value.Type(), ResolveType(r).value.Type());
      }
    case Unary(op, x, _) =>
      ResolveExactlyEvaluates(x);
      if Eval(x).Some? {
        CheckUnaryExact(op, Eval(x).value, ResolveType(x).value.Type());
      }
    case IntegerLiteral(_, t) =>
      assert t.Resolve().Ok?;
    case _ =>
  }

  /** Resolution keeps the shape of the tree. */
  lemma {:induction false} ResolveKeepsShape(e: Expr)
    requires ResolveType(e).Ok?
    ensures var e' := ResolveType(e).value;
            e'.Nodes() == e.Nodes() && e'.Negates() == e.Negates() && e'.Ground() == e.Ground()
  {
    match e
    case Binary(op, l, r, _) =>
      ResolveKeepsShape(l);
      ResolveKeepsShape(r);
    case Unary(op, x, _) =>
      ResolveKeepsShape(x);
    case Call(x, _) => ResolveKeepsShape(x);
    case _ =>
  }

  /** Resolving a resolved tree changes nothing. */
  lemma {:induction false} ResolveIdempotent(e: Expr)
    requires ResolveType(e).Ok?
    ensures ResolveType(ResolveType(e).value) == ResolveType(e)
  {
    match e
    case Binary(op, l, r, _) =>
      ResolveIdempotent(l);
      ResolveIdempotent(r);
    case Unary(op, x, _) =>
      ResolveIdempotent(x);
    case Call(x, _) => ResolveIdempotent(x);
    case _ =>
  }

  /** Exactly when a statement is accepted and has code, without mentioning resolution. */
  predicate StatementFits(s: Option<Expr>, t: FrontendType) {
    if s.None? then t.Void? else Eval(s.value).Some? && t.Resolve() == Ok(TypeOf(Eval(s.value).value))
  }

  predicate SameMeaning(e: Expr, e': Expr) {
    Eval(e') == Eval(e) && e'.Nodes() == e.Nodes() && e'.Negates() == e.Negates()
  }

  lemma CheckStatementIff(s: Option<Expr>, t: FrontendType)
    requires AnnotatedStatement(s)
    ensures StatementFits(s, t) <==> CheckStatement(s, t).Ok? && GroundStatement(s)
    ensures CheckStatement(s, t).Ok? && s.Some? ==>
              var e' := CheckStatement(s, t).value;
              && e'.Some? && e'.value.Ground() == s.value.Ground()
              && (s.value.Ground() ==> Typed(e'.value) && SameMeaning(s.value, e'.value))
  {
    hide ResolveType, Eval, Valid;
    if s.Some? {
      ResolveExactlyEvaluates(s.value);
      if ResolveType(s.value).Ok? { ResolveKeepsShape(s.value); }
    }
  }

  lemma {:induction false} CheckStatementsIff(ss: seq<Option<Expr>>, t: FrontendType)
    requires forall i :: 0 <= i < |ss| ==> AnnotatedStatement(ss[i])
    ensures (forall i :: 0 <= i < |ss| ==> StatementFits(ss[i], t)) <==>
              CheckStatements(ss, t).Ok? && forall i :: 0 <= i < |ss| ==> GroundStatement(ss[i])
    ensures CheckStatements(ss, t).Ok? ==>
              forall i :: 0 <= i < |ss| ==> CheckStatement(ss[i], t) == Ok(CheckStatements(ss, t).value[i])
  {
    hide CheckStatement, StatementFits, GroundStatement;
    if ss == [] {
    } else {
      CheckStatementsIff(ss[..|ss| - 1], t);
      CheckStatementIff(ss[|ss| - 1], t);
    }
  }
  lemma {:induction false} ResolveNoNameError(e: Expr)
    ensures ResolveType(e) != Err(NameError)
  {
    match e
    case Binary(_, l, r, _) =>
      ResolveNoNameError(l);
      ResolveNoNameError(r);
    case Unary(_, x, _) => ResolveNoNameError(x);
    case Call(x, _) => ResolveNoNameError(x);
    case _ =>
  }

  lemma {:induction false} CheckNoNameError(ss: seq<Option<Expr>>, t: FrontendType)
    ensures CheckStatements(ss, t) != Err(NameError)
    decreases |ss|
  {
    hide ResolveType;
    if ss == [] {
    } else {
      CheckNoNameError(ss[..|ss| - 1], t);
      if ss[|ss| - 1].Some? { ResolveNoNameError(ss[|ss| - 1].value); }
    }
  }
}
