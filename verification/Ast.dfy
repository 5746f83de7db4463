/** Expression trees. A node other than a literal carries the type that type resolution writes into it; an
    identifier also carries the type of the symbol that symbol resolution finds for it. */
module Ast {
  import opened Words
  import opened Results
  import opened FrontendTypes

  datatype BinaryOperation =
    | LogicalOr | LogicalAnd
    | Equal | NotEqual | LessThan | LessThanOrEqual | GreaterThan | GreaterThanOrEqual
    | BitwiseOr | BitwiseXor | BitwiseAnd
    | ShiftLeft | ShiftRight
    | Add | Subtract | Multiply | Divide | Modulus
  {
    predicate IsComparison() {
      Equal? || NotEqual? || LessThan? || LessThanOrEqual? || GreaterThan? || GreaterThanOrEqual?
    }

    predicate IsBitwise() { BitwiseOr? || BitwiseXor? || BitwiseAnd? }

    predicate IsShift() { ShiftLeft? || ShiftRight? }

    predicate IsLogical() { LogicalOr? || LogicalAnd? }
  }

  datatype UnaryOperation = LogicalNot | BitwiseNot | Negation

  datatype Expr =
    | IntegerLiteral(raw: Word, annotation: FrontendType)
    | BooleanLiteral(value: bool)
    | Identifier(name: string, symbol: Option<FrontendType>, ty: FrontendType)
    | Binary(op: BinaryOperation, left: Expr, right: Expr, ty: FrontendType)
    | Unary(uop: UnaryOperation, operand: Expr, ty: FrontendType)
    | Call(callee: Expr, ty: FrontendType)
  {
    function Type(): FrontendType {
      match this
      case IntegerLiteral(_, t) => t
      case BooleanLiteral(_) => FrontendType.Bool
      case Identifier(_, _, t) => t
      case Binary(_, _, _, t) => t
      case Unary(_, _, t) => t
      case Call(_, t) => t
    }

    /** Every integer literal carries one of the six sized integer types, as the parser guarantees. */
    predicate Annotated() {
      match this
      case IntegerLiteral(_, t) => t.IsInteger() && !t.UnresolvedInt?
      case BooleanLiteral(_) => true
      case Identifier(_, _, _) => true
      case Binary(_, l, r, _) => l.Annotated() && r.Annotated()
      case Unary(_, e, _) => e.Annotated()
      case Call(e, _) => e.Annotated()
    }

    /** As the parser leaves it: literals are annotated, no other node has a type yet, and no symbol is found. */
    predicate Fresh() {
      match this
      case IntegerLiteral(_, t) => t.IsInteger() && !t.UnresolvedInt?
      case BooleanLiteral(_) => true
      case Identifier(_, symbol, t) => symbol.None? && t.Unresolved?
      case Binary(_, l, r, t) => t.Unresolved? && l.Fresh() && r.Fresh()
      case Unary(_, e, t) => t.Unresolved? && e.Fresh()
      case Call(e, t) => t.Unresolved? && e.Fresh()
    }

    /** Neither identifiers nor calls occur: there is code for every kind of node. */
    predicate Ground() {
      match this
      case IntegerLiteral(_, _) => true
      case BooleanLiteral(_) => true
      case Identifier(_, _, _) => false
      case Binary(_, l, r, _) => l.Ground() && r.Ground()
      case Unary(_, e, _) => e.Ground()
      case Call(_, _) => false
    }

    /** Some node is one of the two logical operators that are parsed but have no meaning yet. */
    predicate UsesLogic() {
      match this
      case Binary(op, l, r, _) => op.IsLogical() || l.UsesLogic() || r.UsesLogic()
      case Unary(_, e, _) => e.UsesLogic()
      case Call(e, _) => e.UsesLogic()
      case _ => false
    }

    /** The names that occur. */
    function Names(): set<string> {
      match this
      case IntegerLiteral(_, _) => {}
      case BooleanLiteral(_) => {}
      case Identifier(name, _, _) => {name}
      case Binary(_, l, r, _) => l.Names() + r.Names()
      case Unary(_, e, _) => e.Names()
      case Call(e, _) => e.Names()
    }

    predicate IsLiteral() { IntegerLiteral? || BooleanLiteral? }

    function Nodes(): nat {
      match this
      case IntegerLiteral(_, _) => 1
      case BooleanLiteral(_) => 1
      case Identifier(_, _, _) => 1
      case Binary(_, l, r, _) => l.Nodes() + r.Nodes() + 1
      case Unary(_, e, _) => e.Nodes() + 1
      case Call(e, _) => e.Nodes() + 1
    }

    /** Some node is a logical negation. */
    predicate Negates() {
      match this
      case Binary(_, l, r, _) => l.Negates() || r.Negates()
      case Unary(op, e, _) => op.LogicalNot? || e.Negates()
      case Call(e, _) => e.Negates()
      case _ => false
    }
  }

  /** A function without parameters: return statements, some with an expression, then an optional tail. */
  datatype FunctionDefinition = FunctionDefinition(
    name: string, returnType: FrontendType, statements: seq<Option<Expr>>, tail: Option<Expr>)
  {
    /** A call comes to a return, with an expression or without one. */
    predicate Returns() { statements != [] || tail.Some? }

    /** The expression that a call returns, if it returns one. */
    function Returned(): Option<Expr> { if statements != [] then statements[0] else tail }

    predicate Fresh() {
      && !returnType.Unresolved?
      && (forall i :: 0 <= i < |statements| && statements[i].Some? ==> statements[i].value.Fresh())
      && (tail.Some? ==> tail.value.Fresh())
    }

    /** No statement has identifiers or calls. */
    predicate Ground() {
      forall i :: 0 <= i < |statements| ==> GroundStatement(statements[i])
    }

    predicate Annotated() {
      forall i :: 0 <= i < |statements| ==> AnnotatedStatement(statements[i])
    }
  }

  predicate GroundStatement(s: Option<Expr>) { s.Some? ==> s.value.Ground() }

  predicate AnnotatedStatement(s: Option<Expr>) { s.Some? ==> s.value.Annotated() }

  lemma {:induction false} FreshAnnotated(e: Expr)
    requires e.Fresh()
    ensures e.Annotated()
  {
    match e
    case Binary(_, l, r, _) =>
      FreshAnnotated(l);
      FreshAnnotated(r);
    case Unary(_, x, _) => FreshAnnotated(x);
    case Call(x, _) => FreshAnnotated(x);
    case _ =>
  }
}
