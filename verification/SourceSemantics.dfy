/** What a source expression means: a typed value, computed with mathematical integers. */
module SourceSemantics {
  import opened Words
  import opened Results
  import opened IrTypes
  import opened Ast

  datatype Value = BoolValue(b: bool) | IntValue(ty: IrType, v: int)

  /** The number that represents a value in a virtual register. */
  function Number(v: Value): int {
    match v
    case BoolValue(b) => if b then 1 else 0
    case IntValue(_, x) => x
  }

  function TypeOf(v: Value): IrType {
    match v
    case BoolValue(_) => BOOL
    case IntValue(t, _) => t
  }

  predicate Valid(v: Value) {
    v.IntValue? ==> v.ty != BOOL && v.ty.InRange(v.v)
  }

  /** Division truncates; a zero divisor gives all ones, and the one overflow wraps around. */
  function Quotient(t: IrType, a: int, b: int): int {
    if b == 0 then t.Wrap(-1) else t.Wrap(TruncatedQuotient(a, b))
  }

  /** The remainder that goes with truncated division; a zero divisor gives the dividend back. */
  function Remainder(t: IrType, a: int, b: int): int {
    if b == 0 then a else t.Wrap(a - b * TruncatedQuotient(a, b))
  }

  /** A bit operation on the two's complement bits of a and b. */
  function BitsOf(op: BitOp, t: IrType, a: int, b: int): int {
    t.Wrap(Bitwise(op, a % t.Modulus(), b % t.Modulus()))
  }

  /** Only the low five bits of a shift amount count. */
  function ShiftedLeft(t: IrType, a: int, amount: int): int {
    t.Wrap(a * Pow2(amount % 32))
  }

  /** Rounds down, so the sign of a signed value is kept. */
  function ShiftedRight(t: IrType, a: int, amount: int): int {
    t.Wrap(a / Pow2(amount % 32))
  }

  predicate Compare(op: BinaryOperation, a: int, b: int)
    requires op.IsComparison()
  {
    match op
    case Equal => a == b
    case NotEqual => a != b
    case LessThan => a < b
    case LessThanOrEqual => a <= b
    case GreaterThan => a > b
    case GreaterThanOrEqual => a >= b
  }

  function EvalBinary(op: BinaryOperation, l: Value, r: Value): Option<Value> {
    if op.IsLogical() then
      None
    else if op.IsComparison() then
      if TypeOf(l) == TypeOf(r) then Some(BoolValue(Compare(op, Number(l), Number(r)))) else None
    else if l.BoolValue? || r.BoolValue? then
      None
    else if op.IsShift() then
      if r.ty.IsSigned() then None
      else Some(IntValue(l.ty, if op.ShiftLeft? then ShiftedLeft(l.ty, l.v, r.v) else ShiftedRight(l.ty, l.v, r.v)))
    else if l.ty != r.ty then
      None
    else
      Some(IntValue(l.ty, Arithmetic(op, l.ty, l.v, r.v)))
  }

  function Arithmetic(op: BinaryOperation, t: IrType, a: int, b: int): int
    requires !op.IsLogical() && !op.IsComparison() && !op.IsShift()
  {
    match op
    case Add => t.Wrap(a + b)
    case Subtract => t.Wrap(a - b)
    case Multiply => t.Wrap(a * b)
    case Divide => Quotient(t, a, b)
    case Modulus => Remainder(t, a, b)
    case BitwiseAnd => BitsOf(And, t, a, b)
    case BitwiseOr => BitsOf(Or, t, a, b)
    case BitwiseXor => BitsOf(Xor, t, a, b)
  }

  function EvalUnary(op: UnaryOperation, x: Value): Option<Value> {
    match (op, x)
    case (LogicalNot, BoolValue(b)) => Some(BoolValue(!b))
    case (BitwiseNot, IntValue(t, v)) => Some(IntValue(t, t.Wrap(-v - 1)))
    case (Negation, IntValue(t, v)) => if t.IsSigned() then Some(IntValue(t, t.Wrap(-v))) else None
    case _ => None
  }

  /** The value of an expression, None where the operands do not fit the operator. Identifiers and calls have
      no value here, since there is no code for them. */
  function Eval(e: Expr): Option<Value> {
    match e
    case IntegerLiteral(raw, annotation) =>
      if annotation.IsInteger() && annotation.Resolve().Ok? then
        var t := annotation.Resolve().value;
        Some(IntValue(t, t.Wrap(raw)))
      else None
    case BooleanLiteral(b) => Some(BoolValue(b))
    case Identifier(_, _, _) => None
    case Binary(op, l, r, _) =>
      var lv, rv := Eval(l), Eval(r);
      if lv.Some? && rv.Some? then EvalBinary(op, lv.value, rv.value) else None
    case Unary(op, x, _) =>
      var v := Eval(x);
      if v.Some? then EvalUnary(op, v.value) else None
    case Call(_, _) => None
  }

  /** The shifts that the notes on the language work out. */
  lemma DocumentedShifts()
    ensures EvalBinary(BinaryOperation.ShiftLeft, IntValue(U32, 1), IntValue(U32, 32)) == Some(IntValue(U32, 1))
    ensures EvalBinary(BinaryOperation.ShiftLeft, IntValue(U8, 1), IntValue(U8, 100)) == Some(IntValue(U8, 16))
    ensures EvalBinary(BinaryOperation.ShiftLeft, IntValue(U8, 1), IntValue(U8, 8)) == Some(IntValue(U8, 0))
    ensures EvalBinary(BinaryOperation.ShiftLeft, IntValue(I32, 1), IntValue(U8, 4)) == Some(IntValue(I32, 16))
    ensures EvalBinary(BinaryOperation.ShiftLeft, IntValue(I32, 1), IntValue(I32, 4)) == None
  {
    Pow2Values();
    assert Pow2(0) == 1 && Pow2(4) == 16;
  }
}
