/** Emission of IR from expression trees. The functions say what is emitted; IrWriting does it in place. */
module IrEmission {
  import opened Words
  import opened Results
  import opened IrTypes
  import A = Ast
  import S = SourceSemantics
  import opened Semantics
  import opened Ir
  import opened IrSemantics

  /** The part of a writer that emission of an expression touches: the types of the virtual registers,
      the instructions of the current block, and the constants that already have a register. */
  datatype Writer = Writer(vregs: seq<IrType>, instrs: seq<Instruction>, constants: map<(IrType, nat), VRegId>)

  function NewVreg(w: Writer, t: IrType): (Writer, VRegId) {
    (w.(vregs := w.vregs + [t]), |w.vregs|)
  }

  function AddInstruction(w: Writer, op: Op, dest: VRegId, op1: VRegId, op2: VRegId, data: nat): Writer {
    w.(instrs := w.instrs + [Instruction(op, dest, op1, op2, data)])
  }

  function GetConstant(w: Writer, t: IrType, value: nat): (Writer, VRegId) {
    if (t, value) in w.constants then (w, w.constants[(t, value)])
    else
      var (w1, dest) := NewVreg(w, t);
      var w2 := w1.(constants := w1.constants[(t, value) := dest]);
      (AddInstruction(w2, LoadImm, dest, NO_VREG, NO_VREG, value), dest)
  }

  function OpcodeOf(op: A.BinaryOperation): Op
    requires !op.IsLogical()
  {
    match op
    case Equal => CmpEq
    case NotEqual => CmpNe
    case LessThan => CmpLt
    case LessThanOrEqual => CmpLte
    case GreaterThan => CmpGt
    case GreaterThanOrEqual => CmpGte
    case BitwiseOr => Op.BitOr
    case BitwiseXor => Op.BitXor
    case BitwiseAnd => Op.BitAnd
    case ShiftLeft => BitShl
    case ShiftRight => BitShr
    case Add => Op.Add
    case Subtract => Sub
    case Multiply => Mul
    case Divide => Div
    case Modulus => Rem
  }

  /** Emits e; the result is the register that holds its value. */
  function EmitExpr(w: Writer, e: A.Expr): Result<(Writer, VRegId)>
    decreases e
  {
    match e
    case IntegerLiteral(raw, annotation) =>
      var t :- annotation.Resolve();
      var (w1, dest) := NewVreg(w, t);
      Ok((AddInstruction(w1, LoadImm, dest, NO_VREG, NO_VREG, raw), dest))
    case BooleanLiteral(b) =>
      var (w1, dest) := NewVreg(w, BOOL);
      Ok((AddInstruction(w1, LoadImm, dest, NO_VREG, NO_VREG, if b then 1 else 0), dest))
    case Identifier(_, _, _) => Err(Unimplemented)
    case Binary(op, l, r, ty) =>
      if op.IsLogical() then Err(Unimplemented)
      else
        var t :- ty.Resolve();
        var (w1, lv) :- EmitExpr(w, l);
        var (w2, rv) :- EmitExpr(w1, r);
        var (w3, dest) := NewVreg(w2, t);
        Ok((AddInstruction(w3, OpcodeOf(op), dest, lv, rv, 0), dest))
    case Unary(op, x, ty) =>
      var t :- ty.Resolve();
      var (w1, xv) :- EmitExpr(w, x);
      var (w2, dest) := NewVreg(w1, t);
      match op {
        case Negation => Ok((AddInstruction(w2, Neg, dest, xv, NO_VREG, 0), dest))
        case LogicalNot =>
          var (w3, one) := GetConstant(w2, t, 1);
          Ok((AddInstruction(w3, Op.BitXor, dest, xv, one, 0), dest))
        case BitwiseNot => Ok((AddInstruction(w2, Op.BitNot, dest, xv, NO_VREG, 0), dest))
      }
    case Call(_, _) => Err(Unimplemented)
  }

  // ---- invariant of a writer ---------------------------------------------------------------

  /** Every cached constant is in its register, with its type. */
  predicate ConstantsOk(w: Writer, types: seq<IrType>) {
    var env := Run(types, w.instrs);
    forall k :: k in w.constants ==>
      var v := w.constants[k];
      v in env && TypeAt(types, v) == k.0 && env[v] == k.0.Wrap(k.1)
  }

  /** The block so far is fit for the back end. types may already hold registers allocated later. */
  predicate WriterOk(w: Writer, types: seq<IrType>) {
    && w.vregs <= types
    && BlockOk(types, w.instrs)
    && (forall v :: v in Dests(w.instrs) ==> v < |w.vregs|)
    && ConstantsOk(w, types)
  }

  /** w2 continues w1 and leaves every register of w1 alone. */
  predicate Continues(w1: Writer, w2: Writer, types: seq<IrType>) {
    && w1.vregs <= w2.vregs
    && w1.instrs <= w2.instrs
    && (forall v :: v in Run(types, w1.instrs) ==>
          v in Run(types, w2.instrs) && Run(types, w2.instrs)[v] == Run(types, w1.instrs)[v])
  }

  lemma AddKeeps(w: Writer, types: seq<IrType>, i: Instruction)
    requires WriterOk(w, types) && i.dest < |w.vregs|
    requires InstructionOk(types, Dests(w.instrs), i)
    ensures var w' := w.(instrs := w.instrs + [i]);
            WriterOk(w', types) && Continues(w, w', types)
  {
    var w' := w.(instrs := w.instrs + [i]);
    AppendInstruction(types, w.instrs, i);
    RunDefines(types, w.instrs);
    RunDefines(types, w'.instrs);
  }

  /** Adding an instruction that defines the register allocated last. */
  lemma DefineNew(w: Writer, types: seq<IrType>, t: IrType, i: Instruction)
    requires WriterOk(w, types) && w.vregs + [t] <= types && i.dest == |w.vregs|
    requires WellTyped(types, i)
    requires i.opcode.IsUnary() ==> i.op1 in Dests(w.instrs) && SafeComplement(types, Dests(w.instrs), i.op1)
    requires i.opcode.IsBinary() ==>
               i.op1 in Dests(w.instrs) && i.op2 in Dests(w.instrs) && SafeOperands(Dests(w.instrs), i.op1, i.op2)
    ensures types[i.dest] == t
    ensures var w' := Writer(w.vregs + [t], w.instrs + [i], w.constants);
            WriterOk(w', types) && Continues(w, w', types)
  {
    var w1 := w.(vregs := w.vregs + [t]);
    assert types[|w.vregs|] == (w.vregs + [t])[|w.vregs|];
    assert WriterOk(w1, types);
    AddKeeps(w1, types, i);
  }

  /** There is no code for identifiers and calls. */
  lemma {:induction false} EmitsGround(w: Writer, e: A.Expr)
    requires EmitExpr(w, e).Ok?
    ensures e.Ground()
    decreases e
  {
    hide OpcodeOf;
    match e
    case Binary(_, l, r, _) =>
      EmitsGround(w, l);
      EmitsGround(EmitExpr(w, l).value.0, r);
    case Unary(_, x, _) => EmitsGround(w, x);
    case _ =>
  }

  lemma {:induction false} ExprNoNameError(w: Writer, e: A.Expr)
    ensures EmitExpr(w, e) != Err(NameError)
    decreases e
  {
    hide OpcodeOf;
    match e
    case Binary(_, l, r, _) =>
      ExprNoNameError(w, l);
      if EmitExpr(w, l).Ok? { ExprNoNameError(EmitExpr(w, l).value.0, r); }
    case Unary(_, x, _) => ExprNoNameError(w, x);
    case _ =>
  }

  /** A tree that passes type resolution is emitted exactly when it has neither identifiers nor calls. */
  lemma EmitsIff(w: Writer, e: A.Expr)
    requires e.Annotated() && ResolveType(e).Ok?
    ensures EmitExpr(w, ResolveType(e).value).Ok? <==> e.Ground()
  {
    hide EmitExpr, ResolveType, Typed, S.Eval;
    ResolveExactlyEvaluates(e);
    ResolveKeepsShape(e);
    if e.Ground() {
      EmitSucceeds(w, ResolveType(e).value);
    }
    if EmitExpr(w, ResolveType(e).value).Ok? {
      EmitsGround(w, ResolveType(e).value);
    }
  }

  /** Emission succeeds on resolved trees, and appends as many instructions as it allocates registers. */
  lemma {:induction false} EmitSucceeds(w: Writer, e: A.Expr)
    requires Typed(e)
    ensures EmitExpr(w, e).Ok?
    ensures var w' := EmitExpr(w, e).value.0;
            w.vregs <= w'.vregs && w.instrs <= w'.instrs &&
            |w'.instrs| - |w.instrs| == |w'.vregs| - |w.vregs|
    decreases e
  {
    hide OpcodeOf;
    match e
    case Binary(op, l, r, ty) =>
      EmitSucceeds(w, l);
      EmitSucceeds(EmitExpr(w, l).value.0, r);
    case Unary(op, x, ty) =>
      EmitSucceeds(w, x);
    case _ =>
  }

  /** The emitted opcode computes what the operator means. */
  lemma OpcodeMeaning(op: A.BinaryOperation, l: S.Value, r: S.Value)
    requires S.EvalBinary(op, l, r).Some?
    ensures !op.IsLogical() && OpcodeOf(op).IsBinary()
    ensures EvalBinaryOp(OpcodeOf(op), S.TypeOf(l), S.Number(l), S.Number(r)) ==
            S.Number(S.EvalBinary(op, l, r).value)
  {
    hide IrType.Wrap, Bitwise, Pow2, TruncatedQuotient;
  }

  /** Exclusive or with the constant 1 negates a boolean. */
  lemma XorOneNegates(b: bool)
    ensures EvalBinaryOp(Op.BitXor, BOOL, if b then 1 else 0, 1) == if b then 0 else 1
  {
    var x := if b then 1 else 0;
    XorComplement(x, 1);
    hide Bitwise;
    assert x % 0x100 == x && 1 % 0x100 == 1 && Pow2(1) == 2;
  }

  /** x is in v, which has type t and was defined last. */
  predicate Holds(w: Writer, types: seq<IrType>, v: VRegId, t: IrType, x: int) {
    && |w.instrs| > 0 && w.instrs[|w.instrs| - 1].dest == v
    && HoldsEarlier(w, types, v, t, x)
  }

  predicate HoldsEarlier(w: Writer, types: seq<IrType>, v: VRegId, t: IrType, x: int) {
    v in Run(types, w.instrs) && TypeAt(types, v) == t && Run(types, w.instrs)[v] == x
  }

  /** The emitted instructions compute the value of e into v, leave the registers of w alone and keep
      the writer in order. */
  predicate Computes(w: Writer, w': Writer, types: seq<IrType>, v: VRegId, value: S.Value) {
    WriterOk(w', types) && Continues(w, w', types) && Holds(w', types, v, S.TypeOf(value), S.Number(value))
  }

  /** Emission preserves meaning: from any writer, the appended instructions leave the value of e in the
      returned register, which they define last; they define new registers only, keep the values of the
      old ones, and keep every cached constant. */
  lemma {:induction false} EmitCorrect(w: Writer, e: A.Expr, types: seq<IrType>)
    requires Typed(e) && WriterOk(w, types)
    requires EmitExpr(w, e).Ok? && EmitExpr(w, e).value.0.vregs <= types
    ensures Computes(w, EmitExpr(w, e).value.0, types, EmitExpr(w, e).value.1, S.Eval(e).value)
    decreases e
  {
    hide WriterOk, Continues, Holds, Run;
    match e
    case IntegerLiteral(raw, annotation) =>
      LoadStep(w, types, annotation.Resolve().value, raw);
    case BooleanLiteral(b) =>
      LoadStep(w, types, BOOL, if b then 1 else 0);
    case Binary(op, l, r, ty) =>
      hide OpcodeOf, S.EvalBinary;
      EmitSucceeds(w, l);
      var (w1, lv) := EmitExpr(w, l).value;
      EmitSucceeds(w1, r);
      var (w2, rv) := EmitExpr(w1, r).value;
      EmitCorrect(w, l, types);
      EmitCorrect(w1, r, types);
      BinaryStep(w, w1, w2, types, op, lv, rv, S.Eval(l).value, S.Eval(r).value);
    case Unary(op, x, ty) =>
      EmitSucceeds(w, x);
      var (w1, xv) := EmitExpr(w, x).value;
      GetConstantGrows(w1.(vregs := w1.vregs + [BOOL]), BOOL, 1);
      EmitCorrect(w, x, types);
      if op.LogicalNot? {
        LogicalNotStep(w, w1, types, xv, S.Eval(x).value.b);
      } else {
        UnaryStep(w, w1, types, op, xv, S.Eval(x).value);
      }
  }

  lemma ContinuesTransitive(w1: Writer, w2: Writer, w3: Writer, types: seq<IrType>)
    requires Continues(w1, w2, types) && Continues(w2, w3, types)
    ensures Continues(w1, w3, types)
  {
    hide Run;
  }

  /** A literal. */
  lemma LoadStep(w: Writer, types: seq<IrType>, t: IrType, raw: nat)
    requires WriterOk(w, types) && w.vregs + [t] <= types
    ensures var i := Instruction(LoadImm, |w.vregs|, NO_VREG, NO_VREG, raw);
            var w' := Writer(w.vregs + [t], w.instrs + [i], w.constants);
            WriterOk(w', types) && Continues(w, w', types) && Holds(w', types, |w.vregs|, t, t.Wrap(raw))
  {
    hide SafeOperands, BlockOk;
    var i := Instruction(LoadImm, |w.vregs|, NO_VREG, NO_VREG, raw);
    DefineNew(w, types, t, i);
    AppendInstruction(types, w.instrs, i);
  }

  /** The last step for a binary expression, when its operands are in lv and rv. */
  lemma BinaryStep(w: Writer, w1: Writer, w2: Writer, types: seq<IrType>, op: A.BinaryOperation,
                   lv: VRegId, rv: VRegId, l: S.Value, r: S.Value)
    requires Computes(w, w1, types, lv, l) && Computes(w1, w2, types, rv, r) && S.Valid(l) && S.Valid(r)
    requires S.EvalBinary(op, l, r).Some?
    requires w2.vregs + [S.TypeOf(S.EvalBinary(op, l, r).value)] <= types
    ensures !op.IsLogical()
    ensures var t := S.TypeOf(S.EvalBinary(op, l, r).value);
            var i := Instruction(OpcodeOf(op), |w2.vregs|, lv, rv, 0);
            Computes(w, Writer(w2.vregs + [t], w2.instrs + [i], w2.constants), types, |w2.vregs|,
                     S.EvalBinary(op, l, r).value)
  {
    hide Run, BlockOk, SafeOperands;
    OpcodeMeaning(op, l, r);
    var t := S.TypeOf(S.EvalBinary(op, l, r).value);
    var i := Instruction(OpcodeOf(op), |w2.vregs|, lv, rv, 0);
    OperatorTyped(op, l, r, types, i);
    hide S.EvalBinary, OpcodeOf, EvalBinaryOp, WellTyped;
    var w3 := Writer(w2.vregs + [t], w2.instrs + [i], w2.constants);
    assert lv in Dests(w2.instrs) by { RunDefines(types, w2.instrs); }
    assert rv == Dests(w2.instrs)[|w2.instrs| - 1];
    LastIsSafe(Dests(w2.instrs), lv, rv);
    DefineNew(w2, types, t, i);
    AppendInstruction(types, w2.instrs, i);
    hide WriterOk;
    ContinuesTransitive(w, w1, w2, types);
    ContinuesTransitive(w, w2, w3, types);
  }

  lemma LastIsSafe(defs: seq<VRegId>, v: VRegId, last: VRegId)
    requires |defs| > 0 && last == defs[|defs| - 1]
    ensures Recent(defs, last, 13) && SafeOperands(defs, v, last) && SafeOperands(defs, last, v)
  {
    assert last == (if |defs| <= 13 then defs else defs[|defs| - 13..])[if |defs| <= 13 then |defs| - 1 else 12];
  }

  lemma OperatorTyped(op: A.BinaryOperation, l: S.Value, r: S.Value, types: seq<IrType>, i: Instruction)
    requires S.EvalBinary(op, l, r).Some? && S.Valid(l) && S.Valid(r)
    requires !op.IsLogical() && i.opcode == OpcodeOf(op)
    requires TypeAt(types, i.op1) == S.TypeOf(l) && TypeAt(types, i.op2) == S.TypeOf(r)
    requires TypeAt(types, i.dest) == S.TypeOf(S.EvalBinary(op, l, r).value)
    ensures WellTyped(types, i)
  {
  }

  lemma UnaryStep(w: Writer, w1: Writer, types: seq<IrType>, op: A.UnaryOperation, xv: VRegId, x: S.Value)
    requires Computes(w, w1, types, xv, x) && S.Valid(x)
    requires !op.LogicalNot? && S.EvalUnary(op, x).Some?
    requires w1.vregs + [S.TypeOf(x)] <= types
    ensures var i := Instruction(if op.Negation? then Neg else Op.BitNot, |w1.vregs|, xv, NO_VREG, 0);
            Computes(w, Writer(w1.vregs + [S.TypeOf(x)], w1.instrs + [i], w1.constants), types, |w1.vregs|,
                     S.EvalUnary(op, x).value)
  {
    hide Run, BlockOk, SafeOperands, Recent, IrTypes.IrType.Wrap, IrTypes.IrType.InRange, ConstantsOk, Distinct;
    var i := Instruction(if op.Negation? then Neg else Op.BitNot, |w1.vregs|, xv, NO_VREG, 0);
    RunDefines(types, w1.instrs);
    assert xv == Dests(w1.instrs)[|w1.instrs| - 1];
    LastIsSafe(Dests(w1.instrs), xv, xv);
    DefineNew(w1, types, S.TypeOf(x), i);
    AppendInstruction(types, w1.instrs, i);
    ContinuesTransitive(w, w1, Writer(w1.vregs + [S.TypeOf(x)], w1.instrs + [i], w1.constants), types);
  }

  lemma GetConstantGrows(w: Writer, t: IrType, value: nat)
    ensures w.vregs <= GetConstant(w, t, value).0.vregs && w.instrs <= GetConstant(w, t, value).0.instrs
  {
  }

  /** The last steps for a logical negation, when its operand is in xv. The result register is allocated
      before the register of the constant, but defined after it. */
  lemma LogicalNotStep(w: Writer, w1: Writer, types: seq<IrType>, xv: VRegId, b: bool)
    requires Computes(w, w1, types, xv, S.BoolValue(b))
    requires GetConstant(w1.(vregs := w1.vregs + [BOOL]), BOOL, 1).0.vregs <= types
    ensures var v := |w1.vregs|;
            var (w3, one) := GetConstant(w1.(vregs := w1.vregs + [BOOL]), BOOL, 1);
            Computes(w, AddInstruction(w3, Op.BitXor, v, xv, one, 0), types, v, S.BoolValue(!b))
  {
    hide Run, BlockOk, SafeOperands, Recent, EvalBinaryOp, ConstantsOk;
    var w2 := w1.(vregs := w1.vregs + [BOOL]);
    var v := |w1.vregs|;
    GetConstantGrows(w2, BOOL, 1);
    assert types[v] == w2.vregs[v];
    var (w3, one) := GetConstant(w2, BOOL, 1);
    var i := Instruction(Op.BitXor, v, xv, one, 0);
    assert WriterOk(w2, types) by {
      assert ConstantsOk(w2, types) by { ConstantsIgnoreVregs(w1, w2, types); }
    }
    ConstantCorrect(w2, types, BOOL, 1);
    ConstantSafe(w1, w3, xv, one);
    StillUndefined(w1, w3.instrs, v);
    assert InstructionOk(types, Dests(w3.instrs), i);
    assert ResultOf(types, Run(types, w3.instrs), i) == S.Number(S.BoolValue(!b)) by {
      XorOneNegates(b);
      assert Look(Run(types, w3.instrs), xv) == Run(types, w1.instrs)[xv];
    }
    hide GetConstant;
    AddKeeps(w3, types, i);
    AppendInstruction(types, w3.instrs, i);
    hide WriterOk, InstructionOk, ResultOf;
    ContinuesTransitive(w, w1, w3, types);
    ContinuesTransitive(w, w3, AddInstruction(w3, Op.BitXor, v, xv, one, 0), types);
  }

  /** A register allocated before a constant was loaded has no definition yet. */
  lemma StillUndefined(w1: Writer, instrs: seq<Instruction>, v: VRegId)
    requires forall d :: d in Dests(w1.instrs) ==> d < v
    requires instrs == w1.instrs || (|instrs| == |w1.instrs| + 1 && w1.instrs <= instrs && instrs[|w1.instrs|].dest > v)
    ensures v !in Dests(instrs)
  {
    forall k | 0 <= k < |instrs|
      ensures Dests(instrs)[k] != v
    {
      if k < |w1.instrs| {
        assert instrs[k] == w1.instrs[k];
        assert Dests(w1.instrs)[k] in Dests(w1.instrs);
      }
    }
  }

  lemma ConstantsIgnoreVregs(w1: Writer, w2: Writer, types: seq<IrType>)
    requires ConstantsOk(w1, types) && w1.instrs == w2.instrs && w1.constants == w2.constants
    ensures ConstantsOk(w2, types)
  {
  }

  /** The operand of a logical negation or its constant was defined last. */
  lemma ConstantSafe(w1: Writer, w3: Writer, xv: VRegId, one: VRegId)
    requires |w1.instrs| > 0 && w1.instrs[|w1.instrs| - 1].dest == xv && w1.instrs <= w3.instrs
    requires w3.instrs == w1.instrs ||
             (|w3.instrs| == |w1.instrs| + 1 && one == w3.instrs[|w1.instrs|].dest)
    ensures xv in Dests(w3.instrs) && SafeOperands(Dests(w3.instrs), xv, one)
  {
    assert xv == Dests(w3.instrs)[|w1.instrs| - 1];
    if w3.instrs == w1.instrs {
      LastIsSafe(Dests(w3.instrs), one, xv);
    } else {
      LastIsSafe(Dests(w3.instrs), xv, one);
    }
  }

  /** The constant cache: a hit emits nothing, a miss loads the constant; either way the register holds it.
      Registers allocated but not yet defined stay undefined. */
  lemma ConstantCorrect(w: Writer, types: seq<IrType>, t: IrType, value: nat)
    requires WriterOk(w, types) && GetConstant(w, t, value).0.vregs <= types
    ensures var (w', v) := GetConstant(w, t, value);
            && WriterOk(w', types) && Continues(w, w', types)
            && v in Dests(w'.instrs) && TypeAt(types, v) == t && Look(Run(types, w'.instrs), v) == t.Wrap(value)
            && (w'.instrs == w.instrs || (|w'.instrs| == |w.instrs| + 1 &&
                v == w'.instrs[|w.instrs|].dest == |w.vregs|))
  {
    hide Run, BlockOk, SafeOperands, SafeComplement, Recent;
    if (t, value) in w.constants {
      assert w.constants[(t, value)] in Dests(w.instrs) by { RunDefines(types, w.instrs); }
    } else {
      var i := Instruction(LoadImm, |w.vregs|, NO_VREG, NO_VREG, value);
      DefineNew(w, types, t, i);
      AppendInstruction(types, w.instrs, i);
      var (w', v) := GetConstant(w, t, value);
      assert v == Dests(w'.instrs)[|w.instrs|];
    }
  }
}
