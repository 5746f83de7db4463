/** The IR writer as it works: an object that emission appends to. */
module IrWriting {
  import opened Results
  import opened IrTypes
  import opened Ast
  import opened Ir
  import opened IrEmission
  import opened FunctionEmission

  class IrWriter {
    /** The functions begun before the current one. */
    var earlier: seq<Function>
    /** The current function, if there is one. */
    var open: bool
    var name: string
    var vregs: seq<IrType>
    var blocks: seq<BasicBlock>
    /** The instructions of the current block. */
    var instructions: seq<Instruction>
    /** The registers that hold constants, by type and value. */
    var constants: map<(IrType, nat), VRegId>

    ghost function State(): Writer reads this { Writer(vregs, instructions, constants) }

    ghost function CurrentDraft(): Draft reads this { Draft(State(), blocks) }

    constructor ()
      ensures !open && earlier == []
    {
      earlier, open, name := [], false, "";
      vregs, blocks, instructions, constants := [], [], [], map[];
    }

    /** Begins a function; cached constants belong to the previous one. */
    method NewFunction(name: string)
      modifies this
      ensures open && this.name == name && CurrentDraft() == EMPTY_DRAFT
      ensures earlier == old(if open then earlier + [Finish(this.name, CurrentDraft())] else earlier)
    {
      if open {
        var last := BasicBlock(|blocks|, instructions, Unterminated);
        earlier := earlier + [Function.Function(this.name, vregs, blocks + [last])];
      }
      open, this.name := true, name;
      vregs, blocks, instructions, constants := [], [], [], map[];
    }

    method NewVreg(t: IrType) returns (r: Result<VRegId>)
      modifies this`vregs
      ensures if !open then r == Err(InternalError) && unchanged(this)
              else r == Ok(IrEmission.NewVreg(old(State()), t).1) && State() == IrEmission.NewVreg(old(State()), t).0
    {
      if !open { return Err(InternalError); }
      r := Ok(|vregs|);
      vregs := vregs + [t];
    }

    method AddInstr(op: Op, dest: VRegId, op1: VRegId, op2: VRegId, data: nat) returns (r: Result<()>)
      modifies this`instructions
      ensures if !open then r == Err(InternalError) && unchanged(this)
              else r == Ok(()) && State() == AddInstruction(old(State()), op, dest, op1, op2, data)
    {
      if !open { return Err(InternalError); }
      instructions := instructions + [Instruction(op, dest, op1, op2, data)];
      r := Ok(());
    }

    /** The register of a constant, loaded at its first use. */
    method GetConstVreg(t: IrType, value: nat) returns (r: Result<VRegId>)
      modifies this`vregs, this`instructions, this`constants
      ensures !open && (t, value) !in old(constants) ==> r == Err(InternalError)
      ensures open ==> var (w, v) := GetConstant(old(State()), t, value); r == Ok(v) && State() == w
    {
      if (t, value) in constants { return Ok(constants[(t, value)]); }
      r := NewVreg(t);
      if r.Err? { return; }
      constants := constants[(t, value) := r.value];
      var added := AddInstr(LoadImm, r.value, NO_VREG, NO_VREG, value);
    }

    /** Closes the current block with a return and opens a new one. */
    method AddReturn(value: Option<VRegId>) returns (r: Result<()>)
      modifies this`blocks, this`instructions
      ensures if !open then r == Err(InternalError) && unchanged(this)
              else r == Ok(()) && CurrentDraft() == FunctionEmission.AddReturn(old(CurrentDraft()), value)
    {
      if !open { return Err(InternalError); }
      blocks := blocks + [BasicBlock(|blocks|, instructions, Return(value))];
      instructions := [];
      r := Ok(());
    }

    /** All functions written so far. */
    method GetObject() returns (fns: seq<Function>)
      ensures fns == Functions()
    {
      fns := earlier;
      if open {
        fns := fns + [Function.Function(name, vregs, blocks + [BasicBlock(|blocks|, instructions, Unterminated)])];
      }
    }

    ghost function Functions(): seq<Function>
      reads this
    {
      if open then earlier + [Finish(name, CurrentDraft())] else earlier
    }
  }

  /** The error of emission before the first function: the first one that is met on the way to a register. */
  function UnopenedError(e: Expr): Error {
    match e
    case IntegerLiteral(_, _) => InternalError
    case BooleanLiteral(_) => InternalError
    case Identifier(_, _, _) => Unimplemented
    case Binary(op, l, _, ty) =>
      if op.IsLogical() then Unimplemented else if ty.Resolve().Err? then InternalError else UnopenedError(l)
    case Unary(_, x, ty) => if ty.Resolve().Err? then InternalError else UnopenedError(x)
    case Call(_, _) => Unimplemented
  }

  /** Appends the instructions of an expression; the result is the register that holds its value. */
  method EmitExpr(writer: IrWriter, e: Expr) returns (r: Result<VRegId>)
    modifies writer`vregs, writer`instructions, writer`constants
    ensures !writer.open ==> r == Err(UnopenedError(e))
    ensures writer.open ==>
              match IrEmission.EmitExpr(old(writer.State()), e)
              case Ok((w, v)) => r == Ok(v) && writer.State() == w
              case Err(error) => r == Err(error)
    decreases e
  {
    match e
    case IntegerLiteral(raw, annotation) =>
      var t :- annotation.Resolve();
      var dest :- writer.NewVreg(t);
      var _ := writer.AddInstr(LoadImm, dest, NO_VREG, NO_VREG, raw);
      r := Ok(dest);
    case BooleanLiteral(b) =>
      var dest :- writer.NewVreg(BOOL);
      var _ := writer.AddInstr(LoadImm, dest, NO_VREG, NO_VREG, if b then 1 else 0);
      r := Ok(dest);
    case Identifier(_, _, _) => r := Err(Unimplemented);
    case Binary(op, left, right, ty) =>
      if op.IsLogical() { return Err(Unimplemented); }
      var t :- ty.Resolve();
      var l :- EmitExpr(writer, left);
      var rv :- EmitExpr(writer, right);
      r := writer.NewVreg(t);
      var _ := writer.AddInstr(OpcodeOf(op), r.value, l, rv, 0);
    case Unary(op, operand, ty) =>
      var t :- ty.Resolve();
      var source :- EmitExpr(writer, operand);
      r := writer.NewVreg(t);
      match op {
        case Negation => var _ := writer.AddInstr(Neg, r.value, source, NO_VREG, 0);
        case LogicalNot =>
          var one := writer.GetConstVreg(t, 1);
          var _ := writer.AddInstr(Op.BitXor, r.value, source, one.value, 0);
        case BitwiseNot => var _ := writer.AddInstr(Op.BitNot, r.value, source, NO_VREG, 0);
      }
    case Call(_, _) => r := Err(Unimplemented);
  }

  method EmitReturn(writer: IrWriter, e: Option<Expr>) returns (r: Result<()>)
    modifies writer`vregs, writer`instructions, writer`constants, writer`blocks
    ensures !writer.open ==> r == Err(if e.Some? then UnopenedError(e.value) else InternalError)
    ensures writer.open ==>
              match FunctionEmission.EmitReturn(old(writer.CurrentDraft()), e)
              case Ok(d) => r == Ok(()) && writer.CurrentDraft() == d
              case Err(error) => r == Err(error)
  {
    if e.None? {
      r := writer.AddReturn(None);
    } else {
      var v :- EmitExpr(writer, e.value);
      r := writer.AddReturn(Some(v));
    }
  }

  /** Begins a function and emits its statements and its tail. */
  method EmitFunction(writer: IrWriter, f: FunctionDefinition) returns (r: Result<()>)
    modifies writer
    ensures writer.open
    ensures match FunctionEmission.EmitFunction(f)
            case Ok(fn) => r == Ok(()) && writer.Functions() == old(writer.Functions()) + [fn]
            case Err(error) => r == Err(error)
  {
    hide FunctionEmission.EmitReturn;
    writer.NewFunction(f.name);
    for k := 0 to |f.statements|
      invariant writer.open && writer.name == f.name && writer.earlier == old(writer.Functions())
      invariant EmitStatements(EMPTY_DRAFT, f.statements[..k]) == Ok(writer.CurrentDraft())
    {
      assert f.statements[..k + 1][..k] == f.statements[..k];
      r := EmitReturn(writer, f.statements[k]);
      if r.Err? {
        EmitStatementsStops(EMPTY_DRAFT, f.statements, k + 1, r.error);
        return;
      }
    }
    assert f.statements[..|f.statements|] == f.statements;
    r := Ok(());
    if f.tail.Some? { r := EmitReturn(writer, f.tail); }
  }

  lemma {:induction false} EmitStatementsStops(d: Draft, ss: seq<Option<Expr>>, k: nat, e: Error)
    requires k <= |ss| && EmitStatements(d, ss[..k]) == Err(e)
    ensures EmitStatements(d, ss) == Err(e)
    decreases |ss|
  {
    hide FunctionEmission.EmitReturn;
    if k == |ss| {
      assert ss[..k] == ss;
    } else {
      assert ss[..|ss| - 1][..k] == ss[..k];
      EmitStatementsStops(d, ss[..|ss| - 1], k, e);
    }
  }
}
