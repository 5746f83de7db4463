/** All statements of a function: each becomes a block of its own, and each block computes its value after those
    before it, whose constants it may use. */
module StatementEmission {
  import opened Results
  import opened IrTypes
  import FrontendTypes
  import opened Ast
  import S = SourceSemantics
  import opened Semantics
  import opened Ir
  import opened IrSemantics
  import opened IrEmission
  import opened FunctionEmission

  /** The instructions of the blocks, one after the other. */
  function AllInstructions(blocks: seq<BasicBlock>): seq<Instruction> {
    if blocks == [] then [] else AllInstructions(blocks[..|blocks| - 1]) + blocks[|blocks| - 1].instructions
  }

  /** The writer as if it had never closed a block. */
  function Whole(d: Draft): Writer {
    Writer(d.writer.vregs, AllInstructions(d.blocks) + d.writer.instrs, d.writer.constants)
  }

  lemma AllAppend(blocks: seq<BasicBlock>, b: BasicBlock)
    ensures AllInstructions(blocks + [b]) == AllInstructions(blocks) + b.instructions
  {
    assert (blocks + [b])[..|blocks|] == blocks;
  }

  /** What was written before does not matter to emission. */
  lemma {:induction false} EmitAfter(p: seq<Instruction>, w: Writer, e: Expr)
    requires EmitExpr(w, e).Ok?
    ensures var (w1, v) := EmitExpr(w, e).value;
            EmitExpr(w.(instrs := p + w.instrs), e) == Ok((w1.(instrs := p + w1.instrs), v))
    decreases e
  {
    hide OpcodeOf;
    match e
    case IntegerLiteral(raw, t) =>
      AddAfter(p, NewVreg(w, t.Resolve().value).0, LoadImm, |w.vregs|, NO_VREG, NO_VREG, raw);
    case BooleanLiteral(b) =>
      AddAfter(p, NewVreg(w, BOOL).0, LoadImm, |w.vregs|, NO_VREG, NO_VREG, if b then 1 else 0);
    case Binary(op, l, r, ty) =>
      EmitAfter(p, w, l);
      var (w1, lv) := EmitExpr(w, l).value;
      EmitAfter(p, w1, r);
      var (w2, rv) := EmitExpr(w1, r).value;
      AddAfter(p, NewVreg(w2, ty.Resolve().value).0, OpcodeOf(op), |w2.vregs|, lv, rv, 0);
    case Unary(op, x, ty) =>
      EmitAfter(p, w, x);
      UnaryAfter(p, w, op, x, ty);
    case _ =>
  }

  lemma AddAfter(p: seq<Instruction>, w: Writer, op: Op, dest: VRegId, op1: VRegId, op2: VRegId, data: nat)
    ensures var w' := AddInstruction(w, op, dest, op1, op2, data);
            AddInstruction(w.(instrs := p + w.instrs), op, dest, op1, op2, data) == w'.(instrs := p + w'.instrs)
  {
    assert p + w.instrs + [Instruction(op, dest, op1, op2, data)] ==
           p + (w.instrs + [Instruction(op, dest, op1, op2, data)]);
  }

  lemma UnaryAfter(p: seq<Instruction>, w: Writer, op: UnaryOperation, x: Expr, ty: FrontendTypes.FrontendType)
    requires EmitExpr(w, Expr.Unary(op, x, ty)).Ok? && EmitExpr(w, x).Ok?
    requires EmitExpr(w.(instrs := p + w.instrs), x) ==
             Ok((EmitExpr(w, x).value.0.(instrs := p + EmitExpr(w, x).value.0.instrs), EmitExpr(w, x).value.1))
    ensures var e := Expr.Unary(op, x, ty);
            EmitExpr(w.(instrs := p + w.instrs), e) ==
            Ok((EmitExpr(w, e).value.0.(instrs := p + EmitExpr(w, e).value.0.instrs), EmitExpr(w, e).value.1))
  {
    var (w1, xv) := EmitExpr(w, x).value;
    var t := ty.Resolve().value;
    var w2 := NewVreg(w1, t).0;
    match op
    case Negation => AddAfter(p, w2, Neg, |w1.vregs|, xv, NO_VREG, 0);
    case BitwiseNot => AddAfter(p, w2, Op.BitNot, |w1.vregs|, xv, NO_VREG, 0);
    case LogicalNot =>
      var w3, one := GetConstant(w2, t, 1).0, GetConstant(w2, t, 1).1;
      AddAfter(p, w2.(vregs := w2.vregs + [t], constants := w2.constants[(t, 1) := |w2.vregs|]), LoadImm,
               |w2.vregs|, NO_VREG, NO_VREG, 1);
      AddAfter(p, w3, Op.BitXor, |w1.vregs|, xv, one, 0);
  }

  /** Block k returns what statement k returns, computed after the blocks before it. */
  predicate BlockAnswers(types: seq<IrType>, blocks: seq<BasicBlock>, k: nat, s: Option<Expr>)
    requires k < |blocks|
  {
    && blocks[k].id == k && blocks[k].terminator.Return?
    && var value, env := blocks[k].terminator.value, Run(types, AllInstructions(blocks[..k + 1]));
    && (value.Some? <==> s.Some?)
    && (s.Some? ==> S.Eval(s.value).Some? && value.value in env && env[value.value] == S.Number(S.Eval(s.value).value))
  }

  lemma EmptyWholeOk(types: seq<IrType>)
    ensures WriterOk(Whole(EMPTY_DRAFT), types)
  {
    assert Whole(EMPTY_DRAFT) == EMPTY_DRAFT.writer;
  }

  /** One more statement. */
  lemma StatementAnswers(d: Draft, s: Option<Expr>, types: seq<IrType>)
    requires StatementTyped(s) && EmitReturn(d, s).Ok? && d.writer.instrs == []
    requires WriterOk(Whole(d), types) && EmitReturn(d, s).value.writer.vregs <= types
    ensures var d' := EmitReturn(d, s).value;
            && d'.writer.instrs == [] && |d'.blocks| == |d.blocks| + 1 && d.blocks <= d'.blocks
            && WriterOk(Whole(d'), types) && BlockAnswers(types, d'.blocks, |d.blocks|, s)
  {
    hide EmitExpr, WriterOk, Run, Typed, S.Eval, S.Number, BlockAnswers, AllInstructions;
    var d' := EmitReturn(d, s).value;
    var p := AllInstructions(d.blocks);
    if s.None? {
      var b := BasicBlock(|d.blocks|, [], Return(None));
      AllAppend(d.blocks, b);
      assert Whole(d') == Whole(d);
      assert d'.blocks[..|d.blocks| + 1] == d'.blocks;
      NothingAnswers(types, d'.blocks);
    } else {
      var (w, v) := EmitExpr(d.writer, s.value).value;
      EmitAfter(p, d.writer, s.value);
      assert d.writer.(instrs := p + d.writer.instrs) == Whole(d);
      EmitCorrect(Whole(d), s.value, types);
      TypedHasValue(s.value);
      var b := BasicBlock(|d.blocks|, w.instrs, Return(Some(v)));
      AllAppend(d.blocks, b);
      assert Whole(d') == w.(instrs := p + w.instrs);
      assert d'.blocks[..|d.blocks| + 1] == d'.blocks;
      assert Run(types, AllInstructions(d'.blocks)) == Run(types, p + w.instrs);
      ValueAnswers(types, d'.blocks, s.value, w.(instrs := p + w.instrs), v);
    }
  }

  lemma NothingAnswers(types: seq<IrType>, blocks: seq<BasicBlock>)
    requires blocks != [] && blocks[|blocks| - 1] == BasicBlock(|blocks| - 1, [], Return(None))
    ensures BlockAnswers(types, blocks, |blocks| - 1, None)
  {
    hide Run, AllInstructions;
  }

  lemma ValueAnswers(types: seq<IrType>, blocks: seq<BasicBlock>, e: Expr, w: Writer, v: VRegId)
    requires blocks != [] && blocks[|blocks| - 1].id == |blocks| - 1
    requires blocks[|blocks| - 1].terminator == Return(Some(v))
    requires AllInstructions(blocks) == w.instrs && Typed(e) && S.Eval(e).Some?
    requires Holds(w, types, v, S.TypeOf(S.Eval(e).value), S.Number(S.Eval(e).value))
    ensures BlockAnswers(types, blocks, |blocks| - 1, Some(e))
  {
    hide Run, AllInstructions, S.Eval, S.Number, Typed;
    assert blocks[..|blocks| - 1 + 1] == blocks;
  }

  lemma AnswersLater(types: seq<IrType>, blocks: seq<BasicBlock>, more: seq<BasicBlock>, k: nat, s: Option<Expr>)
    requires k < |blocks| && blocks <= more && BlockAnswers(types, blocks, k, s)
    ensures BlockAnswers(types, more, k, s)
  {
    hide Run, AllInstructions, S.Eval;
    assert more[..k + 1] == blocks[..k + 1];
  }

  lemma AnswersSame(types: seq<IrType>, blocks: seq<BasicBlock>, k: nat, s: Option<Expr>, s': Option<Expr>)
    requires k < |blocks| && BlockAnswers(types, blocks, k, s') && s.Some? == s'.Some?
    requires s.Some? ==> S.Eval(s'.value) == S.Eval(s.value)
    ensures BlockAnswers(types, blocks, k, s)
  {
    hide Run, AllInstructions, S.Eval;
  }

  lemma {:induction false} StatementsAnswer(ss: seq<Option<Expr>>, types: seq<IrType>)
    requires (forall i :: 0 <= i < |ss| ==> StatementTyped(ss[i])) && EmitStatements(EMPTY_DRAFT, ss).Ok?
    requires EmitStatements(EMPTY_DRAFT, ss).value.writer.vregs <= types
    ensures var d := EmitStatements(EMPTY_DRAFT, ss).value;
            && d.writer.instrs == [] && |d.blocks| == |ss| && WriterOk(Whole(d), types)
            && forall k :: 0 <= k < |ss| ==> BlockAnswers(types, d.blocks, k, ss[k])
    decreases |ss|
  {
    hide EmitReturn, StatementTyped, WriterOk, BlockAnswers, Whole;
    if ss == [] {
      EmptyWholeOk(types);
    } else {
      var n := |ss| - 1;
      var d1 := EmitStatements(EMPTY_DRAFT, ss[..n]).value;
      EmitReturnSucceeds(d1, ss[n]);
      StatementsAnswer(ss[..n], types);
      StatementAnswers(d1, ss[n], types);
      var d := EmitStatements(EMPTY_DRAFT, ss).value;
      forall k | 0 <= k < n
        ensures BlockAnswers(types, d.blocks, k, ss[k])
      {
        assert ss[..n][k] == ss[k];
        AnswersLater(types, d1.blocks, d.blocks, k, ss[k]);
      }
    }
  }

  /** The returns of a function, in order: its statements, and then its tail. */
  function Returns(f: FunctionDefinition): seq<Option<Expr>> {
    f.statements + if f.tail.Some? then [f.tail] else []
  }

  /** Compiling a function, as a whole: one block for each return, numbered in order, which returns its value; and
      a last block, which is empty and open. */
  lemma AllBlocks(f: FunctionDefinition)
    requires f.Fresh() && CompileFunction(f).Ok?
    ensures var fn, n := CompileFunction(f).value, |Returns(f)|;
            && fn.name == f.name && |fn.blocks| == n + 1
            && fn.blocks[n] == BasicBlock(n, [], Unterminated)
            && forall k :: 0 <= k < n ==> BlockAnswers(fn.vregs, fn.blocks, k, Returns(f)[k])
  {
    hide EmitStatements, EmitReturn, BlockAnswers, Typed, CheckStatements, S.Eval, WriterOk, FunctionDefinition.Fresh;
    hide FunctionDefinition.Annotated, FunctionDefinition.Ground, Whole;
    StatementsAnnotated(f);
    CompiledGround(f);
    CheckedTyped(f);
    var fn, checked := CompileFunction(f).value, CheckFunction(f).value;
    EmitStatementsSucceeds(EMPTY_DRAFT, checked.statements);
    var d := EmitStatements(EMPTY_DRAFT, checked.statements).value;
    var m := |f.statements|;
    if f.tail.Some? {
      TailIsLiteral(f);
      EmitReturnSucceeds(d, f.tail);
    }
    StatementsAnswer(checked.statements, fn.vregs);
    if f.tail.Some? { StatementAnswers(d, f.tail, fn.vregs); }
    forall k | 0 <= k < m
      ensures BlockAnswers(fn.vregs, fn.blocks, k, f.statements[k])
    {
      assert Checked(f.statements[k], checked.statements[k]);
      AnswersLater(fn.vregs, d.blocks, fn.blocks, k, checked.statements[k]);
      AnswersSame(fn.vregs, fn.blocks, k, f.statements[k], checked.statements[k]);
    }
    if f.tail.Some? { AnswersLater(fn.vregs, EmitReturn(d, f.tail).value.blocks, fn.blocks, m, f.tail); }
  }
}
