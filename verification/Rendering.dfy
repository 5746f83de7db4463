/** Written expressions: which token sequences the parser accepts, and how a tree is written with as few
    parentheses as possible. */
module Rendering {
  import opened Results
  import opened FrontendTypes
  import opened Ast
  import opened Tokens
  import opened Parsing
  import opened Literals

  // ---- written trees -----------------------------------------------------------------------

  function BinaryLevel(op: BinaryOperation): (level: nat)
    ensures level < UNARY
  {
    match op
    case LogicalOr => 0
    case LogicalAnd => 1
    case Equal | NotEqual => 2
    case LessThan | LessThanOrEqual | GreaterThan | GreaterThanOrEqual => 3
    case BitwiseOr => 4
    case BitwiseXor => 5
    case BitwiseAnd => 6
    case ShiftLeft | ShiftRight => 7
    case Add | Subtract => 8
    case Multiply | Divide | Modulus => 9
  }

  function BinaryToken(op: BinaryOperation): Token {
    match op
    case LogicalOr => Token(OR_OR, "")
    case LogicalAnd => Token(AND_AND, "")
    case Equal => Token(EQUAL_EQUAL, "")
    case NotEqual => Token(EXCLAMATION_EQUAL, "")
    case LessThan => Token(LESS, "")
    case LessThanOrEqual => Token(LESS_EQUAL, "")
    case GreaterThan => Token(GREATER, "")
    case GreaterThanOrEqual => Token(GREATER_EQUAL, "")
    case BitwiseOr => Token(OR, "")
    case BitwiseXor => Token(CARET, "")
    case BitwiseAnd => Token(AND, "")
    case ShiftLeft => Token(LESS_LESS, "")
    case ShiftRight => Token(GREATER_GREATER, "")
    case Add => Token(PLUS, "")
    case Subtract => Token(MINUS, "")
    case Multiply => Token(ASTERISK, "")
    case Divide => Token(FORWARD_SLASH, "")
    case Modulus => Token(PERCENT, "")
  }

  function UnaryToken(op: UnaryOperation): Token {
    match op
    case LogicalNot => Token(EXCLAMATION, "")
    case BitwiseNot => Token(TILDE, "")
    case Negation => Token(MINUS, "")
  }

  const OPEN := Token(L_PAREN, "")
  const CLOSE := Token(R_PAREN, "")

  /** A tree as it is written, with its parentheses. */
  datatype Written =
    | Leaf(token: Token)
    | Paren(inner: Written)
    | BinaryNode(op: BinaryOperation, left: Written, right: Written)
    | UnaryNode(uop: UnaryOperation, operand: Written)
    | CallNode(callee: Written)
  {
    /** The level at which it is parsed. */
    function Level(): (level: nat)
      ensures level <= PRIMARY
    {
      match this
      case BinaryNode(op, _, _) => BinaryLevel(op)
      case UnaryNode(_, _) => UNARY
      case CallNode(_) => POSTFIX
      case _ => PRIMARY
    }

    /** Operands are at least as tight as their places demand: a chain continues to its left only. */
    predicate Proper() {
      match this
      case Leaf(token) => LeafValue(token).Some?
      case Paren(inner) => inner.Proper()
      case BinaryNode(op, l, r) =>
        l.Proper() && r.Proper() && l.Level() >= LeftLevel(op) && r.Level() > BinaryLevel(op)
      case UnaryNode(_, x) => x.Proper() && x.Level() >= UNARY
      case CallNode(callee) => callee.Proper() && callee.Level() == PRIMARY
    }

    /** The tree that is meant. */
    function Value(): (e: Expr)
      requires Proper()
      ensures e.Fresh()
    {
      match this
      case Leaf(token) => LeafValue(token).value
      case Paren(inner) => inner.Value()
      case BinaryNode(op, l, r) => Binary(op, l.Value(), r.Value(), Unresolved)
      case UnaryNode(op, x) => Unary(op, x.Value(), Unresolved)
      case CallNode(callee) => Call(callee.Value(), Unresolved)
    }

    function Flat(): seq<Token> {
      match this
      case Leaf(token) => [token]
      case Paren(inner) => [OPEN] + inner.Flat() + [CLOSE]
      case BinaryNode(op, l, r) => l.Flat() + [BinaryToken(op)] + r.Flat()
      case UnaryNode(op, x) => [UnaryToken(op)] + x.Flat()
      case CallNode(callee) => callee.Flat() + [OPEN, CLOSE]
    }
  }

  /** The level of a left operand. */
  function LeftLevel(op: BinaryOperation): (level: nat)
    ensures level <= UNARY
  {
    if Repeats(op) then BinaryLevel(op) else BinaryLevel(op) + 1
  }

  /** The operators of which any number may follow one another without parentheses. */
  predicate Repeats(op: BinaryOperation) { op.Add? || op.Subtract? || op.Multiply? || op.Divide? || op.Modulus? }

  /** Tokens are written with the text that their kind demands; the text of other kinds is ignored. */
  function LeafValue(t: Token): (r: Option<Expr>)
    ensures r.Some? ==> r.value.Fresh()
  {
    match t.kind
    case IDENT => Some(Identifier(t.str, None, Unresolved))
    case KEYWORD_FALSE => Some(BooleanLiteral(false))
    case KEYWORD_TRUE => Some(BooleanLiteral(true))
    case INT_LITERAL =>
      var literal := ParseInteger(t.str);
      if literal.Err? then None else Some(IntegerLiteral(literal.value.0, literal.value.1))
    case _ => None
  }

  // ---- where a tree stops ------------------------------------------------------------------

  /** A level does not go on with these tokens. */
  predicate Quiet(level: nat, rest: seq<Token>) {
    if level < UNARY then !Stuck(rest) && OperatorAt(level, Head(rest).kind).None?
    else if level == POSTFIX then !Stuck(rest) && Head(rest).kind != L_PAREN
    else true
  }

  /** Exactly when a written tree, parsed at a level, ends before these tokens: all levels on the way down to it
      are quiet, then those of its last operand; its own level only if it is one that chains. */
  predicate Stops(w: Written, level: nat, rest: seq<Token>)
    requires w.Proper() && level <= w.Level()
    decreases w, w.Level() - level
  {
    if level < w.Level() then Quiet(level, rest) && Stops(w, level + 1, rest)
    else
      match w
      case BinaryNode(op, _, r) => (Repeats(op) ==> Quiet(level, rest)) && Stops(r, level + 1, rest)
      case UnaryNode(_, x) => Stops(x, UNARY, rest)
      case _ => true
  }

  /** The same, but at a chaining level more operators may follow. */
  predicate StopsBelow(w: Written, level: nat, rest: seq<Token>)
    requires w.Proper() && level <= w.Level() && level < UNARY
  {
    if level == w.Level() then Stops(w.right, level + 1, rest) else Stops(w, level + 1, rest)
  }

  /** The parser's result, described by a written tree. */
  ghost predicate Reads(w: Written, level: nat, ts: seq<Token>, e: Expr, rest: seq<Token>) {
    w.Proper() && level <= w.Level() && w.Value() == e && ts == w.Flat() + rest && Stops(w, level, rest)
  }

  /** Tokens as the lexer makes them: only some kinds have a text. */
  predicate Canonical(ts: seq<Token>) {
    forall i :: 0 <= i < |ts| ==> ts[i].kind in {IDENT, INT_LITERAL, ERROR_UNEXPECTED_CHAR} || ts[i].str == ""
  }

  lemma CanonicalSuffix(before: seq<Token>, ts: seq<Token>)
    requires Canonical(before + ts)
    ensures Canonical(ts)
  {
    forall i | 0 <= i < |ts|
      ensures ts[i] == (before + ts)[|before| + i]
    {
    }
  }

  lemma CanonicalHead(ts: seq<Token>)
    requires Canonical(ts) && ts != []
    ensures ts == [Head(ts)] + Rest(ts) && Canonical(Rest(ts))
    ensures Head(ts).kind !in {IDENT, INT_LITERAL, ERROR_UNEXPECTED_CHAR} ==> Head(ts) == Token(Head(ts).kind, "")
  {
    CanonicalSuffix([Head(ts)], Rest(ts)) by { assert ts == [Head(ts)] + Rest(ts); }
  }

  lemma OperatorIs(level: nat, kind: TokenType)
    requires OperatorAt(level, kind).Some?
    ensures BinaryLevel(OperatorAt(level, kind).value) == level < UNARY
    ensures BinaryToken(OperatorAt(level, kind).value) == Token(kind, "")
    ensures kind !in {IDENT, INT_LITERAL, ERROR_UNEXPECTED_CHAR, END_OF_FILE, UNFINISHED}
  {
  }

  lemma UnaryIs(kind: TokenType)
    requires UnaryAt(kind).Some?
    ensures UnaryToken(UnaryAt(kind).value) == Token(kind, "")
    ensures kind !in {IDENT, INT_LITERAL, ERROR_UNEXPECTED_CHAR, END_OF_FILE, UNFINISHED}
  {
  }

  // ---- what is parsed was written ----------------------------------------------------------

  lemma ReadsLooser(w: Written, level: nat, ts: seq<Token>, e: Expr, rest: seq<Token>)
    requires Reads(w, level + 1, ts, e, rest) && Quiet(level, rest)
    ensures Reads(w, level, ts, e, rest)
  {
    hide Quiet;
  }

  /** Whatever is parsed is the value of a written tree, followed by what is left, where that tree stops. */
  lemma {:induction false} Sound(level: nat, ts: seq<Token>) returns (w: Written)
    requires level <= PRIMARY && Canonical(ts) && Parse(level, ts).Parsed?
    ensures Reads(w, level, ts, Parse(level, ts).e, Parse(level, ts).rest)
    decreases |ts|, PRIMARY - level, 1
  {
    hide Canonical, Reads, ParseBinary, ParseUnary, ParsePostfix, ParsePrimary;
    if level == PRIMARY {
      w := SoundPrimary(ts);
    } else if level == POSTFIX {
      w := SoundPostfix(ts);
    } else if level == UNARY {
      w := SoundUnary(ts);
    } else {
      w := SoundBinary(level, ts);
    }
  }

  lemma {:induction false} SoundPrimary(ts: seq<Token>) returns (w: Written)
    requires Canonical(ts) && ParsePrimary(ts).Parsed?
    ensures Reads(w, PRIMARY, ts, ParsePrimary(ts).e, ParsePrimary(ts).rest)
    decreases |ts|, 0, 0
  {
    hide Canonical, ParseInteger, Parse, Reads;
    CanonicalHead(ts);
    if Head(ts).kind == L_PAREN {
      var inner := Sound(0, Rest(ts));
      var (e, rest) := (Parse(0, Rest(ts)).e, Parse(0, Rest(ts)).rest);
      CanonicalRest(inner, 0, Rest(ts), e, rest);
      CanonicalHead(rest);
      w := Paren(inner);
      ParenReads(inner, Rest(ts), e, Rest(rest));
    } else {
      w := Leaf(Head(ts));
      LeafReads(Head(ts), Rest(ts));
    }
  }

  lemma ParenReads(inner: Written, ts: seq<Token>, e: Expr, rest: seq<Token>)
    requires Reads(inner, 0, ts, e, [CLOSE] + rest)
    ensures Reads(Paren(inner), PRIMARY, [OPEN] + ts, e, rest)
  {
    hide Stops;
    PrimaryStops(Paren(inner), rest);
    assert [OPEN] + (inner.Flat() + ([CLOSE] + rest)) == Paren(inner).Flat() + rest;
  }

  lemma LeafReads(t: Token, rest: seq<Token>)
    requires LeafValue(t).Some?
    ensures Reads(Leaf(t), PRIMARY, [t] + rest, LeafValue(t).value, rest)
  {
    hide LeafValue, Stops;
    PrimaryStops(Leaf(t), rest);
  }

  lemma PrimaryStops(w: Written, rest: seq<Token>)
    requires w.Proper() && (w.Paren? || w.Leaf?)
    ensures Stops(w, PRIMARY, rest)
  {
    hide LeafValue;
  }

  lemma {:induction false} SoundPostfix(ts: seq<Token>) returns (w: Written)
    requires Canonical(ts) && ParsePostfix(ts).Parsed?
    ensures Reads(w, POSTFIX, ts, ParsePostfix(ts).e, ParsePostfix(ts).rest)
    decreases |ts|, PRIMARY - POSTFIX, 0
  {
    hide Canonical, Parse, Reads;
    var subject := Sound(PRIMARY, ts);
    var (e, rest) := (Parse(PRIMARY, ts).e, Parse(PRIMARY, ts).rest);
    if Head(rest).kind == L_PAREN {
      CanonicalRest(subject, PRIMARY, ts, e, rest);
      CanonicalHead(rest);
      CanonicalHead(Rest(rest));
      CallReads(subject, ts, e, Rest(Rest(rest)));
      w := CallNode(subject);
    } else {
      PostfixQuiet(rest);
      ReadsLooser(subject, POSTFIX, ts, e, rest);
      w := subject;
    }
  }

  lemma CanonicalRest(w: Written, level: nat, ts: seq<Token>, e: Expr, rest: seq<Token>)
    requires Reads(w, level, ts, e, rest) && Canonical(ts)
    ensures Canonical(rest)
  {
    hide Canonical, Stops;
    CanonicalSuffix(w.Flat(), rest);
  }

  lemma CallReads(subject: Written, ts: seq<Token>, e: Expr, rest: seq<Token>)
    requires Reads(subject, PRIMARY, ts, e, [OPEN] + ([CLOSE] + rest))
    ensures Reads(CallNode(subject), POSTFIX, ts, Call(e, Unresolved), rest)
  {
    assert subject.Flat() + ([OPEN] + ([CLOSE] + rest)) == CallNode(subject).Flat() + rest;
  }

  lemma PostfixQuiet(rest: seq<Token>)
    requires !Stuck(rest) && Head(rest).kind != L_PAREN
    ensures Quiet(POSTFIX, rest)
  {
  }

  lemma {:induction false} SoundUnary(ts: seq<Token>) returns (w: Written)
    requires Canonical(ts) && ParseUnary(ts).Parsed?
    ensures Reads(w, UNARY, ts, ParseUnary(ts).e, ParseUnary(ts).rest)
    decreases |ts|, PRIMARY - UNARY, 0
  {
    hide Canonical, Parse, UnaryAt, UnaryToken;
    var op := UnaryAt(Head(ts).kind);
    if op.Some? {
      UnaryIs(Head(ts).kind);
      CanonicalHead(ts);
      var x := Sound(UNARY, Rest(ts));
      w := UnaryNode(op.value, x);
      assert ts == w.Flat() + Parse(UNARY, Rest(ts)).rest;
    } else {
      w := Sound(POSTFIX, ts);
      ReadsLooser(w, UNARY, ts, ParseUnary(ts).e, ParseUnary(ts).rest);
    }
  }

  lemma {:induction false} SoundBinary(level: nat, ts: seq<Token>) returns (w: Written)
    requires level < UNARY && Canonical(ts) && ParseBinary(level, ts).Parsed?
    ensures Reads(w, level, ts, ParseBinary(level, ts).e, ParseBinary(level, ts).rest)
    decreases |ts|, PRIMARY - level, 0
  {
    hide Canonical, Parse, ParseChain, ParseOperator, Quiet;
    var left := Sound(level + 1, ts);
    var rest := Parse(level + 1, ts).rest;
    CanonicalSuffix(left.Flat(), rest);
    if Chains(level) {
      w := SoundChain(level, left, rest);
    } else {
      w := SoundOperator(level, left, rest);
    }
  }

  /** One more operator and its right operand. */
  lemma NodeParts(level: nat, left: Written, op: BinaryOperation, right: Written, after: seq<Token>, rest: seq<Token>)
    requires BinaryLevel(op) == level && left.Proper() && LeftLevel(op) <= left.Level()
    requires right.Proper() && Reads(right, level + 1, after, right.Value(), rest)
    ensures var w := BinaryNode(op, left, right);
            && w.Proper() && w.Level() == level && w.Value() == Binary(op, left.Value(), right.Value(), Unresolved)
            && left.Flat() + ([BinaryToken(op)] + after) == w.Flat() + rest
            && StopsBelow(w, level, rest) && (!Chains(level) ==> Stops(w, level, rest))
  {
    hide BinaryToken, BinaryLevel, LeftLevel, Quiet, Repeats, Chains;
    var w := BinaryNode(op, left, right);
    LeftLevelIs(op);
    assert left.Flat() + ([BinaryToken(op)] + (right.Flat() + rest)) == w.Flat() + rest;
  }

  /** A tree is read where it stops. */
  lemma StopsReads(w: Written, level: nat, ts: seq<Token>)
    requires w.Proper() && level <= w.Level() && Stops(w, level, ts)
    ensures Reads(w, level, w.Flat() + ts, w.Value(), ts)
  {
  }

  lemma NodeReads(level: nat, left: Written, op: BinaryOperation, right: Written, after: seq<Token>, e: Expr,
                  rest: seq<Token>)
    requires BinaryLevel(op) == level && !Chains(level) && left.Proper() && level < left.Level()
    requires Reads(right, level + 1, after, e, rest)
    ensures Reads(BinaryNode(op, left, right), level, left.Flat() + ([BinaryToken(op)] + after),
                  Binary(op, left.Value(), e, Unresolved), rest)
  {
    hide BinaryToken, BinaryLevel, LeftLevel, Chains, Stops, StopsBelow;
    LeftLevelIs(op);
    NodeParts(level, left, op, right, after, rest);
  }

  lemma {:induction false} SoundOperator(level: nat, left: Written, ts: seq<Token>) returns (w: Written)
    requires level < UNARY && !Chains(level) && Canonical(ts) && left.Proper() && level < left.Level()
    requires Stops(left, level + 1, ts) && ParseOperator(level, left.Value(), ts).Parsed?
    ensures var p := ParseOperator(level, left.Value(), ts);
            Reads(w, level, left.Flat() + ts, p.e, p.rest)
    decreases |ts|, PRIMARY - level, 2
  {
    hide Canonical, Parse, OperatorAt, BinaryToken, BinaryLevel, LeftLevel, Chains, Stops, StopsBelow, Reads;
    var op := OperatorAt(level, Head(ts).kind);
    if op.Some? {
      OperatorIs(level, Head(ts).kind);
      CanonicalHead(ts);
      var right := Sound(level + 1, Rest(ts));
      w := BinaryNode(op.value, left, right);
      var r := Parse(level + 1, Rest(ts));
      NodeReads(level, left, op.value, right, Rest(ts), r.e, r.rest);
    } else {
      w := left;
      StopsReads(left, level + 1, ts);
      ReadsLooser(left, level, left.Flat() + ts, left.Value(), ts);
    }
  }

  lemma LeftLevelIs(op: BinaryOperation)
    ensures LeftLevel(op) == if Chains(BinaryLevel(op)) then BinaryLevel(op) else BinaryLevel(op) + 1
    ensures Repeats(op) == Chains(BinaryLevel(op))
  {
  }

  lemma {:induction false} SoundChain(level: nat, left: Written, ts: seq<Token>) returns (w: Written)
    requires level < UNARY && Chains(level) && Canonical(ts) && left.Proper() && level <= left.Level()
    requires StopsBelow(left, level, ts) && ParseChain(level, left.Value(), ts).Parsed?
    ensures var p := ParseChain(level, left.Value(), ts);
            Reads(w, level, left.Flat() + ts, p.e, p.rest)
    decreases |ts|, PRIMARY - level, 2
  {
    hide Canonical, Parse, OperatorAt, BinaryToken, BinaryLevel, LeftLevel, Chains, Stops, StopsBelow, Reads;
    var op := OperatorAt(level, Head(ts).kind);
    if op.Some? {
      OperatorIs(level, Head(ts).kind);
      CanonicalHead(ts);
      var right := Sound(level + 1, Rest(ts));
      var (e, rest) := (Parse(level + 1, Rest(ts)).e, Parse(level + 1, Rest(ts)).rest);
      CanonicalRest(right, level + 1, Rest(ts), e, rest);
      ReadsProper(right, level + 1, Rest(ts), e, rest);
      LeftLevelIs(op.value);
      NodeParts(level, left, op.value, right, Rest(ts), rest);
      w := SoundChain(level, BinaryNode(op.value, left, right), rest);
    } else {
      w := left;
      ChainStops(left, level, ts);
      StopsReads(left, level, ts);
    }
  }

  lemma ReadsProper(w: Written, level: nat, ts: seq<Token>, e: Expr, rest: seq<Token>)
    requires Reads(w, level, ts, e, rest)
    ensures w.Proper() && w.Value() == e
  {
    hide Stops;
  }

  /** Where no operator of its level follows, a chain stops. */
  lemma ChainStops(w: Written, level: nat, ts: seq<Token>)
    requires level < UNARY && w.Proper() && level <= w.Level() && StopsBelow(w, level, ts)
    requires !Stuck(ts) && OperatorAt(level, Head(ts).kind).None?
    ensures Stops(w, level, ts)
  {
    hide OperatorAt, BinaryLevel;
  }

  // ---- what is written is parsed -----------------------------------------------------------

  /** A tree parsed at a tighter level is what a looser level parses, if nothing there goes on with the rest. */
  lemma Descend(level: nat, ts: seq<Token>, e: Expr, rest: seq<Token>)
    requires level < PRIMARY && Parse(level + 1, ts) == Parsed(e, rest) && Quiet(level, rest)
    requires level == UNARY ==> !Stuck(ts) && UnaryAt(Head(ts).kind).None?
    ensures Parse(level, ts) == Parsed(e, rest)
  {
    hide OperatorAt, UnaryAt, ParsePrimary, Expr.Fresh, Stuck;
    if level < UNARY {
      assert Parse(level, ts) == ParseBinary(level, ts);
      if Chains(level) {
        assert ParseBinary(level, ts) == ParseChain(level, e, rest);
      } else {
        assert ParseBinary(level, ts) == ParseOperator(level, e, rest);
      }
    }
  }

  /** A tree tighter than a prefix operator does not begin with one. */
  lemma {:induction false} StartsTight(w: Written, rest: seq<Token>)
    requires w.Proper() && w.Level() > UNARY
    ensures w.Flat() != [] && !Stuck(w.Flat() + rest) && UnaryAt(Head(w.Flat() + rest).kind).None?
    decreases w
  {
    match w
    case CallNode(callee) => StartsTight(callee, rest);
    case Paren(_) =>
    case Leaf(_) =>
  }

  /** An operator is nothing that a tighter level would go on with. */
  lemma {:induction false} StopsAtOperator(w: Written, level: nat, op: BinaryOperation, more: seq<Token>)
    requires w.Proper() && BinaryLevel(op) < level <= w.Level()
    ensures Stops(w, level, [BinaryToken(op)] + more)
    decreases w, w.Level() - level
  {
    hide BinaryLevel, BinaryToken, Quiet, LeftLevel;
    OperatorQuiet(level, op, more);
    if level < w.Level() {
      StopsAtOperator(w, level + 1, op, more);
    } else if w.BinaryNode? {
      StopsAtOperator(w.right, level + 1, op, more);
    } else if w.UnaryNode? {
      StopsAtOperator(w.operand, UNARY, op, more);
    }
  }

  lemma OperatorQuiet(level: nat, op: BinaryOperation, more: seq<Token>)
    requires BinaryLevel(op) < level
    ensures Quiet(level, [BinaryToken(op)] + more)
  {
  }

  lemma OperatorInverse(op: BinaryOperation)
    ensures OperatorAt(BinaryLevel(op), BinaryToken(op).kind) == Some(op) && BinaryToken(op) != STUCK
  {
  }

  lemma UnaryInverse(op: UnaryOperation)
    ensures UnaryAt(UnaryToken(op).kind) == Some(op) && UnaryToken(op) != STUCK
  {
  }

  /** A written tree, parsed at its level or a looser one before tokens where it stops, gives its value and
      leaves those tokens. */
  lemma {:induction false} Complete(w: Written, level: nat, rest: seq<Token>)
    requires w.Proper() && level <= w.Level() && Stops(w, level, rest)
    ensures Parse(level, w.Flat() + rest) == Parsed(w.Value(), rest)
    decreases w, 2 + w.Level() - level
  {
    hide Parse, OperatorAt, UnaryAt, Quiet, BinaryLevel, BinaryToken, UnaryToken, LeafValue, LeftLevel;
    if level < w.Level() {
      Complete(w, level + 1, rest);
      if level == UNARY { StartsTight(w, rest); }
      Descend(level, w.Flat() + rest, w.Value(), rest);
    } else if w.BinaryNode? {
      LeftLevelIs(w.op);
      if Chains(level) {
        ChainNode(w, rest);
        ChainEnd(level, w.Value(), rest);
      } else {
        OperatorNode(w, rest);
      }
    } else if w.UnaryNode? {
      Complete(w.operand, UNARY, rest);
      UnaryStep(w.uop, w.operand.Value(), w.operand.Flat() + rest, rest);
      assert w.Flat() + rest == [UnaryToken(w.uop)] + (w.operand.Flat() + rest);
    } else if w.CallNode? {
      StopsAtOnce(w.callee, [OPEN, CLOSE] + rest);
      Complete(w.callee, PRIMARY, [OPEN, CLOSE] + rest);
      CallStep(w.callee.Value(), w.callee.Flat() + ([OPEN, CLOSE] + rest), rest);
      assert w.Flat() + rest == w.callee.Flat() + ([OPEN, CLOSE] + rest);
    } else if w.Paren? {
      StopsAtClose(w.inner, 0, rest);
      Complete(w.inner, 0, [CLOSE] + rest);
      ParenStep(w.inner.Flat(), w.inner.Value(), rest);
    } else {
      LeafStep(w.token, rest);
    }
  }

  lemma StopsAtOnce(w: Written, rest: seq<Token>)
    requires w.Proper() && w.Level() == PRIMARY
    ensures Stops(w, PRIMARY, rest)
  {
    hide BinaryLevel;
  }

  lemma {:induction false} StopsAtClose(w: Written, level: nat, rest: seq<Token>)
    requires w.Proper() && level <= w.Level()
    ensures Stops(w, level, [CLOSE] + rest)
    decreases w, w.Level() - level
  {
    hide BinaryLevel, Quiet, LeftLevel;
    CloseQuiet(level, rest);
    if level < w.Level() {
      StopsAtClose(w, level + 1, rest);
    } else if w.BinaryNode? {
      StopsAtClose(w.right, level + 1, rest);
    } else if w.UnaryNode? {
      StopsAtClose(w.operand, UNARY, rest);
    }
  }

  lemma CloseQuiet(level: nat, rest: seq<Token>)
    ensures Quiet(level, [CLOSE] + rest)
  {
  }

  lemma LeafStep(token: Token, rest: seq<Token>)
    requires LeafValue(token).Some?
    ensures Parse(PRIMARY, [token] + rest) == Parsed(LeafValue(token).value, rest)
  {
    hide ParseBinary, ParseUnary, ParsePostfix, ParseInteger;
    HeadRest(token, rest);
  }

  lemma ParenStep(inner: seq<Token>, e: Expr, rest: seq<Token>)
    requires Parse(0, inner + ([CLOSE] + rest)) == Parsed(e, [CLOSE] + rest)
    ensures Parse(PRIMARY, [OPEN] + inner + [CLOSE] + rest) == Parsed(e, rest)
  {
    hide ParseBinary, ParseUnary, ParsePostfix, ParseInteger;
    var ts := [OPEN] + inner + [CLOSE] + rest;
    assert ts == [OPEN] + (inner + ([CLOSE] + rest));
    HeadRest(OPEN, inner + ([CLOSE] + rest));
    HeadRest(CLOSE, rest);
  }

  lemma CallStep(callee: Expr, ts: seq<Token>, rest: seq<Token>)
    requires Parse(PRIMARY, ts) == Parsed(callee, [OPEN, CLOSE] + rest)
    ensures Parse(POSTFIX, ts) == Parsed(Call(callee, Unresolved), rest)
  {
    hide ParseBinary, ParsePrimary, ParseUnary, Expr.Fresh;
    assert [OPEN, CLOSE] + rest == [OPEN] + ([CLOSE] + rest);
    HeadRest(OPEN, [CLOSE] + rest);
    HeadRest(CLOSE, rest);
  }

  lemma UnaryStep(op: UnaryOperation, x: Expr, ts: seq<Token>, rest: seq<Token>)
    requires Parse(UNARY, ts) == Parsed(x, rest)
    ensures Parse(UNARY, [UnaryToken(op)] + ts) == Parsed(Unary(op, x, Unresolved), rest)
  {
    hide UnaryAt, UnaryToken, ParseBinary, ParsePrimary, ParsePostfix, Expr.Fresh;
    UnaryInverse(op);
    HeadRest(UnaryToken(op), ts);
  }

  /** One operator at a level that takes at most one. */
  lemma OperatorStep(level: nat, l: Expr, op: BinaryOperation, ts: seq<Token>, right: seq<Token>, r: Expr,
                     rest: seq<Token>)
    requires level == BinaryLevel(op) && !Chains(level)
    requires Parse(level + 1, ts) == Parsed(l, [BinaryToken(op)] + right) && Parse(level + 1, right) == Parsed(r, rest)
    ensures Parse(level, ts) == Parsed(Binary(op, l, r, Unresolved), rest)
  {
    hide OperatorAt, BinaryToken, BinaryLevel, Expr.Fresh, ParsePrimary, ParsePostfix, ParseUnary;
    OperatorInverse(op);
    HeadRest(BinaryToken(op), right);
    assert Parse(level, ts) == ParseBinary(level, ts);
    assert ParseBinary(level, ts) == ParseOperator(level, l, [BinaryToken(op)] + right);
  }

  /** One more operator of a chain. */
  lemma ChainStep(level: nat, l: Expr, op: BinaryOperation, right: seq<Token>, r: Expr, rest: seq<Token>)
    requires level == BinaryLevel(op) && l.Fresh() && Parse(level + 1, right) == Parsed(r, rest)
    ensures r.Fresh()
    ensures Binary(op, l, r, Unresolved).Fresh()
    ensures ParseChain(level, l, [BinaryToken(op)] + right) == ParseChain(level, Binary(op, l, r, Unresolved), rest)
  {
    hide OperatorAt, BinaryToken, BinaryLevel, Parse;
    OperatorInverse(op);
    HeadRest(BinaryToken(op), right);
  }

  lemma ChainEnd(level: nat, e: Expr, rest: seq<Token>)
    requires level < UNARY && e.Fresh() && Quiet(level, rest)
    ensures ParseChain(level, e, rest) == Parsed(e, rest)
  {
    hide OperatorAt, Parse, Expr.Fresh;
  }

  lemma ChainStart(level: nat, e: Expr, ts: seq<Token>, rest: seq<Token>)
    requires Chains(level) && Parse(level + 1, ts) == Parsed(e, rest)
    ensures e.Fresh() && Parse(level, ts) == ParseChain(level, e, rest)
  {
    hide OperatorAt, Expr.Fresh, ParsePrimary, ParsePostfix, ParseUnary, ParseChain;
  }

  lemma {:induction false} OperatorNode(w: Written, rest: seq<Token>)
    requires w.Proper() && w.BinaryNode? && !Chains(w.Level()) && Stops(w.right, w.Level() + 1, rest)
    ensures Parse(w.Level(), w.Flat() + rest) == Parsed(w.Value(), rest)
    decreases w, 1
  {
    hide Parse, Quiet, Stops, BinaryLevel, BinaryToken, LeftLevel, Chains;
    var level := w.Level();
    var right := w.right.Flat() + rest;
    LeftLevelIs(w.op);
    NodeFlat(w, rest);
    StopsAtOperator(w.left, level + 1, w.op, right);
    Complete(w.left, level + 1, [BinaryToken(w.op)] + right);
    Complete(w.right, level + 1, rest);
    OperatorStep(level, w.left.Value(), w.op, w.Flat() + rest, right, w.right.Value(), rest);
  }

  lemma NodeFlat(w: Written, rest: seq<Token>)
    requires w.BinaryNode?
    ensures w.Flat() + rest == w.left.Flat() + ([BinaryToken(w.op)] + (w.right.Flat() + rest))
  {
    hide BinaryToken;
  }

  lemma ChainLevels(level: nat)
    ensures Chains(level) <==> level == 8 || level == 9
  {
  }

  lemma {:induction false} ChainNode(w: Written, rest: seq<Token>)
    requires w.Proper() && w.BinaryNode? && Chains(w.Level()) && Stops(w.right, w.Level() + 1, rest)
    ensures Parse(w.Level(), w.Flat() + rest) == ParseChain(w.Level(), w.Value(), rest)
    decreases w, 1
  {
    hide Parse, Quiet, Stops, BinaryLevel, BinaryToken, LeftLevel, Chains, ParseChain;
    ChainLevels(w.Level());
    var level := w.Level();
    var right := w.right.Flat() + rest;
    LeftLevelIs(w.op);
    NodeFlat(w, rest);
    ChainContinues(w.left, level, w.op, right);
    ChainOperand(w.left, level, [BinaryToken(w.op)] + right);
    Complete(w.right, level + 1, rest);
    ChainStep(level, w.left.Value(), w.op, right, w.right.Value(), rest);
  }

  lemma ChainContinues(w: Written, level: nat, op: BinaryOperation, more: seq<Token>)
    requires w.Proper() && level <= w.Level() && BinaryLevel(op) == level
    ensures StopsBelow(w, level, [BinaryToken(op)] + more)
  {
    hide BinaryToken, Stops;
    if level == w.Level() {
      StopsAtOperator(w.right, level + 1, op, more);
    } else {
      StopsAtOperator(w, level + 1, op, more);
    }
  }

  /** A left operand of a chain: after it, the chain goes on. */
  lemma {:induction false} ChainOperand(w: Written, level: nat, rest: seq<Token>)
    requires w.Proper() && (level == 8 || level == 9) && level <= w.Level() && StopsBelow(w, level, rest)
    ensures Parse(level, w.Flat() + rest) == ParseChain(level, w.Value(), rest)
    decreases w, 31
  {
    hide Parse, Stops, ParseChain;
    if level == w.Level() {
      ChainNode(w, rest);
    } else {
      Complete(w, level + 1, rest);
      ChainStart(level, w.Value(), w.Flat() + rest, rest);
    }
  }

  /** Exactly what the parser accepts at a level, and what it makes of it: the value of a properly written tree,
      from tokens that begin with that tree and go on with others where it stops. */
  lemma ParsesIff(level: nat, ts: seq<Token>, e: Expr, rest: seq<Token>)
    requires level <= PRIMARY && Canonical(ts)
    ensures Parse(level, ts) == Parsed(e, rest) <==> exists w :: Reads(w, level, ts, e, rest)
  {
    hide Parse, Canonical, Stops;
    if Parse(level, ts) == Parsed(e, rest) {
      var w := Sound(level, ts);
    }
    forall w | Reads(w, level, ts, e, rest)
      ensures Parse(level, ts) == Parsed(e, rest)
    {
      Complete(w, level, rest);
    }
  }

  /** A level that does not chain takes one operator and leaves a second one alone. */
  lemma SecondOperatorStays(w: Written, op: BinaryOperation, more: seq<Token>)
    requires w.Proper() && w.BinaryNode? && !Repeats(w.op) && BinaryLevel(op) == w.Level()
    ensures Parse(w.Level(), w.Flat() + ([BinaryToken(op)] + more)) == Parsed(w.Value(), [BinaryToken(op)] + more)
  {
    hide Parse, BinaryToken;
    LeftLevelIs(w.op);
    StopsAtOperator(w.right, w.Level() + 1, op, more);
    OperatorNode(w, [BinaryToken(op)] + more);
  }

  // ---- minimal parentheses -----------------------------------------------------------------

  /** A tree, written with parentheses only where it is looser than its place. */
  function Minimal(e: Expr, level: nat): (w: Written)
    requires e.Fresh() && level <= PRIMARY
    ensures level <= w.Level()
    decreases e, 1
  {
    var bare := Bare(e);
    if bare.Level() < level then Paren(bare) else bare
  }

  function Bare(e: Expr): (w: Written)
    requires e.Fresh()
    ensures !w.Paren?
    decreases e, 0
  {
    match e
    case IntegerLiteral(raw, annotation) => Leaf(Token(INT_LITERAL, Decimal(raw) + TypeName(annotation)))
    case BooleanLiteral(b) => Leaf(Token(if b then KEYWORD_TRUE else KEYWORD_FALSE, ""))
    case Identifier(name, _, _) => Leaf(Token(IDENT, name))
    case Binary(op, l, r, _) => BinaryNode(op, Minimal(l, LeftLevel(op)), Minimal(r, BinaryLevel(op) + 1))
    case Unary(op, x, _) => UnaryNode(op, Minimal(x, UNARY))
    case Call(callee, _) => CallNode(Minimal(callee, PRIMARY))
  }

  function Render(e: Expr, level: nat): seq<Token>
    requires e.Fresh() && level <= PRIMARY
  {
    Minimal(e, level).Flat()
  }

  /** Every tree as the parser builds it can be written at every level, and means itself. */
  lemma {:induction false} MinimalMeans(e: Expr, level: nat)
    requires e.Fresh() && level <= PRIMARY
    ensures Minimal(e, level).Proper() && Minimal(e, level).Value() == e
    decreases e, 1
  {
    BareMeans(e);
  }

  lemma {:induction false} BareMeans(e: Expr)
    requires e.Fresh()
    ensures Bare(e).Proper() && Bare(e).Value() == e
    decreases e, 0
  {
    hide Minimal, Decimal, TypeName, ParseInteger, BinaryLevel;
    match e
    case IntegerLiteral(raw, annotation) =>
      SmallBaseNumeric(raw, 10);
      IntegerRoundTrip(raw, 10, annotation);
      DecimalIs(raw, annotation);
    case BooleanLiteral(_) =>
    case Identifier(_, _, _) =>
    case Binary(op, l, r, _) =>
      MinimalMeans(l, LeftLevel(op));
      MinimalMeans(r, BinaryLevel(op) + 1);
    case Unary(_, x, _) => MinimalMeans(x, UNARY);
    case Call(callee, _) => MinimalMeans(callee, PRIMARY);
  }

  lemma DecimalIs(raw: nat, t: FrontendType)
    ensures Prefix(10) + Digits(raw, 10) + TypeName(t) == Decimal(raw) + TypeName(t)
  {
  }

  /** Nothing in these tokens goes on with a tree at this level or a tighter one. */
  predicate Follows(level: nat, rest: seq<Token>) {
    forall k: nat :: level <= k <= PRIMARY ==> Quiet(k, rest)
  }

  lemma {:induction false} StopsWhereQuiet(w: Written, level: nat, rest: seq<Token>)
    requires w.Proper() && level <= w.Level() && Follows(level, rest)
    ensures Stops(w, level, rest)
    decreases w, w.Level() - level
  {
    hide Quiet, BinaryLevel;
    if level < w.Level() {
      StopsWhereQuiet(w, level + 1, rest);
    } else if w.BinaryNode? {
      StopsWhereQuiet(w.right, level + 1, rest);
    } else if w.UnaryNode? {
      StopsWhereQuiet(w.operand, UNARY, rest);
    }
  }

  /** Rendering and parsing: at any level, a tree as the parser builds it comes back, and what follows it is
      left alone. */
  lemma RoundTrip(e: Expr, level: nat, rest: seq<Token>)
    requires e.Fresh() && level <= PRIMARY && Follows(level, rest)
    ensures Parse(level, Render(e, level) + rest) == Parsed(e, rest)
  {
    hide Parse, Follows, Minimal, Stops;
    MinimalMeans(e, level);
    StopsWhereQuiet(Minimal(e, level), level, rest);
    Complete(Minimal(e, level), level, rest);
  }
}
