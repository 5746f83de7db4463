/** The expression parser: a chain of precedence levels, loosest first. The functions say what is parsed
    from a sequence of tokens; the methods consume it from a lexer. */
module Parsing {
  import opened Words
  import opened Results
  import opened FrontendTypes
  import opened Ast
  import opened Tokens
  import opened Lexing

  // ---- levels ------------------------------------------------------------------------------

  const ADDITIVE: nat := 8
  const MULTIPLICATIVE: nat := 9
  const UNARY: nat := 10
  const POSTFIX: nat := 11
  const PRIMARY: nat := 12

  /** The operators of the ten binary levels: logical or, logical and, equality, comparison, bitwise or,
      xor, and, shifts, additive, multiplicative. */
  function OperatorAt(level: nat, kind: TokenType): Option<BinaryOperation> {
    match (level, kind)
    case (0, OR_OR) => Some(LogicalOr)
    case (1, AND_AND) => Some(LogicalAnd)
    case (2, EQUAL_EQUAL) => Some(Equal)
    case (2, EXCLAMATION_EQUAL) => Some(NotEqual)
    case (3, LESS) => Some(LessThan)
    case (3, LESS_EQUAL) => Some(LessThanOrEqual)
    case (3, GREATER) => Some(GreaterThan)
    case (3, GREATER_EQUAL) => Some(GreaterThanOrEqual)
    case (4, OR) => Some(BitwiseOr)
    case (5, CARET) => Some(BitwiseXor)
    case (6, AND) => Some(BitwiseAnd)
    case (7, LESS_LESS) => Some(BinaryOperation.ShiftLeft)
    case (7, GREATER_GREATER) => Some(BinaryOperation.ShiftRight)
    case (8, PLUS) => Some(Add)
    case (8, MINUS) => Some(Subtract)
    case (9, ASTERISK) => Some(Multiply)
    case (9, FORWARD_SLASH) => Some(Divide)
    case (9, PERCENT) => Some(Modulus)
    case _ => None
  }

  /** Only these two levels take more than one operator. */
  predicate Chains(level: nat) { level == ADDITIVE || level == MULTIPLICATIVE }

  function UnaryAt(kind: TokenType): Option<UnaryOperation> {
    match kind
    case EXCLAMATION => Some(LogicalNot)
    case TILDE => Some(BitwiseNot)
    case MINUS => Some(Negation)
    case _ => None
  }

  // ---- integer literals --------------------------------------------------------------------

  function NumericLength(s: string): (n: nat)
    ensures n <= |s|
  {
    if s != "" && IsNumeric(s[0]) then 1 + NumericLength(s[1..]) else 0
  }

  function DigitOf(c: char): nat
    requires IsNumeric(c)
  {
    c as int - '0' as int
  }

  /** The number of leading digits that are valid in a base. */
  function ValidLength(s: string, base: nat): (n: nat)
    ensures n <= |s| && forall i :: 0 <= i < n ==> IsNumeric(s[i])
  {
    if s != "" && IsNumeric(s[0]) && DigitOf(s[0]) < base then 1 + ValidLength(s[1..], base) else 0
  }

  function ValueOf(s: string, base: nat): nat
    requires forall i :: 0 <= i < |s| ==> IsNumeric(s[i])
  {
    if s == "" then 0 else base * ValueOf(s[..|s| - 1], base) + DigitOf(s[|s| - 1])
  }

  /** std::stoll: the longest valid prefix, an exception if it is empty or too large. */
  function Stoll(s: string, base: nat): Result<nat> {
    var n := ValidLength(s, base);
    if n == 0 || ValueOf(s[..n], base) > 0x7FFF_FFFF_FFFF_FFFF then Err(UncaughtError)
    else Ok(ValueOf(s[..n], base))
  }

  function BaseOf(s: string): nat {
    if |s| < 2 || s[0] != '0' then 10
    else if s[1] == 'b' then 2
    else if s[1] == 'o' then 8
    else if s[1] == 'x' then 16
    else 10
  }

  /** The value and the type annotation of a literal. Digits are decimal ones in every base. */
  function ParseInteger(s: string): (r: Result<(Word, FrontendType)>)
    ensures r.Ok? ==> r.value.1.IsInteger() && !r.value.1.UnresolvedInt?
  {
    if s == "" then Err(InternalError)
    else
      var base := BaseOf(s);
      var digits := if base == 10 then s else s[2..];
      var n := NumericLength(digits);
      var t := FromString(digits[n..]);
      if !t.IsInteger() then Err(TypeError)
      else
        var v :- Stoll(digits[..n], base);
        Ok((ToWord(v), t))
  }

  // ---- expressions -------------------------------------------------------------------------

  datatype Outcome = NoMatch | Failed(error: Error) | Parsed(e: Expr, rest: seq<Token>)

  /** The next token never comes. */
  predicate Stuck(ts: seq<Token>) { Head(ts) == STUCK }

  /** What parsing consumes and produces. */
  predicate Progresses(ts: seq<Token>, r: Outcome) {
    r.Parsed? ==> |r.rest| < |ts| && r.e.Fresh()
  }

  function Parse(level: nat, ts: seq<Token>): (r: Outcome)
    requires level <= PRIMARY
    ensures Progresses(ts, r)
    decreases |ts|, PRIMARY - level, 1
  {
    if level == PRIMARY then ParsePrimary(ts)
    else if level == POSTFIX then ParsePostfix(ts)
    else if level == UNARY then ParseUnary(ts)
    else ParseBinary(level, ts)
  }

  function ParseBinary(level: nat, ts: seq<Token>): (r: Outcome)
    requires level < UNARY
    ensures Progresses(ts, r)
    decreases |ts|, PRIMARY - level, 0
  {
    match Parse(level + 1, ts)
    case NoMatch => NoMatch
    case Failed(error) => Failed(error)
    case Parsed(l, rest) => if Chains(level) then ParseChain(level, l, rest) else ParseOperator(level, l, rest)
  }

  /** At most one operator. */
  function ParseOperator(level: nat, l: Expr, ts: seq<Token>): (r: Outcome)
    requires level < UNARY && l.Fresh()
    ensures !r.NoMatch? && (r.Parsed? ==> |r.rest| <= |ts| && r.e.Fresh())
    decreases |ts|, PRIMARY - level, 2
  {
    var op := OperatorAt(level, Head(ts).kind);
    if Stuck(ts) then Failed(Divergence)
    else if op.None? then Parsed(l, ts)
    else
      match Parse(level + 1, Rest(ts))
      case NoMatch => Failed(SyntaxError)
      case Failed(error) => Failed(error)
      case Parsed(r, rest) => Parsed(Binary(op.value, l, r, Unresolved), rest)
  }

  /** Any number of operators, to the left. */
  function ParseChain(level: nat, l: Expr, ts: seq<Token>): (r: Outcome)
    requires level < UNARY && l.Fresh()
    ensures !r.NoMatch? && (r.Parsed? ==> |r.rest| <= |ts| && r.e.Fresh())
    decreases |ts|, PRIMARY - level, 2
  {
    var op := OperatorAt(level, Head(ts).kind);
    if Stuck(ts) then Failed(Divergence)
    else if op.None? then Parsed(l, ts)
    else
      match Parse(level + 1, Rest(ts))
      case NoMatch => Failed(SyntaxError)
      case Failed(error) => Failed(error)
      case Parsed(r, rest) => ParseChain(level, Binary(op.value, l, r, Unresolved), rest)
  }

  function ParseUnary(ts: seq<Token>): (r: Outcome)
    ensures Progresses(ts, r)
    decreases |ts|, PRIMARY - UNARY, 0
  {
    var op := UnaryAt(Head(ts).kind);
    if Stuck(ts) then Failed(Divergence)
    else if op.None? then Parse(POSTFIX, ts)
    else
      match Parse(UNARY, Rest(ts))
      case NoMatch => Failed(SyntaxError)
      case Failed(error) => Failed(error)
      case Parsed(x, rest) => Parsed(Unary(op.value, x, Unresolved), rest)
  }

  function ParsePostfix(ts: seq<Token>): (r: Outcome)
    ensures Progresses(ts, r)
    decreases |ts|, PRIMARY - POSTFIX, 0
  {
    match Parse(PRIMARY, ts)
    case NoMatch => NoMatch
    case Failed(error) => Failed(error)
    case Parsed(subject, rest) =>
      if Stuck(rest) then Failed(Divergence)
      else if Head(rest).kind != L_PAREN then Parsed(subject, rest)
      else if Stuck(Rest(rest)) then Failed(Divergence)
      else if Head(Rest(rest)).kind != R_PAREN then Failed(SyntaxError)
      else Parsed(Call(subject, Unresolved), Rest(Rest(rest)))
  }

  function ParsePrimary(ts: seq<Token>): (r: Outcome)
    ensures Progresses(ts, r)
    decreases |ts|, 0, 0
  {
    match Head(ts).kind
    case IDENT => Parsed(Identifier(Head(ts).str, None, Unresolved), Rest(ts))
    case KEYWORD_FALSE => Parsed(BooleanLiteral(false), Rest(ts))
    case KEYWORD_TRUE => Parsed(BooleanLiteral(true), Rest(ts))
    case INT_LITERAL =>
      var literal := ParseInteger(Head(ts).str);
      if literal.Err? then Failed(literal.error)
      else Parsed(IntegerLiteral(literal.value.0, literal.value.1), Rest(ts))
    case L_PAREN =>
      (match Parse(0, Rest(ts))
       case NoMatch => Failed(SyntaxError)
       case Failed(error) => Failed(error)
       case Parsed(e, rest) =>
         if Stuck(rest) then Failed(Divergence)
         else if Head(rest).kind == R_PAREN then Parsed(e, Rest(rest))
         else Failed(SyntaxError))
    case _ => if Stuck(ts) then Failed(Divergence) else NoMatch
  }

  // ---- the parser as it works --------------------------------------------------------------

  /** Parses at a level, or consumes nothing if nothing matches. Here and below, the only demand is that parsing
      does not run into a comment that is never left. */
  method TryParse(lexer: Lexer, level: nat) returns (r: Result<Option<Expr>>)
    requires level <= PRIMARY
    requires Parse(level, lexer.Pending()) != Failed(Divergence)
    modifies lexer
    ensures Agrees(lexer.Pending(), r, Parse(level, old(lexer.Pending())), old(lexer.Pending()))
    decreases |lexer.Pending()|, PRIMARY - level, 1
  {
    hide Lexer.Pending;
    if level == PRIMARY {
      r := TryParsePrimary(lexer);
    } else if level == POSTFIX {
      r := TryParsePostfix(lexer);
    } else if level == UNARY {
      r := TryParseUnary(lexer);
    } else {
      r := TryParseBinary(lexer, level);
    }
  }

  /** The result and the tokens left agree with an outcome. */
  predicate Agrees(after: seq<Token>, r: Result<Option<Expr>>, outcome: Outcome, before: seq<Token>) {
    match outcome
    case NoMatch => r == Ok(None) && after == before
    case Failed(error) => r == Err(error)
    case Parsed(e, rest) => r == Ok(Some(e)) && after == rest
  }

  method TryParseBinary(lexer: Lexer, level: nat) returns (r: Result<Option<Expr>>)
    requires level < UNARY
    requires ParseBinary(level, lexer.Pending()) != Failed(Divergence)
    modifies lexer
    ensures Agrees(lexer.Pending(), r, ParseBinary(level, old(lexer.Pending())), old(lexer.Pending()))
    decreases |lexer.Pending()|, PRIMARY - level, 0
  {
    hide Lexer.Pending, Parse, OperatorAt;
    r := TryParse(lexer, level + 1);
    if r.Err? || r.value.None? { return; }
    if Chains(level) {
      r := ParseMore(lexer, level, r.value.value);
      return;
    }
    var left := r.value.value;
    var token := lexer.Peek();
    var op := OperatorAt(level, token.kind);
    if op.None? { return; }
    EndIsNoOperator();
    token := lexer.Take();
    r := TryParse(lexer, level + 1);
    if r.Err? { return; }
    if r.value.None? { return Err(SyntaxError); }
    r := Ok(Some(Expr.Binary(op.value, left, r.value.value, FrontendType.Unresolved)));
  }

  /** The loop of the two levels that chain. */
  method ParseMore(lexer: Lexer, level: nat, left: Expr) returns (r: Result<Option<Expr>>)
    requires level < UNARY && left.Fresh()
    requires ParseChain(level, left, lexer.Pending()) != Failed(Divergence)
    modifies lexer
    ensures Agrees(lexer.Pending(), r, ParseChain(level, left, old(lexer.Pending())), old(lexer.Pending()))
    decreases |lexer.Pending()|, PRIMARY - level, 0
  {
    hide Lexer.Pending, Parse, OperatorAt, Expr.Fresh;
    EndIsNoOperator();
    var tree := left;
    while true
      invariant tree.Fresh()
      invariant |lexer.Pending()| <= |old(lexer.Pending())|
      invariant ParseChain(level, left, old(lexer.Pending())) == ParseChain(level, tree, lexer.Pending())
      decreases |lexer.Pending()|
    {
      ghost var before := lexer.Pending();
      var token := lexer.Peek();
      var op := OperatorAt(level, token.kind);
      if op.None? { return Ok(Some(tree)); }
      token := lexer.Take();
      r := TryParse(lexer, level + 1);
      if r.Err? { return; }
      if r.value.None? { return Err(SyntaxError); }
      FreshBinary(op.value, tree, r.value.value);
      tree := Expr.Binary(op.value, tree, r.value.value, FrontendType.Unresolved);
    }
  }

  lemma FreshBinary(op: BinaryOperation, l: Expr, r: Expr)
    requires l.Fresh() && r.Fresh()
    ensures Expr.Binary(op, l, r, FrontendType.Unresolved).Fresh()
  {
  }

  lemma EndIsNoOperator()
    ensures forall level: nat :: OperatorAt(level, END_OF_FILE).None?
    ensures UnaryAt(END_OF_FILE).None?
  {
  }

  method TryParseUnary(lexer: Lexer) returns (r: Result<Option<Expr>>)
    requires ParseUnary(lexer.Pending()) != Failed(Divergence)
    modifies lexer
    ensures Agrees(lexer.Pending(), r, ParseUnary(old(lexer.Pending())), old(lexer.Pending()))
    decreases |lexer.Pending()|, PRIMARY - UNARY, 0
  {
    hide Lexer.Pending, Parse, UnaryAt;
    EndIsNoOperator();
    var token := lexer.Peek();
    var op := UnaryAt(token.kind);
    if op.None? {
      r := TryParse(lexer, POSTFIX);
      return;
    }
    token := lexer.Take();
    r := TryParse(lexer, UNARY);
    if r.Err? { return; }
    if r.value.None? { return Err(SyntaxError); }
    r := Ok(Some(Expr.Unary(op.value, r.value.value, FrontendType.Unresolved)));
  }

  method TryParsePostfix(lexer: Lexer) returns (r: Result<Option<Expr>>)
    requires ParsePostfix(lexer.Pending()) != Failed(Divergence)
    modifies lexer
    ensures Agrees(lexer.Pending(), r, ParsePostfix(old(lexer.Pending())), old(lexer.Pending()))
    decreases |lexer.Pending()|, PRIMARY - POSTFIX, 0
  {
    hide Lexer.Pending, Parse;
    r := TryParse(lexer, PRIMARY);
    if r.Err? || r.value.None? { return; }
    var subject := r.value.value;
    var token := lexer.Peek();
    if token.kind != L_PAREN { return; }
    token := lexer.Take();
    var close := lexer.Expect(R_PAREN);
    if close.Err? { return Err(close.error); }
    r := Ok(Some(Expr.Call(subject, FrontendType.Unresolved)));
  }

  method TryParsePrimary(lexer: Lexer) returns (r: Result<Option<Expr>>)
    requires ParsePrimary(lexer.Pending()) != Failed(Divergence)
    modifies lexer
    ensures Agrees(lexer.Pending(), r, ParsePrimary(old(lexer.Pending())), old(lexer.Pending()))
    decreases |lexer.Pending()|, 0, 0
  {
    hide Lexer.Pending, Parse, ParseInteger;
    var token := lexer.Peek();
    if token.kind == IDENT {
      token := lexer.Take();
      return Ok(Some(Expr.Identifier(token.str, None, FrontendType.Unresolved)));
    }
    if token.kind == KEYWORD_FALSE || token.kind == KEYWORD_TRUE {
      token := lexer.Take();
      return Ok(Some(Expr.BooleanLiteral(token.kind == KEYWORD_TRUE)));
    }
    if token.kind == INT_LITERAL {
      token := lexer.Take();
      var literal :- ParseInteger(token.str);
      return Ok(Some(Expr.IntegerLiteral(literal.0, literal.1)));
    }
    if token.kind == L_PAREN {
      token := lexer.Take();
      r := TryParse(lexer, 0);
      if r.Err? { return; }
      if r.value.None? { return Err(SyntaxError); }
      var close := lexer.Expect(R_PAREN);
      if close.Err? { return Err(close.error); }
      return;
    }
    r := Ok(None);
  }

  // ---- where nothing matches ---------------------------------------------------------------

  /** The tokens that an expression of a level begins with. */
  predicate Begins(level: nat, kind: TokenType) {
    kind in {IDENT, INT_LITERAL, KEYWORD_TRUE, KEYWORD_FALSE, L_PAREN} ||
    (level <= 10 && kind in {EXCLAMATION, TILDE, MINUS})
  }

  /** Nothing matches, and nothing is consumed, exactly where no expression begins. Whatever begins like one and
      is none is an error. */
  lemma {:induction false} NoMatchIff(level: nat, ts: seq<Token>)
    requires level <= PRIMARY
    ensures Parse(level, ts).NoMatch? <==> !Stuck(ts) && !Begins(level, Head(ts).kind)
    decreases PRIMARY - level
  {
    hide ParseChain, ParseOperator, ParseInteger;
    if level == PRIMARY {
    } else {
      NoMatchIff(level + 1, ts);
    }
  }

  // ---- coming back, and how parsing fails --------------------------------------------------

  predicate Within(some: seq<Token>, all: seq<Token>) { forall t :: t in some ==> t in all }

  /** An error has its reason in the tokens: a literal with that error, or else the syntax. */
  predicate Explained(error: Error, ts: seq<Token>) {
    error == SyntaxError || exists t :: t in ts && t.kind == INT_LITERAL && ParseInteger(t.str) == Err(error)
  }

  /** Parsing comes back, with what is left of the tokens or with an error that they explain. */
  predicate ComesBack(ts: seq<Token>, r: Outcome) {
    r != Failed(Divergence) && (r.Failed? ==> Explained(r.error, ts)) && (r.Parsed? ==> Within(r.rest, ts))
  }

  lemma NotStuck(ts: seq<Token>)
    requires STUCK !in ts
    ensures !Stuck(ts) && STUCK !in Rest(ts) && Within(Rest(ts), ts)
  {
    if ts != [] { assert ts[0] in ts; }
  }

  lemma ExplainedWithin(error: Error, some: seq<Token>, all: seq<Token>)
    requires Explained(error, some) && Within(some, all)
    ensures Explained(error, all)
  {
    hide ParseInteger;
  }

  lemma BackWithin(some: seq<Token>, all: seq<Token>, r: Outcome)
    requires ComesBack(some, r) && Within(some, all)
    ensures ComesBack(all, r)
  {
    hide Explained;
    if r.Failed? { ExplainedWithin(r.error, some, all); }
  }

  /** Tokens without the mark of a comment that is never left never keep the parser; and it fails with a syntax
      error, or with the error of one of the literals. */
  lemma {:induction false} ParseComesBack(level: nat, ts: seq<Token>)
    requires level <= PRIMARY && STUCK !in ts
    ensures ComesBack(ts, Parse(level, ts))
    decreases |ts|, PRIMARY - level, 1
  {
    hide OperatorAt, UnaryAt, ParseInteger, Expr.Fresh, Explained;
    NotStuck(ts);
    if level == PRIMARY {
      PrimaryComesBack(ts);
    } else if level == POSTFIX {
      PostfixComesBack(ts);
    } else if level == UNARY {
      UnaryComesBack(ts);
    } else {
      BinaryComesBack(level, ts);
    }
  }

  lemma {:induction false} PrimaryComesBack(ts: seq<Token>)
    requires STUCK !in ts
    ensures ComesBack(ts, ParsePrimary(ts))
    decreases |ts|, 0, 0
  {
    hide Parse, Expr.Fresh, ParseInteger, Stuck;
    NotStuck(ts);
    IntegerComesBack(Head(ts).str);
    if ts != [] { assert Head(ts) in ts; }
    if Head(ts).kind == L_PAREN {
      ParseComesBack(0, Rest(ts));
      BackWithin(Rest(ts), ts, Parse(0, Rest(ts)));
      if Parse(0, Rest(ts)).Parsed? { NotStuck(Parse(0, Rest(ts)).rest); }
    }
  }

  lemma IntegerComesBack(s: string)
    ensures ParseInteger(s) != Err(Divergence)
  {
    hide NumericLength, ValidLength, ValueOf, FromString, BaseOf;
  }

  lemma {:induction false} PostfixComesBack(ts: seq<Token>)
    requires STUCK !in ts
    ensures ComesBack(ts, ParsePostfix(ts))
    decreases |ts|, PRIMARY - POSTFIX, 0
  {
    hide Parse, Expr.Fresh, Stuck, ParseInteger;
    ParseComesBack(PRIMARY, ts);
    if Parse(PRIMARY, ts).Parsed? {
      NotStuck(Parse(PRIMARY, ts).rest);
      NotStuck(Rest(Parse(PRIMARY, ts).rest));
    }
  }

  lemma {:induction false} UnaryComesBack(ts: seq<Token>)
    requires STUCK !in ts
    ensures ComesBack(ts, ParseUnary(ts))
    decreases |ts|, PRIMARY - UNARY, 0
  {
    hide Parse, Expr.Fresh, Stuck, UnaryAt, ParseInteger;
    NotStuck(ts);
    if UnaryAt(Head(ts).kind).None? {
      ParseComesBack(POSTFIX, ts);
    } else {
      EndIsNoOperator();
      ParseComesBack(UNARY, Rest(ts));
      BackWithin(Rest(ts), ts, Parse(UNARY, Rest(ts)));
    }
  }

  lemma {:induction false} BinaryComesBack(level: nat, ts: seq<Token>)
    requires level < UNARY && STUCK !in ts
    ensures ComesBack(ts, ParseBinary(level, ts))
    decreases |ts|, PRIMARY - level, 0
  {
    hide Parse, ParseChain, ParseOperator, Expr.Fresh, Explained;
    ParseComesBack(level + 1, ts);
    if Parse(level + 1, ts).Parsed? {
      var (l, rest) := (Parse(level + 1, ts).e, Parse(level + 1, ts).rest);
      MoreComesBack(level, l, rest);
      BackWithin(rest, ts, ParseChain(level, l, rest));
      BackWithin(rest, ts, ParseOperator(level, l, rest));
    }
  }

  lemma {:induction false} MoreComesBack(level: nat, l: Expr, ts: seq<Token>)
    requires level < UNARY && l.Fresh() && STUCK !in ts
    ensures ComesBack(ts, ParseChain(level, l, ts)) && ComesBack(ts, ParseOperator(level, l, ts))
    decreases |ts|, PRIMARY - level, 2
  {
    hide Parse, Stuck, OperatorAt, Expr.Fresh, ParseInteger;
    NotStuck(ts);
    EndIsNoOperator();
    var op := OperatorAt(level, Head(ts).kind);
    if op.Some? {
      ParseComesBack(level + 1, Rest(ts));
      var r := Parse(level + 1, Rest(ts));
      BackWithin(Rest(ts), ts, r);
      if r.Parsed? {
        FreshBinary(op.value, l, r.e);
        var tree := Expr.Binary(op.value, l, r.e, FrontendType.Unresolved);
        MoreComesBack(level, tree, r.rest);
        BackWithin(r.rest, ts, ParseChain(level, tree, r.rest));
      }
    }
  }
}
