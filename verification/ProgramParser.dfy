/** Functions and whole programs: from tokens to definitions. */
module ProgramParsing {
  import opened Results
  import opened FrontendTypes
  import opened Ast
  import opened Tokens
  import opened Lexing
  import opened Parsing

  /** The tokens after one of this kind. */
  function Expect(kind: TokenType, ts: seq<Token>): Result<seq<Token>> {
    if Stuck(ts) then Err(Divergence)
    else if Head(ts).kind == kind then Ok(Rest(ts))
    else Err(SyntaxError)
  }

  /** A return statement, at its keyword. */
  function ParseReturn(ts: seq<Token>): (r: Result<(Option<Expr>, seq<Token>)>)
    requires Head(ts).kind == KEYWORD_RETURN
    ensures r.Ok? ==> |r.value.1| < |ts| && (r.value.0.Some? ==> r.value.0.value.Fresh())
  {
    var after := Rest(ts);
    if Stuck(after) then Err(Divergence)
    else if Head(after).kind == SEMICOLON then Ok((None, Rest(after)))
    else
      match Parse(0, after)
      case NoMatch => Err(SyntaxError)
      case Failed(error) => Err(error)
      case Parsed(e, rest) =>
        var rest' :- Expect(SEMICOLON, rest);
        Ok((Some(e), rest'))
  }

  /** Statements, as long as they begin with the keyword. */
  function ParseStatements(ts: seq<Token>): (r: Result<(seq<Option<Expr>>, seq<Token>)>)
    ensures r.Ok? ==> |r.value.1| <= |ts|
    ensures r.Ok? ==> forall i :: 0 <= i < |r.value.0| && r.value.0[i].Some? ==> r.value.0[i].value.Fresh()
    decreases |ts|
  {
    if Stuck(ts) then Err(Divergence)
    else if Head(ts).kind != KEYWORD_RETURN then Ok(([], ts))
    else
      var (s, rest) :- ParseReturn(ts);
      var (more, rest') :- ParseStatements(rest);
      Ok(([s] + more, rest'))
  }

  /** The parameter list. The lexer has no colon, so no parameter is ever complete; a list without
      parameters need not be closed. */
  function ParseParameters(ts: seq<Token>): (r: Result<seq<Token>>)
    ensures r.Ok? ==> |r.value| <= |ts|
  {
    if Stuck(ts) then Err(Divergence)
    else if Head(ts).kind == IDENT then
      if Stuck(Rest(ts)) then Err(Divergence)
      else if Head(Rest(ts)).kind == COLON then Err(Unimplemented) else Err(SyntaxError)
    else if Head(ts).kind == R_PAREN then Ok(Rest(ts))
    else Ok(ts)
  }

  function ParseReturnType(ts: seq<Token>): (r: Result<(FrontendType, seq<Token>)>)
    ensures r.Ok? ==> |r.value.1| <= |ts|
  {
    if Stuck(ts) then Err(Divergence)
    else if Head(ts).kind != THIN_ARROW then Ok((FrontendType.Void, ts))
    else
      var rest :- Expect(IDENT, Rest(ts));
      Ok((FromString(Head(Rest(ts)).str), rest))
  }

  function ParseTail(ts: seq<Token>): (r: Result<(Option<Expr>, seq<Token>)>)
    ensures r.Ok? ==> |r.value.1| <= |ts| && (r.value.0.Some? ==> r.value.0.value.Fresh())
  {
    match Parse(0, ts)
    case NoMatch => Ok((None, ts))
    case Failed(error) => Err(error)
    case Parsed(e, rest) => Ok((Some(e), rest))
  }

  /** A function up to its body: name and return type. */
  function ParseSignature(ts: seq<Token>): (r: Result<(string, FrontendType, seq<Token>)>)
    requires Head(ts).kind == KEYWORD_FN
    ensures r.Ok? ==> |r.value.2| < |ts|
  {
    var named :- Expect(IDENT, Rest(ts));
    var unclosed :- Expect(L_PAREN, named);
    var closed :- ParseParameters(unclosed);
    var (returnType, typed) :- ParseReturnType(closed);
    var begun :- Expect(L_CURLY_BRACKET, typed);
    Ok((Head(Rest(ts)).str, returnType, begun))
  }

  /** A body after its opening bracket. */
  function ParseBody(ts: seq<Token>): (r: Result<(seq<Option<Expr>>, Option<Expr>, seq<Token>)>)
    ensures r.Ok? ==> |r.value.2| <= |ts|
    ensures r.Ok? ==> forall i :: 0 <= i < |r.value.0| && r.value.0[i].Some? ==> r.value.0[i].value.Fresh()
    ensures r.Ok? && r.value.1.Some? ==> r.value.1.value.Fresh()
  {
    var (statements, stated) :- ParseStatements(ts);
    var (tail, tailed) :- ParseTail(stated);
    var rest :- Expect(R_CURLY_BRACKET, tailed);
    Ok((statements, tail, rest))
  }

  /** A function definition, at its keyword. */
  function ParseFunction(ts: seq<Token>): (r: Result<(FunctionDefinition, seq<Token>)>)
    requires Head(ts).kind == KEYWORD_FN
    ensures r.Ok? ==> |r.value.1| < |ts|
    ensures r.Ok? ==> r.value.0.returnType.Unresolved? || r.value.0.Fresh()
  {
    var (name, returnType, begun) :- ParseSignature(ts);
    var (statements, tail, rest) :- ParseBody(begun);
    Ok((FunctionDefinition(name, returnType, statements, tail), rest))
  }

  /** All definitions; nothing may follow them. */
  function ParseProgram(ts: seq<Token>): Result<seq<FunctionDefinition>>
    decreases |ts|
  {
    if Stuck(ts) then Err(Divergence)
    else if Head(ts).kind != KEYWORD_FN then
      if Head(ts).kind == END_OF_FILE then Ok([]) else Err(SyntaxError)
    else
      var (f, rest) :- ParseFunction(ts);
      var more :- ParseProgram(rest);
      Ok([f] + more)
  }

  // ---- the parser as it works --------------------------------------------------------------

  /** A lexer whose pending tokens are ts. */
  ghost predicate At(lexer: Lexer, ts: seq<Token>)
    reads lexer
  {
    lexer.Pending() == ts
  }

  method TryParseReturnStmt(lexer: Lexer) returns (r: Result<Option<Option<Expr>>>)
    requires lexer.Ready() &&
             (Head(lexer.Pending()).kind == KEYWORD_RETURN ==> ParseReturn(lexer.Pending()) != Err(Divergence))
    modifies lexer
    ensures var ts := old(lexer.Pending());
            if Head(ts).kind != KEYWORD_RETURN then r == Ok(None) && At(lexer, ts)
            else match ParseReturn(ts)
                 case Ok((s, rest)) => r == Ok(Some(s)) && At(lexer, rest)
                 case Err(error) => r == Err(error)
  {
    hide Lexer.Pending, Parse;
    var token := lexer.Peek();
    if token.kind != KEYWORD_RETURN { return Ok(None); }
    token := lexer.Take();
    token := lexer.Peek();
    if token.kind == SEMICOLON {
      token := lexer.Take();
      return Ok(Some(None));
    }
    var e :- TryParse(lexer, 0);
    if e.None? { return Err(SyntaxError); }
    var end :- lexer.Expect(SEMICOLON);
    r := Ok(Some(e));
  }

  method ParseBodyStatements(lexer: Lexer) returns (r: Result<seq<Option<Expr>>>)
    requires ParseStatements(lexer.Pending()) != Err(Divergence)
    modifies lexer
    ensures match ParseStatements(old(lexer.Pending()))
            case Ok((ss, rest)) => r == Ok(ss) && At(lexer, rest)
            case Err(error) => r == Err(error)
  {
    hide Lexer.Pending, ParseReturn;
    var statements: seq<Option<Expr>> := [];
    AfterNothing(ParseStatements(lexer.Pending()));
    while true
      invariant ParseStatements(old(lexer.Pending())) == After(statements, ParseStatements(lexer.Pending()))
      decreases |lexer.Pending()|
    {
      ghost var before := lexer.Pending();
      var s := TryParseReturnStmt(lexer);
      if s.Err? { return Err(s.error); }
      if s.value.None? {
        AfterEnd(statements, before);
        return Ok(statements);
      }
      AfterStep(statements, before);
      statements := statements + [s.value.value];
    }
  }

  /** A result with what was parsed before it. */
  function After(done: seq<Option<Expr>>, r: Result<(seq<Option<Expr>>, seq<Token>)>)
    : Result<(seq<Option<Expr>>, seq<Token>)>
  {
    if r.Err? then r else Ok((done + r.value.0, r.value.1))
  }

  lemma AfterNothing(r: Result<(seq<Option<Expr>>, seq<Token>)>)
    ensures After([], r) == r
  {
    if r.Ok? { assert [] + r.value.0 == r.value.0; }
  }

  lemma AfterEnd(done: seq<Option<Expr>>, ts: seq<Token>)
    requires Head(ts).kind != KEYWORD_RETURN && !Stuck(ts)
    ensures After(done, ParseStatements(ts)) == Ok((done, ts))
  {
    assert done + [] == done;
  }

  lemma AfterStep(done: seq<Option<Expr>>, ts: seq<Token>)
    requires Head(ts).kind == KEYWORD_RETURN && ParseReturn(ts).Ok?
    ensures var (s, rest) := ParseReturn(ts).value;
            After(done, ParseStatements(ts)) == After(done + [s], ParseStatements(rest))
  {
    hide ParseReturn;
    var (s, rest) := ParseReturn(ts).value;
    if ParseStatements(rest).Ok? {
      assert done + ([s] + ParseStatements(rest).value.0) == done + [s] + ParseStatements(rest).value.0;
    }
  }

  /** The same for definitions. */
  function Following(done: seq<FunctionDefinition>, r: Result<seq<FunctionDefinition>>)
    : Result<seq<FunctionDefinition>>
  {
    if r.Err? then r else Ok(done + r.value)
  }

  lemma FollowingNothing(r: Result<seq<FunctionDefinition>>)
    ensures Following([], r) == r
  {
    if r.Ok? { assert [] + r.value == r.value; }
  }

  lemma FollowingStep(done: seq<FunctionDefinition>, ts: seq<Token>)
    requires Head(ts).kind == KEYWORD_FN && ParseFunction(ts).Ok?
    ensures var (f, rest) := ParseFunction(ts).value;
            Following(done, ParseProgram(ts)) == Following(done + [f], ParseProgram(rest))
  {
    hide ParseFunction;
    var (f, rest) := ParseFunction(ts).value;
    if ParseProgram(rest).Ok? {
      assert done + ([f] + ParseProgram(rest).value) == done + [f] + ParseProgram(rest).value;
    }
  }

  lemma FollowingEnd(done: seq<FunctionDefinition>, ts: seq<Token>)
    requires Head(ts).kind != KEYWORD_FN && !Stuck(ts)
    ensures Following(done, ParseProgram(ts)) == if Head(ts).kind == END_OF_FILE then Ok(done) else Err(SyntaxError)
  {
    assert done + [] == done;
  }

  /** An argument would need a colon, which the lexer does not produce. */
  method ParseArguments(lexer: Lexer) returns (r: Result<()>)
    requires ParseParameters(lexer.Pending()) != Err(Divergence)
    modifies lexer
    ensures match ParseParameters(old(lexer.Pending()))
            case Ok(rest) => r == Ok(()) && At(lexer, rest)
            case Err(error) => r == Err(error)
  {
    hide Lexer.Pending;
    var token := lexer.Peek();
    if token.kind == IDENT {
      token := lexer.Take();
      var colon :- lexer.Expect(COLON);
      return Err(Unimplemented);
    }
    if token.kind == R_PAREN { token := lexer.Take(); }
    r := Ok(());
  }

  method ParseFunctionSignature(lexer: Lexer) returns (r: Result<(string, FrontendType)>)
    requires Head(lexer.Pending()).kind == KEYWORD_FN
    requires ParseSignature(lexer.Pending()) != Err(Divergence)
    modifies lexer
    ensures match ParseSignature(old(lexer.Pending()))
            case Ok((name, t, rest)) => r == Ok((name, t)) && At(lexer, rest)
            case Err(error) => r == Err(error)
  {
    hide Lexer.Pending, ParseParameters, FromString;
    var token := lexer.Take();
    var name :- lexer.Expect(IDENT);
    var _ :- lexer.Expect(L_PAREN);
    var _ :- ParseArguments(lexer);
    var returnType := FrontendType.Void;
    token := lexer.Peek();
    if token.kind == THIN_ARROW {
      token := lexer.Take();
      token :- lexer.Expect(IDENT);
      returnType := FromString(token.str);
    }
    var _ :- lexer.Expect(L_CURLY_BRACKET);
    r := Ok((name.str, returnType));
  }

  method ParseFunctionBody(lexer: Lexer) returns (r: Result<(seq<Option<Expr>>, Option<Expr>)>)
    requires ParseBody(lexer.Pending()) != Err(Divergence)
    modifies lexer
    ensures match ParseBody(old(lexer.Pending()))
            case Ok((ss, tail, rest)) => r == Ok((ss, tail)) && At(lexer, rest)
            case Err(error) => r == Err(error)
  {
    hide Lexer.Pending, Parse, ParseStatements, Expr.Fresh;
    var statements :- ParseBodyStatements(lexer);
    var tail :- TryParse(lexer, 0);
    var _ :- lexer.Expect(R_CURLY_BRACKET);
    r := Ok((statements, tail));
  }

  method TryParseFunctionDefinition(lexer: Lexer) returns (r: Result<Option<FunctionDefinition>>)
    requires lexer.Ready() &&
             (Head(lexer.Pending()).kind == KEYWORD_FN ==> ParseFunction(lexer.Pending()) != Err(Divergence))
    modifies lexer
    ensures var ts := old(lexer.Pending());
            if Head(ts).kind != KEYWORD_FN then r == Ok(None) && At(lexer, ts)
            else match ParseFunction(ts)
                 case Ok((f, rest)) => r == Ok(Some(f)) && At(lexer, rest)
                 case Err(error) => r == Err(error)
  {
    hide Lexer.Pending, ParseSignature, ParseBody, FunctionDefinition.Fresh;
    var token := lexer.Peek();
    if token.kind != KEYWORD_FN { return Ok(None); }
    var signature :- ParseFunctionSignature(lexer);
    var body :- ParseFunctionBody(lexer);
    r := Ok(Some(FunctionDefinition(signature.0, signature.1, body.0, body.1)));
  }

  /** From text to definitions. */
  method ParseText(text: string) returns (r: Result<seq<FunctionDefinition>>)
    requires ParseProgram(Stream(text)) != Err(Divergence)
    ensures r == ParseProgram(Stream(text))
  {
    hide Lexer.Pending, ParseFunction, Stream;
    var lexer := new Lexer(text);
    var defs: seq<FunctionDefinition> := [];
    FollowingNothing(ParseProgram(lexer.Pending()));
    while true
      invariant fresh(lexer)
      invariant ParseProgram(Stream(text)) == Following(defs, ParseProgram(lexer.Pending()))
      decreases |lexer.Pending()|
    {
      ghost var before := lexer.Pending();
      var f := TryParseFunctionDefinition(lexer);
      if f.Err? { return Err(f.error); }
      if f.value.None? {
        FollowingEnd(defs, before);
        break;
      }
      FollowingStep(defs, before);
      defs := defs + [f.value.value];
    }
    var end := lexer.Expect(END_OF_FILE);
    r := if end.Err? then Err(end.error) else Ok(defs);
  }

  // ---- coming back, and how parsing fails --------------------------------------------------

  /** An error has its reason in the tokens: a literal with that error, an argument, or else the syntax. */
  predicate HasReason(error: Error, ts: seq<Token>) {
    Explained(error, ts) || (error == Unimplemented && exists t :: t in ts && t.kind == COLON)
  }

  /** Reading comes back from ts, with an error that has its reason there or with what is left. */
  predicate Comes(ts: seq<Token>, error: Option<Error>, rest: seq<Token>) {
    if error.None? then Within(rest, ts) else error.value != Divergence && HasReason(error.value, ts)
  }

  function Failure<T>(r: Result<T>): Option<Error> { if r.Err? then Some(r.error) else None }

  lemma ComesFrom(some: seq<Token>, all: seq<Token>, error: Option<Error>, rest: seq<Token>)
    requires Comes(some, error, rest) && Within(some, all)
    ensures Comes(all, error, rest)
  {
    hide ParseInteger;
  }

  lemma ExpectComesBack(kind: TokenType, ts: seq<Token>)
    requires STUCK !in ts
    ensures var r := Expect(kind, ts); Comes(ts, Failure(r), if r.Ok? then r.value else [])
  {
    hide Stuck, ParseInteger;
    NotStuck(ts);
  }

  /** One thing after another. */
  lemma ExpectAfter(kind: TokenType, rest: seq<Token>, ts: seq<Token>)
    requires STUCK !in ts && Within(rest, ts)
    ensures var r := Expect(kind, rest); Comes(ts, Failure(r), if r.Ok? then r.value else [])
  {
    hide Expect, HasReason;
    ExpectComesBack(kind, rest);
    var r := Expect(kind, rest);
    ComesFrom(rest, ts, Failure(r), if r.Ok? then r.value else []);
  }

  lemma ExpressionAfter(rest: seq<Token>, ts: seq<Token>)
    requires STUCK !in ts && Within(rest, ts)
    ensures ComesBack(ts, Parse(0, rest))
  {
    hide Parse, Explained;
    ParseComesBack(0, rest);
    BackWithin(rest, ts, Parse(0, rest));
  }

  lemma ReturnComesBack(ts: seq<Token>)
    requires STUCK !in ts && Head(ts).kind == KEYWORD_RETURN
    ensures var r := ParseReturn(ts); Comes(ts, Failure(r), if r.Ok? then r.value.1 else [])
  {
    hide Parse, Stuck, Expect, ParseInteger;
    NotStuck(ts);
    NotStuck(Rest(ts));
    ExpressionAfter(Rest(ts), ts);
    if Parse(0, Rest(ts)).Parsed? { ExpectAfter(SEMICOLON, Parse(0, Rest(ts)).rest, ts); }
  }

  lemma {:induction false} StatementsComeBack(ts: seq<Token>)
    requires STUCK !in ts
    ensures var r := ParseStatements(ts); Comes(ts, Failure(r), if r.Ok? then r.value.1 else [])
    decreases |ts|
  {
    hide ParseReturn, Stuck, HasReason;
    NotStuck(ts);
    if Head(ts).kind == KEYWORD_RETURN {
      ReturnComesBack(ts);
      if ParseReturn(ts).Ok? {
        var rest := ParseReturn(ts).value.1;
        StatementsComeBack(rest);
        var r := ParseStatements(rest);
        ComesFrom(rest, ts, Failure(r), if r.Ok? then r.value.1 else []);
      }
    }
  }

  lemma SignatureComesBack(ts: seq<Token>)
    requires STUCK !in ts && Head(ts).kind == KEYWORD_FN
    ensures var r := ParseSignature(ts); Comes(ts, Failure(r), if r.Ok? then r.value.2 else [])
  {
    hide Expect, ParseParameters, ParseReturnType, HasReason;
    NotStuck(ts);
    ExpectAfter(IDENT, Rest(ts), ts);
    if Expect(IDENT, Rest(ts)).Ok? {
      var named := Expect(IDENT, Rest(ts)).value;
      ExpectAfter(L_PAREN, named, ts);
      if Expect(L_PAREN, named).Ok? {
        var unclosed := Expect(L_PAREN, named).value;
        ParametersAfter(unclosed, ts);
        if ParseParameters(unclosed).Ok? {
          var closed := ParseParameters(unclosed).value;
          ReturnTypeAfter(closed, ts);
          if ParseReturnType(closed).Ok? { ExpectAfter(L_CURLY_BRACKET, ParseReturnType(closed).value.1, ts); }
        }
      }
    }
  }

  lemma ParametersAfter(rest: seq<Token>, ts: seq<Token>)
    requires STUCK !in ts && Within(rest, ts)
    ensures var r := ParseParameters(rest); Comes(ts, Failure(r), if r.Ok? then r.value else [])
  {
    hide Stuck, ParseInteger;
    NotStuck(rest);
    NotStuck(Rest(rest));
    if Rest(rest) != [] { assert Head(Rest(rest)) in Rest(rest); }
  }

  lemma ReturnTypeAfter(rest: seq<Token>, ts: seq<Token>)
    requires STUCK !in ts && Within(rest, ts)
    ensures var r := ParseReturnType(rest); Comes(ts, Failure(r), if r.Ok? then r.value.1 else [])
  {
    hide Stuck, Expect, FromString, HasReason;
    NotStuck(rest);
    ExpectAfter(IDENT, Rest(rest), ts);
  }

  lemma FunctionComesBack(ts: seq<Token>)
    requires STUCK !in ts && Head(ts).kind == KEYWORD_FN
    ensures var r := ParseFunction(ts); Comes(ts, Failure(r), if r.Ok? then r.value.1 else [])
  {
    hide ParseSignature, ParseStatements, Parse, Expect, FunctionDefinition.Fresh, Explained;
    SignatureComesBack(ts);
    if ParseSignature(ts).Ok? {
      var begun := ParseSignature(ts).value.2;
      StatementsComeBack(begun);
      var r := ParseStatements(begun);
      ComesFrom(begun, ts, Failure(r), if r.Ok? then r.value.1 else []);
      if r.Ok? {
        ExpressionAfter(r.value.1, ts);
        if ParseTail(r.value.1).Ok? { ExpectAfter(R_CURLY_BRACKET, ParseTail(r.value.1).value.1, ts); }
      }
    }
  }

  /** Reading a program comes back when the line comments before the first end of its text end in newlines; and
      if it fails, then with the error of one of its literals, because of an argument, or with a syntax error. */
  lemma {:induction false} ProgramComesBack(ts: seq<Token>)
    requires STUCK !in ts
    ensures ParseProgram(ts) != Err(Divergence)
    ensures ParseProgram(ts).Err? ==> HasReason(ParseProgram(ts).error, ts)
    decreases |ts|
  {
    hide ParseFunction, Stuck, ParseInteger;
    NotStuck(ts);
    if Head(ts).kind == KEYWORD_FN {
      FunctionComesBack(ts);
      if ParseFunction(ts).Ok? {
        var rest := ParseFunction(ts).value.1;
        ProgramComesBack(rest);
        ComesFrom(rest, ts, Failure(ParseProgram(rest)), []);
      }
    }
  }
}
