/** Written programs: which token sequences, and which texts, are read as which definitions. */
module Grammar {
  import opened Results
  import opened FrontendTypes
  import opened Ast
  import opened Tokens
  import opened TypeNames
  import opened Parsing
  import opened Rendering
  import opened ProgramParsing

  // ---- written functions -------------------------------------------------------------------

  const FN := Token(KEYWORD_FN, "")
  const RETURN := Token(KEYWORD_RETURN, "")
  const ARROW := Token(THIN_ARROW, "")
  const SEMI := Token(SEMICOLON, "")
  const BEGIN := Token(L_CURLY_BRACKET, "")
  const FINISH := Token(R_CURLY_BRACKET, "")

  predicate Proper(w: Option<Written>) { w.Some? ==> w.value.Proper() }

  function Meaning(w: Option<Written>): (e: Option<Expr>)
    requires Proper(w)
    ensures e.Some? ==> e.value.Fresh()
  {
    if w.None? then None else Some(w.value.Value())
  }

  function Flat(w: Option<Written>): seq<Token> { if w.None? then [] else w.value.Flat() }

  /** Each return statement ends in a semicolon. */
  function FlatStatements(ss: seq<Option<Written>>): seq<Token> {
    if ss == [] then [] else [RETURN] + Flat(ss[0]) + [SEMI] + FlatStatements(ss[1..])
  }

  /** A function as it is written. Its parameter list is empty, and may be left open; without an arrow it returns
      nothing; the tail needs no semicolon. */
  datatype WrittenFunction = WrittenFunction(
    name: string, closed: bool, arrow: Option<string>, statements: seq<Option<Written>>, tail: Option<Written>)
  {
    predicate Valid() {
      (forall i :: 0 <= i < |statements| ==> Proper(statements[i])) && Proper(tail)
    }

    function ReturnType(): FrontendType { if arrow.None? then FrontendType.Void else Named(arrow.value) }

    function Value(): FunctionDefinition
      requires Valid()
    {
      FunctionDefinition(name, ReturnType(), Meanings(statements), Meaning(tail))
    }

    function FlatArrow(): seq<Token> { if arrow.None? then [] else [ARROW, Token(IDENT, arrow.value)] }

    function FlatSignature(): seq<Token> {
      [FN, Token(IDENT, name), OPEN] + (if closed then [CLOSE] else []) + FlatArrow() + [BEGIN]
    }

    function FlatBody(): seq<Token> { FlatStatements(statements) + Flat(tail) + [FINISH] }

    function Tokens(): seq<Token> { FlatSignature() + FlatBody() }
  }

  function Meanings(ss: seq<Option<Written>>): (es: seq<Option<Expr>>)
    requires forall i :: 0 <= i < |ss| ==> Proper(ss[i])
    ensures |es| == |ss| && forall i :: 0 <= i < |ss| ==> es[i] == Meaning(ss[i])
  {
    if ss == [] then [] else [Meaning(ss[0])] + Meanings(ss[1..])
  }

  predicate AllValid(fs: seq<WrittenFunction>) { forall k :: 0 <= k < |fs| ==> fs[k].Valid() }

  function Values(fs: seq<WrittenFunction>): (defs: seq<FunctionDefinition>)
    requires AllValid(fs)
    ensures |defs| == |fs| && forall k :: 0 <= k < |fs| ==> defs[k] == fs[k].Value()
  {
    if fs == [] then [] else [fs[0].Value()] + Values(fs[1..])
  }

  function AllTokensOf(fs: seq<WrittenFunction>): seq<Token> {
    if fs == [] then [] else fs[0].Tokens() + AllTokensOf(fs[1..])
  }

  /** The functions are a written program with these definitions. */
  ghost predicate Writes(fs: seq<WrittenFunction>, defs: seq<FunctionDefinition>) { AllValid(fs) && Values(fs) == defs }

  // ---- what is written is parsed -----------------------------------------------------------

  lemma TokenFollows(kind: TokenType, rest: seq<Token>)
    requires kind == SEMICOLON || kind == R_CURLY_BRACKET
    ensures Follows(0, [Token(kind, "")] + rest)
  {
  }

  /** A written expression does not begin like a statement, a terminator or nothing. */
  lemma {:induction false} WrittenHead(w: Written, rest: seq<Token>)
    requires w.Proper()
    ensures w.Flat() != [] && !Stuck(w.Flat() + rest)
    ensures Head(w.Flat() + rest).kind !in {SEMICOLON, KEYWORD_RETURN, R_CURLY_BRACKET}
    decreases w
  {
    hide BinaryLevel, BinaryToken, LeftLevel, ParseInteger;
    match w
    case BinaryNode(op, l, r) => WrittenHead(l, [BinaryToken(op)] + r.Flat() + rest);
    case CallNode(callee) => WrittenHead(callee, [OPEN, CLOSE] + rest);
    case _ =>
  }

  lemma ExpressionComplete(w: Written, kind: TokenType, rest: seq<Token>)
    requires w.Proper() && (kind == SEMICOLON || kind == R_CURLY_BRACKET)
    ensures Parse(0, w.Flat() + ([Token(kind, "")] + rest)) == Parsed(w.Value(), [Token(kind, "")] + rest)
  {
    hide Parse, Follows, Stops;
    TokenFollows(kind, rest);
    StopsWhereQuiet(w, 0, [Token(kind, "")] + rest);
    Complete(w, 0, [Token(kind, "")] + rest);
  }

  lemma ReturnComplete(s: Option<Written>, rest: seq<Token>)
    requires Proper(s)
    ensures var ts := [RETURN] + Flat(s) + [SEMI] + rest;
            Head(ts).kind == KEYWORD_RETURN && ParseReturn(ts) == Ok((Meaning(s), rest))
  {
    hide Parse, Written.Proper, Written.Flat;
    var end := [SEMI] + rest;
    var ts := [RETURN] + Flat(s) + [SEMI] + rest;
    assert Rest(end) == rest && Head(end).kind == SEMICOLON;
    if s.Some? {
      assert Rest(ts) == s.value.Flat() + end;
      ExpressionComplete(s.value, SEMICOLON, rest);
      WrittenHead(s.value, end);
    } else {
      assert Rest(ts) == end;
    }
  }

  lemma {:induction false} StatementsComplete(ss: seq<Option<Written>>, rest: seq<Token>)
    requires forall i :: 0 <= i < |ss| ==> Proper(ss[i])
    requires Head(rest).kind != KEYWORD_RETURN && !Stuck(rest)
    ensures ParseStatements(FlatStatements(ss) + rest) == Ok((Meanings(ss), rest))
    decreases |ss|
  {
    hide ParseReturn, Proper, Flat, Meaning;
    if ss == [] {
      assert FlatStatements(ss) + rest == rest;
    } else {
      var more := FlatStatements(ss[1..]) + rest;
      assert FlatStatements(ss) + rest == [RETURN] + Flat(ss[0]) + [SEMI] + more;
      ReturnComplete(ss[0], more);
      StatementsComplete(ss[1..], rest);
    }
  }

  lemma TailComplete(tail: Option<Written>, rest: seq<Token>)
    requires Proper(tail)
    ensures var ts := Flat(tail) + ([FINISH] + rest);
            ParseTail(ts) == Ok((Meaning(tail), [FINISH] + rest)) && Head(ts).kind != KEYWORD_RETURN && !Stuck(ts)
  {
    hide Parse;
    if tail.Some? {
      ExpressionComplete(tail.value, R_CURLY_BRACKET, rest);
      WrittenHead(tail.value, [FINISH] + rest);
    } else {
      assert [] + ([FINISH] + rest) == [FINISH] + rest;
      NoMatchIff(0, [FINISH] + rest);
    }
  }

  lemma BodyComplete(f: WrittenFunction, rest: seq<Token>)
    requires f.Valid()
    ensures ParseBody(f.FlatBody() + rest) == Ok((Meanings(f.statements), Meaning(f.tail), rest))
  {
    hide FlatStatements, Flat, ParseStatements, ParseTail, Meaning, Proper;
    var tail := Flat(f.tail) + ([FINISH] + rest);
    TailComplete(f.tail, rest);
    StatementsComplete(f.statements, tail);
    assert f.FlatBody() + rest == FlatStatements(f.statements) + tail;
    HeadRest(FINISH, rest);
  }

  lemma ArrowComplete(f: WrittenFunction, rest: seq<Token>)
    ensures ParseReturnType(f.FlatArrow() + ([BEGIN] + rest)) == Ok((f.ReturnType(), [BEGIN] + rest))
    ensures Head(f.FlatArrow() + ([BEGIN] + rest)) in {ARROW, BEGIN}
  {
    hide FromString, Named;
    var ts := f.FlatArrow() + ([BEGIN] + rest);
    HeadRest(BEGIN, rest);
    if f.arrow.None? {
      assert ts == [BEGIN] + rest;
    } else {
      var word := Token(IDENT, f.arrow.value);
      assert ts == [ARROW] + ([word] + ([BEGIN] + rest));
      HeadRest(ARROW, [word] + ([BEGIN] + rest));
      HeadRest(word, [BEGIN] + rest);
      NamedIs(f.arrow.value);
    }
  }

  lemma SignatureComplete(f: WrittenFunction, rest: seq<Token>)
    ensures var ts := f.FlatSignature() + rest;
            Head(ts) == FN && ParseSignature(ts) == Ok((f.name, f.ReturnType(), rest))
  {
    hide ParseReturnType, Head, Rest, WrittenFunction.FlatArrow, WrittenFunction.ReturnType;
    var typed := f.FlatArrow() + ([BEGIN] + rest);
    var parameters := (if f.closed then [CLOSE] else []) + typed;
    var named := [Token(IDENT, f.name)] + ([OPEN] + parameters);
    assert f.FlatSignature() + rest == [FN] + named;
    HeadRest(FN, named);
    HeadRest(Token(IDENT, f.name), [OPEN] + parameters);
    HeadRest(OPEN, parameters);
    HeadRest(BEGIN, rest);
    ArrowComplete(f, rest);
    if f.closed {
      HeadRest(CLOSE, typed);
    } else {
      assert parameters == typed;
    }
  }

  /** A written function is read as its definition, and what follows it is left alone. */
  lemma FunctionComplete(f: WrittenFunction, rest: seq<Token>)
    requires f.Valid()
    ensures Head(f.Tokens() + rest) == FN && ParseFunction(f.Tokens() + rest) == Ok((f.Value(), rest))
  {
    hide ParseSignature, ParseBody, WrittenFunction.FlatSignature, WrittenFunction.FlatBody, Meaning, Proper;
    SignatureComplete(f, f.FlatBody() + rest);
    BodyComplete(f, rest);
    assert f.Tokens() + rest == f.FlatSignature() + (f.FlatBody() + rest);
  }

  lemma NoFunction(end: seq<Token>)
    requires Head(end).kind == END_OF_FILE
    ensures ParseProgram(end) == Ok([])
  {
  }

  lemma OneFunction(ts: seq<Token>)
    requires Head(ts).kind == KEYWORD_FN && ParseFunction(ts).Ok?
    ensures var (f, rest) := ParseFunction(ts).value;
            ParseProgram(rest).Ok? ==> ParseProgram(ts) == Ok([f] + ParseProgram(rest).value)
  {
    hide ParseFunction;
  }

  lemma {:induction false} ProgramComplete(fs: seq<WrittenFunction>, end: seq<Token>)
    requires AllValid(fs) && Head(end).kind == END_OF_FILE
    ensures ParseProgram(AllTokensOf(fs) + end) == Ok(Values(fs))
    decreases |fs|
  {
    hide ParseFunction, WrittenFunction.Tokens, WrittenFunction.Valid, WrittenFunction.Value, ParseProgram;
    if fs == [] {
      assert AllTokensOf(fs) + end == end;
      NoFunction(end);
    } else {
      var more := AllTokensOf(fs[1..]) + end;
      FunctionComplete(fs[0], more);
      ProgramComplete(fs[1..], end);
      assert AllTokensOf(fs) + end == fs[0].Tokens() + more;
      OneFunction(fs[0].Tokens() + more);
    }
  }

  // ---- what is parsed was written ----------------------------------------------------------

  lemma ReadsParts(w: Written, ts: seq<Token>, e: Expr, rest: seq<Token>)
    requires Reads(w, 0, ts, e, rest) && Canonical(ts)
    ensures w.Proper() && w.Value() == e && ts == w.Flat() + rest && Canonical(rest)
  {
    hide Canonical, Stops;
    CanonicalSuffix(w.Flat(), rest);
  }

  lemma ReturnSound(ts: seq<Token>) returns (s: Option<Written>)
    requires Canonical(ts) && Head(ts).kind == KEYWORD_RETURN && ParseReturn(ts).Ok?
    ensures var (e, rest) := ParseReturn(ts).value;
            Proper(s) && Meaning(s) == e && ts == [RETURN] + Flat(s) + [SEMI] + rest && Canonical(rest)
  {
    hide Canonical, Parse, Reads, Expect, Written.Proper, Written.Value, Written.Flat;
    CanonicalHead(ts);
    var after := Rest(ts);
    if Head(after).kind == SEMICOLON {
      s := None;
      CanonicalHead(after);
      ReturnJoins(s, Rest(after));
    } else {
      var w := Sound(0, after);
      var (e, end) := (Parse(0, after).e, Parse(0, after).rest);
      ReadsParts(w, after, e, end);
      ExpectSound(SEMI, end);
      s := Some(w);
      ReturnJoins(s, Expect(SEMICOLON, end).value);
    }
  }

  lemma ReturnJoins(s: Option<Written>, rest: seq<Token>)
    ensures [RETURN] + (Flat(s) + ([SEMI] + rest)) == [RETURN] + Flat(s) + [SEMI] + rest
    ensures s.None? ==> [SEMI] + rest == Flat(s) + ([SEMI] + rest)
  {
    hide Written.Flat;
  }

  lemma {:induction false} StatementsSound(ts: seq<Token>) returns (ss: seq<Option<Written>>)
    requires Canonical(ts) && ParseStatements(ts).Ok?
    ensures var (es, rest) := ParseStatements(ts).value;
            && (forall i :: 0 <= i < |ss| ==> Proper(ss[i])) && Meanings(ss) == es
            && ts == FlatStatements(ss) + rest && Canonical(rest)
    decreases |ts|
  {
    hide Canonical, ParseReturn, Flat, Proper, Meaning;
    if Head(ts).kind != KEYWORD_RETURN {
      ss := [];
      assert ts == [] + ts;
    } else {
      var s := ReturnSound(ts);
      var (e, more) := ParseReturn(ts).value;
      var tail := StatementsSound(more);
      ss := [s] + tail;
      assert ss[1..] == tail;
      var rest := ParseStatements(more).value.1;
      assert ts == FlatStatements(ss) + rest;
    }
  }

  lemma TailSound(ts: seq<Token>) returns (tail: Option<Written>)
    requires Canonical(ts) && ParseTail(ts).Ok?
    ensures var (e, rest) := ParseTail(ts).value;
            Proper(tail) && Meaning(tail) == e && ts == Flat(tail) + rest && Canonical(rest)
  {
    hide Canonical, Parse, Reads;
    if Parse(0, ts).NoMatch? {
      tail := None;
      assert ts == [] + ts;
    } else {
      var w := Sound(0, ts);
      ReadsParts(w, ts, Parse(0, ts).e, Parse(0, ts).rest);
      tail := Some(w);
    }
  }

  lemma ExpectSound(t: Token, ts: seq<Token>)
    requires Canonical(ts) && t.kind !in {IDENT, INT_LITERAL, ERROR_UNEXPECTED_CHAR, END_OF_FILE}
    requires t.str == "" && Expect(t.kind, ts).Ok?
    ensures ts == [t] + Expect(t.kind, ts).value && Canonical(Expect(t.kind, ts).value)
  {
    hide Canonical;
    CanonicalHead(ts);
  }

  lemma NameSound(ts: seq<Token>)
    requires Canonical(ts) && Expect(IDENT, ts).Ok?
    ensures ts == [Token(IDENT, Head(ts).str)] + Expect(IDENT, ts).value && Canonical(Expect(IDENT, ts).value)
  {
    hide Canonical;
    CanonicalHead(ts);
  }

  lemma ParametersSound(ts: seq<Token>) returns (closed: bool)
    requires Canonical(ts) && ParseParameters(ts).Ok?
    ensures ts == (if closed then [CLOSE] else []) + ParseParameters(ts).value && Canonical(ParseParameters(ts).value)
  {
    hide Canonical;
    closed := Head(ts).kind == R_PAREN;
    if closed {
      CanonicalHead(ts);
    } else {
      assert ts == [] + ts;
    }
  }

  lemma ArrowSound(ts: seq<Token>) returns (arrow: Option<string>)
    requires Canonical(ts) && ParseReturnType(ts).Ok?
    ensures var (t, rest) := ParseReturnType(ts).value;
            && t == (if arrow.None? then FrontendType.Void else Named(arrow.value))
            && ts == (if arrow.None? then [] else [ARROW, Token(IDENT, arrow.value)]) + rest && Canonical(rest)
  {
    hide Canonical, FromString, Named;
    if Head(ts).kind != THIN_ARROW {
      arrow := None;
      assert ts == [] + ts;
    } else {
      CanonicalHead(ts);
      NameSound(Rest(ts));
      arrow := Some(Head(Rest(ts)).str);
      NamedIs(arrow.value);
      assert ts == [ARROW, Token(IDENT, arrow.value)] + Expect(IDENT, Rest(ts)).value;
    }
  }

  /** The signature of a function whose body is still to be read. */
  lemma SignatureSound(ts: seq<Token>) returns (f: WrittenFunction)
    requires Canonical(ts) && Head(ts).kind == KEYWORD_FN && ParseSignature(ts).Ok?
    ensures var (name, t, rest) := ParseSignature(ts).value;
            && f.name == name && f.ReturnType() == t && ts == f.FlatSignature() + rest && Canonical(rest)
            && f.statements == [] && f.tail.None?
  {
    hide Canonical, Expect, ParseParameters, ParseReturnType, Named, WrittenFunction.FlatSignature;
    CanonicalHead(ts);
    NameSound(Rest(ts));
    var named := Expect(IDENT, Rest(ts)).value;
    ExpectSound(OPEN, named);
    var unclosed := Expect(L_PAREN, named).value;
    var closed := ParametersSound(unclosed);
    var typed := ParseParameters(unclosed).value;
    var arrow := ArrowSound(typed);
    var begun := ParseReturnType(typed).value.1;
    ExpectSound(BEGIN, begun);
    f := WrittenFunction(Head(Rest(ts)).str, closed, arrow, [], None);
    var rest := Expect(L_CURLY_BRACKET, begun).value;
    SignatureJoins(f, rest);
  }

  lemma SignatureJoins(f: WrittenFunction, rest: seq<Token>)
    ensures f.FlatSignature() + rest ==
            [FN] + ([Token(IDENT, f.name)] + ([OPEN] + ((if f.closed then [CLOSE] else []) +
            (f.FlatArrow() + ([BEGIN] + rest)))))
  {
    hide WrittenFunction.FlatArrow;
  }

  /** Whatever is read as a function was written as one. */
  lemma FunctionSound(ts: seq<Token>) returns (f: WrittenFunction)
    requires Canonical(ts) && Head(ts).kind == KEYWORD_FN && ParseFunction(ts).Ok?
    ensures var (d, rest) := ParseFunction(ts).value;
            f.Valid() && f.Value() == d && ts == f.Tokens() + rest && Canonical(rest)
  {
    hide Canonical, ParseSignature, ParseStatements, ParseTail, Expect, Meaning, Proper, Flat, FlatStatements;
    hide WrittenFunction.FlatArrow, Named;
    var signature := SignatureSound(ts);
    var (name, t, begun) := ParseSignature(ts).value;
    var ss := StatementsSound(begun);
    var (es, stated) := ParseStatements(begun).value;
    var tail := TailSound(stated);
    var (e, tailed) := ParseTail(stated).value;
    ExpectSound(FINISH, tailed);
    f := signature.(statements := ss, tail := tail);
    var rest := Expect(R_CURLY_BRACKET, tailed).value;
    SameSignature(signature, f);
    assert begun == f.FlatBody() + rest;
    assert ts == f.Tokens() + rest;
  }

  lemma SameSignature(f: WrittenFunction, g: WrittenFunction)
    requires f.name == g.name && f.closed == g.closed && f.arrow == g.arrow
    ensures f.FlatSignature() == g.FlatSignature() && f.ReturnType() == g.ReturnType()
  {
  }

  lemma {:induction false} ProgramSound(ts: seq<Token>) returns (fs: seq<WrittenFunction>, end: seq<Token>)
    requires Canonical(ts) && ParseProgram(ts).Ok?
    ensures Writes(fs, ParseProgram(ts).value) && ts == AllTokensOf(fs) + end && Head(end).kind == END_OF_FILE
    decreases |ts|
  {
    hide Canonical, ParseFunction, WrittenFunction.Tokens, WrittenFunction.Valid, WrittenFunction.Value;
    if Head(ts).kind != KEYWORD_FN {
      fs, end := [], ts;
      assert ts == [] + ts;
    } else {
      var f := FunctionSound(ts);
      var (d, rest) := ParseFunction(ts).value;
      var more: seq<WrittenFunction>;
      more, end := ProgramSound(rest);
      fs := [f] + more;
      assert fs[1..] == more;
      assert ts == AllTokensOf(fs) + end;
    }
  }

  // ---- exactly what is read ----------------------------------------------------------------

  /** Exactly what is read as one function. */
  lemma FunctionIff(ts: seq<Token>, d: FunctionDefinition, rest: seq<Token>)
    requires Canonical(ts) && Head(ts).kind == KEYWORD_FN
    ensures ParseFunction(ts) == Ok((d, rest)) <==>
              exists f: WrittenFunction :: f.Valid() && f.Value() == d && ts == f.Tokens() + rest
  {
    hide Canonical, ParseFunction, WrittenFunction.Tokens, WrittenFunction.Valid, WrittenFunction.Value;
    if ParseFunction(ts) == Ok((d, rest)) {
      var f := FunctionSound(ts);
    }
    forall f: WrittenFunction | f.Valid() && f.Value() == d && ts == f.Tokens() + rest
      ensures ParseFunction(ts) == Ok((d, rest))
    {
      FunctionComplete(f, rest);
    }
  }

  /** Exactly what is read as a program: written functions one after the other, and then the end. */
  lemma ProgramIff(ts: seq<Token>, defs: seq<FunctionDefinition>)
    requires Canonical(ts)
    ensures ParseProgram(ts) == Ok(defs) <==>
              exists fs, end :: Writes(fs, defs) && ts == AllTokensOf(fs) + end && Head(end).kind == END_OF_FILE
  {
    hide Canonical, ParseProgram, AllTokensOf;
    if ParseProgram(ts) == Ok(defs) {
      var fs, end := ProgramSound(ts);
    }
    forall fs, end | Writes(fs, defs) && ts == AllTokensOf(fs) + end && Head(end).kind == END_OF_FILE
      ensures ParseProgram(ts) == Ok(defs)
    {
      ProgramComplete(fs, end);
    }
  }
}
