/** Program texts: which texts are read as which definitions, how the others are rejected, and how every program
    can be written down. */
module ProgramTexts {
  import opened Results
  import opened FrontendTypes
  import opened Ast
  import opened Tokens
  import opened Lexing
  import opened Lexemes
  import opened TypeNames
  import opened Parsing
  import opened Literals
  import opened Rendering
  import opened ProgramParsing
  import opened Grammar

  /** The text of a program: what it consists of is written functions with these definitions. */
  ghost predicate IsProgramText(text: string, defs: seq<FunctionDefinition>) {
    exists fs :: Writes(fs, defs) && Spells(text, AllTokensOf(fs))
  }

  // ---- tokens of a text --------------------------------------------------------------------

  /** Tokens as the lexer makes them: only some kinds have a text, and some do not occur. */
  predicate FromLexer(t: Token) {
    && (t.kind in {IDENT, INT_LITERAL, ERROR_UNEXPECTED_CHAR} || t.str == "")
    && t.kind != END_OF_FILE && t.kind != COLON
  }

  lemma {:induction false} NextFromLexer(s: string)
    ensures Next(s).Some? && Next(s).value.0 != END ==> FromLexer(Next(s).value.0)
    decreases |s|
  {
    hide Symbol;
    if s == "" {
      NextOfNothing();
    } else {
      var t := s[1..];
      SymbolFromLexer(s[0], PeekChar(t));
      if s[0] == '/' && PeekChar(t) == '/' {
        if AfterNewline(t).Some? { NextFromLexer(t[AfterNewline(t).value..]); }
      } else if IsWhitespace(s[0]) {
        NextFromLexer(t[WhitespaceLength(t)..]);
      }
    }
  }

  lemma SymbolFromLexer(c: char, next: char)
    ensures Symbol(c, next).0 !in {END_OF_FILE, COLON, IDENT, INT_LITERAL}
  {
  }

  lemma {:induction false} StreamFromLexer(s: string)
    ensures forall t :: t in Stream(s) ==> FromLexer(t)
    decreases |s|
  {
    hide Next;
    NextFromLexer(s);
    if s == "" {
    } else if Next(s).Some? && Next(s).value.0 != END {
      StreamFromLexer(Next(s).value.1);
    }
  }

  lemma StreamCanonical(s: string)
    ensures Canonical(Stream(s)) && forall t :: t in Stream(s) ==> t.kind != END_OF_FILE && t.kind != COLON
  {
    hide Stream;
    StreamFromLexer(s);
    forall i | 0 <= i < |Stream(s)|
      ensures FromLexer(Stream(s)[i])
    {
      assert Stream(s)[i] in Stream(s);
    }
  }

  /** Where no token is an end, the end comes after the last one. */
  lemma EndsThere(ts: seq<Token>, end: seq<Token>)
    requires Head(end).kind == END_OF_FILE && forall t :: t in ts + end ==> t.kind != END_OF_FILE
    ensures ts + end == ts
  {
    assert end == [] || Head(end) in end;
    assert end == [] || Head(end) in ts + end;
  }

  // ---- no mark in written tokens -----------------------------------------------------------

  predicate Unmarked(ts: seq<Token>) { STUCK !in ts }

  lemma {:induction false} TreeUnmarked(w: Written)
    requires w.Proper()
    ensures Unmarked(w.Flat())
  {
    hide LeftLevel, BinaryLevel, ParseInteger;
    match w
    case Leaf(_) =>
    case Paren(inner) => TreeUnmarked(inner);
    case BinaryNode(op, l, r) =>
      TreeUnmarked(l);
      TreeUnmarked(r);
    case UnaryNode(_, x) => TreeUnmarked(x);
    case CallNode(callee) => TreeUnmarked(callee);
  }

  lemma {:induction false} StatementsUnmarked(ss: seq<Option<Written>>)
    requires forall i :: 0 <= i < |ss| ==> Proper(ss[i])
    ensures Unmarked(FlatStatements(ss))
    decreases |ss|
  {
    hide Written.Proper, Written.Flat;
    if ss == [] {
    } else {
      if ss[0].Some? { TreeUnmarked(ss[0].value); }
      StatementsUnmarked(ss[1..]);
    }
  }

  lemma {:induction false} ProgramUnmarked(fs: seq<WrittenFunction>)
    requires AllValid(fs)
    ensures Unmarked(AllTokensOf(fs))
    decreases |fs|
  {
    hide Written.Proper, Written.Flat, FlatStatements;
    if fs == [] {
    } else {
      StatementsUnmarked(fs[0].statements);
      if fs[0].tail.Some? { TreeUnmarked(fs[0].tail.value); }
      ProgramUnmarked(fs[1..]);
    }
  }

  // ---- exactly what is read ----------------------------------------------------------------

  /** Exactly which texts are read as which programs. */
  lemma ProgramTextIff(text: string, defs: seq<FunctionDefinition>)
    ensures ParseProgram(Stream(text)) == Ok(defs) <==> IsProgramText(text, defs)
  {
    hide ParseProgram, Stream, Spells, Canonical, AllTokensOf;
    StreamCanonical(text);
    if ParseProgram(Stream(text)) == Ok(defs) {
      var fs, end := ProgramSound(Stream(text));
      EndsThere(AllTokensOf(fs), end);
      ProgramUnmarked(fs);
      StreamIff(text, AllTokensOf(fs));
    }
    forall fs | Writes(fs, defs) && Spells(text, AllTokensOf(fs))
      ensures ParseProgram(Stream(text)) == Ok(defs)
    {
      StreamIff(text, AllTokensOf(fs));
      ProgramComplete(fs, []);
      assert AllTokensOf(fs) + [] == AllTokensOf(fs);
    }
  }

  /** How all other texts are rejected: with a syntax error, unless one of their literals is at fault. */
  lemma RejectedText(text: string, ts: seq<Token>)
    requires Spells(text, ts) && !exists defs :: IsProgramText(text, defs)
    ensures ParseProgram(Stream(text)).Err?
    ensures var error := ParseProgram(Stream(text)).error;
            error == SyntaxError || exists t :: t in ts && t.kind == INT_LITERAL && ParseInteger(t.str) == Err(error)
  {
    hide ParseProgram, Stream, Spells, ParseInteger, IsProgramText;
    StreamIff(text, ts);
    StreamCanonical(text);
    ProgramComesBack(ts);
    if ParseProgram(Stream(text)).Ok? {
      ProgramTextIff(text, ParseProgram(Stream(text)).value);
    }
  }

  // ---- minimal parentheses -----------------------------------------------------------------

  function TypeWord(t: FrontendType): string {
    match t
    case Bool => "bool"
    case _ => TypeName(t)
  }

  predicate Writable(t: FrontendType) {
    t.Void? || t.Bool? || (t.IsInteger() && !t.UnresolvedInt?)
  }

  function MinimalOption(e: Option<Expr>): Option<Written>
    requires e.Some? ==> e.value.Fresh()
  {
    if e.None? then None else Some(Minimal(e.value, 0))
  }

  function MinimalStatements(ss: seq<Option<Expr>>): (ws: seq<Option<Written>>)
    requires forall i :: 0 <= i < |ss| && ss[i].Some? ==> ss[i].value.Fresh()
    ensures |ws| == |ss| && forall i :: 0 <= i < |ss| ==> ws[i] == MinimalOption(ss[i])
  {
    seq(|ss|, i requires 0 <= i < |ss| => MinimalOption(ss[i]))
  }

  /** A function, written with as few parentheses as possible; a type that is void is left out. */
  function MinimalFunction(f: FunctionDefinition): WrittenFunction
    requires f.Fresh()
  {
    WrittenFunction(f.name, true, if f.returnType.Void? then None else Some(TypeWord(f.returnType)),
                    MinimalStatements(f.statements), MinimalOption(f.tail))
  }

  function MinimalAll(defs: seq<FunctionDefinition>): (fs: seq<WrittenFunction>)
    requires forall k :: 0 <= k < |defs| ==> defs[k].Fresh()
    ensures |fs| == |defs| && forall k :: 0 <= k < |defs| ==> fs[k] == MinimalFunction(defs[k])
  {
    seq(|defs|, k requires 0 <= k < |defs| => MinimalFunction(defs[k]))
  }

  function RenderProgram(defs: seq<FunctionDefinition>): seq<Token>
    requires forall k :: 0 <= k < |defs| ==> defs[k].Fresh()
  {
    AllTokensOf(MinimalAll(defs))
  }

  lemma TypeWordInverse(t: FrontendType)
    requires Writable(t) && !t.Void?
    ensures Named(TypeWord(t)) == t
  {
  }

  lemma MinimalOptionMeans(e: Option<Expr>)
    requires e.Some? ==> e.value.Fresh()
    ensures Proper(MinimalOption(e)) && Meaning(MinimalOption(e)) == e
  {
    hide Minimal;
    if e.Some? { MinimalMeans(e.value, 0); }
  }

  lemma MinimalFunctionMeans(f: FunctionDefinition)
    requires f.Fresh() && Writable(f.returnType)
    ensures MinimalFunction(f).Valid() && MinimalFunction(f).Value() == f
  {
    hide MinimalOption, Proper, Meaning, TypeWord, Named, Writable;
    if !f.returnType.Void? { TypeWordInverse(f.returnType); }
    forall i | 0 <= i < |f.statements|
      ensures Proper(MinimalStatements(f.statements)[i])
      ensures Meaning(MinimalStatements(f.statements)[i]) == f.statements[i]
    {
      MinimalOptionMeans(f.statements[i]);
    }
    MinimalOptionMeans(f.tail);
    assert Meanings(MinimalStatements(f.statements)) == f.statements;
  }

  lemma MinimalAllWrites(defs: seq<FunctionDefinition>)
    requires forall k :: 0 <= k < |defs| ==> defs[k].Fresh() && Writable(defs[k].returnType)
    ensures Writes(MinimalAll(defs), defs)
  {
    hide MinimalFunction, FunctionDefinition.Fresh, Writable, WrittenFunction.Valid, WrittenFunction.Value;
    forall k | 0 <= k < |defs|
      ensures MinimalAll(defs)[k].Valid() && MinimalAll(defs)[k].Value() == defs[k]
    {
      MinimalFunctionMeans(defs[k]);
    }
    assert Values(MinimalAll(defs)) == defs;
  }

  /** A rendered function definition comes back, and what follows it is left alone. */
  lemma FunctionTrip(f: FunctionDefinition, rest: seq<Token>)
    requires f.Fresh() && Writable(f.returnType)
    ensures var ts := MinimalFunction(f).Tokens() + rest;
            Head(ts).kind == KEYWORD_FN && ParseFunction(ts) == Ok((f, rest))
  {
    hide MinimalFunction, WrittenFunction.Tokens, ParseFunction, FunctionDefinition.Fresh;
    MinimalFunctionMeans(f);
    FunctionComplete(MinimalFunction(f), rest);
  }

  /** The closing parenthesis of the parameter list may be missing: the same definition is read. */
  lemma ParenthesisOptional(f: WrittenFunction, rest: seq<Token>)
    requires f.Valid()
    ensures var ts := f.(closed := false).Tokens() + rest;
            Head(ts).kind == KEYWORD_FN && ParseFunction(ts) == Ok((f.Value(), rest))
  {
    hide ParseFunction, WrittenFunction.Tokens;
    FunctionComplete(f.(closed := false), rest);
  }

  /** Text comes back: the rendered tokens of a program, separated in any way, are read as its definitions. */
  lemma TextTrip(defs: seq<FunctionDefinition>, text: string)
    requires forall k :: 0 <= k < |defs| ==> defs[k].Fresh() && Writable(defs[k].returnType)
    requires Spells(text, RenderProgram(defs))
    ensures ParseProgram(Stream(text)) == Ok(defs)
  {
    hide ParseProgram, Stream, Spells, AllTokensOf, MinimalAll, FunctionDefinition.Fresh, Writable;
    MinimalAllWrites(defs);
    ProgramTextIff(text, defs);
  }

  // ---- every program can be written down ---------------------------------------------------

  /** Tokens that can be spelled. */
  predicate AllSpelled(ts: seq<Token>) { forall i :: 0 <= i < |ts| ==> Lexable(ts[i]) }

  lemma {:induction false} SpellSpells(ts: seq<Token>)
    requires AllSpelled(ts)
    ensures Spelled(Spell(ts), ts, "")
    decreases |ts|
  {
    hide Lexable, Spelling, Item.Ok, Item.EndsAt, Item.Chars, Separated, Spell, Text, TokensOf;
    if ts == [] {
      SpellNothing();
      NothingSpelled();
    } else {
      SpellSpells(ts[1..]);
      var items :| Separated(items, "") && Spell(ts[1..]) == Text(items) + "" && TokensOf(items) == ts[1..];
      SpellStep(ts[0], items);
      SpellOne(ts);
      assert Text(items) + "" == Text(items);
      assert ts == [ts[0]] + ts[1..];
    }
  }

  lemma NothingSpelled()
    ensures Spelled("", [], "")
  {
    assert Separated([], "") && Text([]) + "" == "";
  }

  /** One more token and the space behind it. */
  lemma SpellStep(t: Token, items: seq<Item>)
    requires Lexable(t) && Separated(items, "")
    ensures Spelled(Spelling(t) + " " + Text(items), [t] + TokensOf(items), "")
  {
    hide Lexable, Spelling, Item.Ok, Item.EndsAt, Item.Chars;
    LexableIsItem(t);
    SpaceIsItem();
    AddItem(Blank(' '), items);
    var more := [Blank(' ')] + items;
    assert Text(more) + "" == " " + Text(items) && TokensOf(more) == TokensOf(items);
    AddItem(Lexeme(t), more);
    var all := [Lexeme(t)] + more;
    assert Text(all) + "" == Spelling(t) + " " + Text(items);
  }

  lemma AddItem(i: Item, items: seq<Item>)
    requires i.Ok() && i.EndsAt(FirstOf(Text(items))) && Separated(items, "")
    ensures var more := [i] + items;
            && Separated(more, "") && Text(more) == i.Chars() + Text(items)
            && TokensOf(more) == TokenOf(i) + TokensOf(items)
  {
    hide Item.Ok, Item.EndsAt, Item.Chars, TokenOf;
    assert ([i] + items)[1..] == items && Text(items) + "" == Text(items);
  }

  lemma LexableIsItem(t: Token)
    requires Lexable(t)
    ensures Lexeme(t).Ok() && Lexeme(t).Chars() == Spelling(t) && Lexeme(t).EndsAt(' ')
  {
    forall c
      ensures IsDelimiter(c) == !InWord(c) && IsNumeric(c) == ('0' <= c <= '9')
    {
      Characters(c);
    }
  }

  lemma SpaceIsItem()
    ensures Blank(' ').Ok() && Blank(' ').Chars() == " " && forall d :: Blank(' ').EndsAt(d)
  {
  }

  lemma SpelledConcat(a: seq<Token>, b: seq<Token>)
    requires AllSpelled(a) && AllSpelled(b)
    ensures AllSpelled(a + b)
  {
    hide Lexable;
  }

  /** Identifiers are words that are no keywords. */
  predicate WellNamed(e: Expr) {
    match e
    case Identifier(name, _, _) => Lexable(Token(IDENT, name))
    case Binary(_, l, r, _) => WellNamed(l) && WellNamed(r)
    case Unary(_, x, _) => WellNamed(x)
    case Call(c, _) => WellNamed(c)
    case _ => true
  }

  predicate NamedFunction(f: FunctionDefinition) {
    && Lexable(Token(IDENT, f.name)) && (f.tail.Some? ==> WellNamed(f.tail.value))
    && (forall i :: 0 <= i < |f.statements| && f.statements[i].Some? ==> WellNamed(f.statements[i].value))
  }

  /** A program that can be written down. */
  predicate CanBeWritten(defs: seq<FunctionDefinition>) {
    forall k :: 0 <= k < |defs| ==> defs[k].Fresh() && Writable(defs[k].returnType) && NamedFunction(defs[k])
  }

  lemma FixedTokens()
    ensures AllSpelled([OPEN]) && AllSpelled([CLOSE]) && AllSpelled([OPEN, CLOSE]) && AllSpelled([])
    ensures forall op :: AllSpelled([BinaryToken(op)])
    ensures forall op :: AllSpelled([UnaryToken(op)])
    ensures AllSpelled([RETURN]) && AllSpelled([FN]) && AllSpelled([SEMI]) && AllSpelled([ARROW])
    ensures AllSpelled([BEGIN]) && AllSpelled([FINISH])
  {
  }

  lemma LiteralSpelled(raw: nat, t: FrontendType)
    requires t.IsInteger() && !t.UnresolvedInt?
    ensures AllSpelled([Token(INT_LITERAL, Decimal(raw) + TypeName(t))])
  {
    hide Digits;
    SmallBaseNumeric(raw, 10);
  }

  lemma {:induction false} MinimalSpelled(e: Expr, level: nat)
    requires e.Fresh() && WellNamed(e) && level <= PRIMARY
    ensures AllSpelled(Minimal(e, level).Flat())
    decreases e, 1
  {
    hide Bare, AllSpelled, Written.Level;
    BareSpelled(e);
    FixedTokens();
    var bare := Bare(e).Flat();
    SpelledConcat([OPEN], bare);
    SpelledConcat([OPEN] + bare, [CLOSE]);
  }

  lemma {:induction false} BareSpelled(e: Expr)
    requires e.Fresh() && WellNamed(e)
    ensures AllSpelled(Bare(e).Flat())
    decreases e, 0
  {
    hide Minimal, AllSpelled, Lexable, BinaryLevel, BinaryToken, UnaryToken, LeftLevel;
    FixedTokens();
    match e
    case IntegerLiteral(raw, annotation) => LiteralSpelled(raw, annotation);
    case BooleanLiteral(b) => BooleanSpelled(b);
    case Identifier(name, _, _) => OneSpelled(Token(IDENT, name));
    case Binary(op, l, r, _) =>
      MinimalSpelled(l, LeftLevel(op));
      MinimalSpelled(r, BinaryLevel(op) + 1);
      SpelledConcat(Minimal(l, LeftLevel(op)).Flat(), [BinaryToken(op)]);
      SpelledConcat(Minimal(l, LeftLevel(op)).Flat() + [BinaryToken(op)], Minimal(r, BinaryLevel(op) + 1).Flat());
    case Unary(op, x, _) =>
      MinimalSpelled(x, UNARY);
      SpelledConcat([UnaryToken(op)], Minimal(x, UNARY).Flat());
    case Call(callee, _) =>
      MinimalSpelled(callee, PRIMARY);
      SpelledConcat(Minimal(callee, PRIMARY).Flat(), [OPEN, CLOSE]);
  }

  lemma BooleanSpelled(b: bool)
    ensures AllSpelled([Token(if b then KEYWORD_TRUE else KEYWORD_FALSE, "")])
  {
  }

  lemma OneSpelled(t: Token)
    requires Lexable(t)
    ensures AllSpelled([t])
  {
  }

  lemma OptionSpelled(e: Option<Expr>)
    requires e.Some? ==> e.value.Fresh() && WellNamed(e.value)
    ensures AllSpelled(Flat(MinimalOption(e)))
  {
    hide AllSpelled, Minimal, Written.Flat;
    FixedTokens();
    if e.Some? { MinimalSpelled(e.value, 0); }
  }

  lemma {:induction false} StatementsSpelled(ss: seq<Option<Written>>)
    requires forall i :: 0 <= i < |ss| ==> AllSpelled(Flat(ss[i]))
    ensures AllSpelled(FlatStatements(ss))
    decreases |ss|
  {
    hide AllSpelled, Flat;
    FixedTokens();
    if ss == [] {
    } else {
      StatementsSpelled(ss[1..]);
      SpelledConcat([RETURN], Flat(ss[0]));
      SpelledConcat([RETURN] + Flat(ss[0]), [SEMI]);
      SpelledConcat([RETURN] + Flat(ss[0]) + [SEMI], FlatStatements(ss[1..]));
    }
  }

  lemma FunctionSpelled(f: FunctionDefinition)
    requires f.Fresh() && Writable(f.returnType) && NamedFunction(f)
    ensures AllSpelled(MinimalFunction(f).Tokens())
  {
    hide AllSpelled, MinimalOption, FlatStatements, Flat, TypeWord, Writable, Lexable;
    var w := MinimalFunction(f);
    FixedTokens();
    forall i | 0 <= i < |f.statements|
      ensures AllSpelled(Flat(w.statements[i]))
    {
      OptionSpelled(f.statements[i]);
    }
    StatementsSpelled(w.statements);
    OptionSpelled(f.tail);
    SpelledConcat(FlatStatements(w.statements), Flat(w.tail));
    SpelledConcat(FlatStatements(w.statements) + Flat(w.tail), [FINISH]);
    OneSpelled(Token(IDENT, f.name));
    SpelledConcat([FN], [Token(IDENT, f.name)]);
    SpelledConcat([FN] + [Token(IDENT, f.name)], [OPEN, CLOSE]);
    ArrowSpelled(f);
    var start := [FN] + [Token(IDENT, f.name)] + [OPEN, CLOSE];
    SpelledConcat(start, w.FlatArrow());
    SpelledConcat(start + w.FlatArrow(), [BEGIN]);
    assert w.FlatSignature() == start + w.FlatArrow() + [BEGIN];
    SpelledConcat(w.FlatSignature(), w.FlatBody());
  }

  lemma ArrowSpelled(f: FunctionDefinition)
    requires f.Fresh() && Writable(f.returnType)
    ensures AllSpelled(MinimalFunction(f).FlatArrow())
  {
    hide MinimalOption;
  }

  lemma {:induction false} AllFunctionsSpelled(fs: seq<WrittenFunction>)
    requires forall k :: 0 <= k < |fs| ==> AllSpelled(fs[k].Tokens())
    ensures AllSpelled(AllTokensOf(fs))
    decreases |fs|
  {
    hide AllSpelled, WrittenFunction.Tokens;
    FixedTokens();
    if fs == [] {
    } else {
      AllFunctionsSpelled(fs[1..]);
      SpelledConcat(fs[0].Tokens(), AllTokensOf(fs[1..]));
    }
  }

  /** Every program whose names are words and whose types have names has a text: its rendered tokens, each
      followed by a space. */
  lemma HasText(defs: seq<FunctionDefinition>)
    requires CanBeWritten(defs)
    ensures IsProgramText(Spell(RenderProgram(defs)), defs)
  {
    hide AllSpelled, Spell, AllTokensOf, MinimalFunction, WrittenFunction.Tokens, FunctionDefinition.Fresh, Writable;
    hide NamedFunction, Spelled, Writes;
    MinimalAllWrites(defs);
    var fs := MinimalAll(defs);
    forall k | 0 <= k < |defs|
      ensures AllSpelled(fs[k].Tokens())
    {
      FunctionSpelled(defs[k]);
    }
    AllFunctionsSpelled(fs);
    SpellSpells(AllTokensOf(fs));
    assert Spells(Spell(AllTokensOf(fs)), AllTokensOf(fs));
  }
}
