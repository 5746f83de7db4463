/** Texts as they are written: tokens, with blanks and comments around them. Which texts the lexer reads, and as
    which tokens, is described here in characters of their own, apart from how the lexer goes about it. */
module Lexemes {
  import opened Results
  import opened Tokens
  import opened Lexing

  /** A tab, a line feed, a vertical tab, a form feed, a carriage return or a space. */
  predicate IsBlank(c: char) {
    c as int == 9 || c as int == 10 || c as int == 11 || c as int == 12 || c as int == 13 || c as int == 32
  }

  predicate InWord(c: char) { '0' <= c <= '9' || 'A' <= c <= 'Z' || 'a' <= c <= 'z' || c == '_' }

  const SYMBOL_CHARS: string := ";()[]{},&|^~<>=!+-*/%"

  /** What the end of a text, or a byte that is taken for it, looks like. */
  const LAST: char := '\U{FF}'

  function FirstOf(s: string): char { if s == "" then LAST else s[0] }

  predicate IsWritten(word: string) { word != "" && forall i :: 0 <= i < |word| ==> InWord(word[i]) }

  /** A piece of a text. */
  datatype Item = Blank(c: char) | Comment(body: string) | Lexeme(token: Token) {

    predicate Ok() {
      match this
      case Blank(c) => IsBlank(c)
      case Comment(body) => '\n' !in body
      case Lexeme(t) =>
        match t.kind
        case IDENT =>
          IsWritten(t.str) && !('0' <= t.str[0] <= '9') && t.str !in {"true", "false", "fn", "return"}
        case INT_LITERAL => IsWritten(t.str) && '0' <= t.str[0] <= '9'
        case ERROR_UNEXPECTED_CHAR => |t.str| == 1 && IsStray(t.str[0])
        case END_OF_FILE | COLON | UNFINISHED => false
        case _ => t.str == ""
    }

    function Chars(): string {
      match this
      case Blank(c) => [c]
      case Comment(body) => "//" + body + "\n"
      case Lexeme(t) => if t.kind == ERROR_UNEXPECTED_CHAR then t.str else Spelling(t)
    }

    /** Before this character the piece ends: it does not become part of a longer one. */
    predicate EndsAt(next: char) {
      Lexeme? ==>
        match token.kind
        case IDENT | INT_LITERAL | KEYWORD_TRUE | KEYWORD_FALSE | KEYWORD_FN | KEYWORD_RETURN => !InWord(next)
        case AND => next != '&'
        case OR => next != '|'
        case LESS => next != '<' && next != '='
        case GREATER => next != '>' && next != '='
        case EQUAL | EXCLAMATION => next != '='
        case MINUS => next != '>'
        case FORWARD_SLASH => next != '/'
        case _ => true
    }
  }

  predicate IsStray(c: char) { !IsBlank(c) && !InWord(c) && c !in SYMBOL_CHARS && c != LAST }

  function Text(items: seq<Item>): string {
    if items == [] then "" else items[0].Chars() + Text(items[1..])
  }

  /** The token of a piece, if it is one. */
  function TokenOf(i: Item): seq<Token> { if i.Lexeme? then [i.token] else [] }

  function TokensOf(items: seq<Item>): seq<Token> {
    if items == [] then []
    else TokenOf(items[0]) + TokensOf(items[1..])
  }

  /** Every piece is well formed, and ends where the next one begins. */
  predicate Separated(items: seq<Item>, rest: string) {
    items == [] ||
    (items[0].Ok() && items[0].EndsAt(FirstOf(Text(items[1..]) + rest)) && Separated(items[1..], rest))
  }

  /** The text consists of these tokens, somehow separated, and then of the rest. */
  ghost predicate Spelled(s: string, ts: seq<Token>, rest: string) {
    exists items :: Separated(items, rest) && s == Text(items) + rest && TokensOf(items) == ts
  }

  /** Nothing follows, or a byte that is taken for the end. */
  predicate AtEnd(rest: string) { rest == "" || rest[0] == LAST }

  /** The text consists of these tokens up to its first end. */
  ghost predicate Spells(s: string, ts: seq<Token>) {
    exists rest :: AtEnd(rest) && Spelled(s, ts, rest)
  }

  // ---- the characters ----------------------------------------------------------------------

  lemma Characters(c: char)
    ensures IsWhitespace(c) == IsBlank(c) && IsDelimiter(c) == !InWord(c) && IsNumeric(c) == ('0' <= c <= '9')
  {
  }

  /** A stray character is a token of its own, and no other character is. */
  lemma StrayIff(c: char, next: char)
    requires !IsBlank(c) && !InWord(c) && c != LAST
    ensures Symbol(c, next).0 == ERROR_UNEXPECTED_CHAR <==> IsStray(c)
    ensures Symbol(c, next).0 == ERROR_UNEXPECTED_CHAR ==> Symbol(c, next).1 == 1
  {
  }

  /** A symbol of one or two characters, before a character that does not make it longer. */
  lemma SymbolIff(t: Token, c: char, next: char)
    requires Lexeme(t).Ok() && t.kind != ERROR_UNEXPECTED_CHAR && !InWord(Spelling(t)[0])
    requires c == Spelling(t)[0]
    requires if |Spelling(t)| == 2 then next == Spelling(t)[1] else |Spelling(t)| == 1 && Lexeme(t).EndsAt(next)
    ensures Symbol(c, next) == (t.kind, |Spelling(t)|) && t.str == ""
    ensures !IsBlank(c) && c != LAST && !(c == '/' && next == '/')
  {
  }

  // ---- one piece ---------------------------------------------------------------------------

  lemma NextBlank(s: string)
    requires s != "" && IsBlank(s[0])
    ensures Next(s) == Next(s[1..])
  {
    hide Symbol, WordLength, AfterNewline, WordToken, IsDelimiter;
    Characters(s[0]);
    var t := s[1..];
    if t == "" {
      assert t[0..] == "";
    } else if IsWhitespace(t[0]) {
      assert t[WhitespaceLength(t)..] == t[1..][WhitespaceLength(t[1..])..];
      BlankIsPlain(t[0]);
    } else {
      assert t[0..] == t;
    }
  }

  lemma BlankIsPlain(c: char)
    requires IsWhitespace(c)
    ensures c != EOF_CHAR && c != '/'
  {
  }

  lemma {:induction false} NewlineAfter(body: string, more: string)
    requires '\n' !in body
    ensures AfterNewline(body + "\n" + more) == Some(|body| + 1)
  {
    var s := body + "\n" + more;
    if body == "" {
      assert s[0] == '\n';
    } else {
      assert s[0] == body[0] && s[1..] == body[1..] + "\n" + more;
      NewlineAfter(body[1..], more);
    }
  }

  lemma NextComment(body: string, more: string)
    requires '\n' !in body
    ensures Next("//" + body + "\n" + more) == Next(more)
  {
    hide Symbol, WordLength, WordToken, AfterNewline;
    var s := "//" + body + "\n" + more;
    assert '\n' !in "/" + body;
    NewlineAfter("/" + body, more);
    assert s[0] == '/' && s[1] == '/' && s[1..] == ("/" + body) + "\n" + more;
    assert s[1..][|body| + 2..] == more;
  }

  lemma NextLexeme(t: Token, more: string)
    requires Lexeme(t).Ok() && Lexeme(t).EndsAt(FirstOf(more))
    ensures Lexeme(t).Chars() != "" && Next(Lexeme(t).Chars() + more) == Some((t, more)) && t != STUCK && t != END
  {
    hide Next, Symbol, Spelling, SYMBOL_CHARS;
    var chars := Lexeme(t).Chars();
    Characters(FirstOf(more));
    if t.kind in {IDENT, INT_LITERAL, KEYWORD_TRUE, KEYWORD_FALSE, KEYWORD_FN, KEYWORD_RETURN} {
      WordSpelled(t);
      NextOfWord(chars, more);
    } else if t.kind == ERROR_UNEXPECTED_CHAR {
      NextStray(t.str[0], more);
      assert chars == [t.str[0]];
    } else {
      NextSymbol(t, more);
    }
  }

  lemma WordSpelled(t: Token)
    requires Lexeme(t).Ok()
    requires t.kind in {IDENT, INT_LITERAL, KEYWORD_TRUE, KEYWORD_FALSE, KEYWORD_FN, KEYWORD_RETURN}
    ensures IsWord(Lexeme(t).Chars()) && WordToken(Lexeme(t).Chars()) == t
  {
    forall c | InWord(c)
      ensures !IsDelimiter(c)
    {
      Characters(c);
    }
  }

  lemma NextStray(c: char, more: string)
    requires IsStray(c)
    ensures Next([c] + more) == Some((Token(ERROR_UNEXPECTED_CHAR, [c]), more))
  {
    hide Symbol, WordLength, WhitespaceLength, AfterNewline, WordToken, IsWhitespace, IsDelimiter;
    var s := [c] + more;
    Characters(c);
    StrayIff(c, PeekChar(s[1..]));
    StrayNoSlash(c);
    assert s[1..] == more;
  }

  lemma StrayNoSlash(c: char)
    requires IsStray(c)
    ensures c != '/' && c != EOF_CHAR
  {
  }

  lemma NextSymbol(t: Token, more: string)
    requires Lexeme(t).Ok() && t.kind != ERROR_UNEXPECTED_CHAR && Lexeme(t).EndsAt(FirstOf(more))
    requires t.kind !in {IDENT, INT_LITERAL, KEYWORD_TRUE, KEYWORD_FALSE, KEYWORD_FN, KEYWORD_RETURN}
    ensures Next(Spelling(t) + more) == Some((t, more))
  {
    hide Symbol, WordLength, WhitespaceLength, AfterNewline, WordToken, IsWhitespace, IsDelimiter, Spelling;
    var s, n := Spelling(t) + more, |Spelling(t)|;
    SymbolSpelled(t);
    Characters(s[0]);
    assert s[n..] == more;
    if n == 2 {
      assert PeekChar(s[1..]) == Spelling(t)[1];
    } else {
      assert s[1..] == more;
    }
    SymbolIff(t, s[0], PeekChar(s[1..]));
  }

  lemma SymbolSpelled(t: Token)
    requires Lexeme(t).Ok() && t.kind != ERROR_UNEXPECTED_CHAR
    requires t.kind !in {IDENT, INT_LITERAL, KEYWORD_TRUE, KEYWORD_FALSE, KEYWORD_FN, KEYWORD_RETURN}
    ensures 1 <= |Spelling(t)| <= 2 && !InWord(Spelling(t)[0])
  {
  }

  // ---- what is written is read -------------------------------------------------------------

  /** Skipping to another text with the same next token. */
  lemma SkipTo(s: string, s': string)
    requires s != "" && Next(s) == Next(s')
    ensures Stream(s) == Stream(s') && AllTokens(s) == AllTokens(s')
  {
    hide Next;
    if s' == "" { NextOfNothing(); }
  }

  lemma NothingRead(rest: string)
    requires AtEnd(rest)
    ensures Stream(rest) == [] && AllTokens(rest) == if |rest| <= 1 then Some([]) else None
  {
    hide Next;
    if rest != "" { NextOfEndByte(rest); }
  }

  lemma ReadOne(s: string, t: Token, more: string)
    requires s != "" && Next(s) == Some((t, more)) && t != END
    ensures Stream(s) == [t] + Stream(more)
    ensures AllTokens(s) == if AllTokens(more).None? then None else Some([t] + AllTokens(more).value)
  {
    hide Next;
  }

  lemma ReadItem(i: Item, more: string)
    requires i.Ok() && i.EndsAt(FirstOf(more))
    ensures Stream(i.Chars() + more) == TokenOf(i) + Stream(more) && STUCK !in TokenOf(i)
    ensures AllTokens(i.Chars() + more) ==
            if AllTokens(more).None? then None else Some(TokenOf(i) + AllTokens(more).value)
  {
    hide Next, Stream, AllTokens, Spelling;
    var s := i.Chars() + more;
    assert [] + Stream(more) == Stream(more);
    if AllTokens(more).Some? { assert [] + AllTokens(more).value == AllTokens(more).value; }
    match i
    case Blank(c) =>
      assert s[1..] == more;
      NextBlank(s);
      SkipTo(s, more);
    case Comment(body) =>
      NextComment(body, more);
      SkipTo(s, more);
    case Lexeme(t) =>
      NextLexeme(t, more);
      ReadOne(s, t, more);
  }

  /** Whatever separates them, the tokens are read, and nothing but them. */
  lemma {:induction false} ReadsItems(items: seq<Item>, rest: string)
    requires Separated(items, rest) && AtEnd(rest)
    ensures Stream(Text(items) + rest) == TokensOf(items) && STUCK !in TokensOf(items)
    ensures AllTokens(Text(items) + rest) == if |rest| <= 1 then Some(TokensOf(items)) else None
    decreases |items|
  {
    hide Next, Item.Ok, Item.EndsAt, Item.Chars, Stream, AllTokens, FirstOf;
    if items == [] {
      assert Text(items) + rest == rest;
      NothingRead(rest);
    } else {
      var i, more := items[0], Text(items[1..]) + rest;
      assert Text(items) + rest == i.Chars() + more;
      ReadsItems(items[1..], rest);
      ReadItem(i, more);
    }
  }

  // ---- what is read was written ------------------------------------------------------------

  /** A text that the lexer gets through consists of the tokens it finds there. */
  lemma {:induction false} ItemsOf(s: string) returns (items: seq<Item>, rest: string)
    requires STUCK !in Stream(s)
    ensures Separated(items, rest) && AtEnd(rest) && s == Text(items) + rest && TokensOf(items) == Stream(s)
    decreases |s|
  {
    hide Next, Item.Ok, Item.EndsAt, Item.Chars, Stream, FirstOf, TokenOf;
    if AtEnd(s) {
      items, rest := [], s;
      NothingRead(s);
      assert Text([]) + s == s;
    } else {
      var item, more := FirstItem(s);
      items, rest := ItemsOf(more);
      var tail := items;
      items := [item] + tail;
      assert items[1..] == tail;
    }
  }

  /** The first piece of a text. */
  lemma FirstItem(s: string) returns (item: Item, more: string)
    requires !AtEnd(s) && STUCK !in Stream(s)
    ensures s == item.Chars() + more && |more| < |s| && item.Ok() && item.EndsAt(FirstOf(more))
    ensures Stream(s) == TokenOf(item) + Stream(more) && STUCK !in Stream(more)
  {
    hide Next, Symbol, Spelling, SYMBOL_CHARS, AfterNewline, WordLength;
    var c, t := s[0], s[1..];
    Characters(c);
    if IsBlank(c) {
      item, more := Blank(c), t;
      NextBlank(s);
      SkipTo(s, t);
    } else if c == '/' && PeekChar(t) == '/' {
      var body: string;
      body, more := CommentParts(s);
      item := Comment(body);
      NextComment(body, more);
      SkipTo(s, more);
    } else if InWord(c) {
      var n := 1 + WordLength(t);
      more := s[n..];
      item := Lexeme(WordToken(s[..n]));
      WordItem(s);
      NextLexeme(item.token, more);
      StreamStep(s, item.token, more);
    } else {
      var token: Token;
      token, more := SymbolItem(s);
      item := Lexeme(token);
      NextLexeme(token, more);
      StreamStep(s, token, more);
    }
  }

  lemma StreamStep(s: string, t: Token, more: string)
    requires Next(s) == Some((t, more)) && s != "" && t != END && STUCK !in Stream(s)
    ensures Stream(s) == [t] + Stream(more) && STUCK !in Stream(more)
  {
    hide Next;
  }

  /** A comment that is left. */
  lemma CommentParts(s: string) returns (body: string, more: string)
    requires |s| >= 2 && s[0] == '/' && s[1] == '/' && STUCK !in Stream(s)
    ensures s == "//" + body + "\n" + more && '\n' !in body
  {
    hide Symbol, WordLength, WhitespaceLength, WordToken;
    var t := s[1..];
    if AfterNewline(t).None? { OpenComment(s); }
    var n := AfterNewline(t).value;
    NewlineAt(t);
    body, more := t[1..n - 1], t[n..];
    assert t == "/" + body + "\n" + more;
  }

  lemma OpenComment(s: string)
    requires |s| >= 2 && s[0] == '/' && s[1] == '/' && AfterNewline(s[1..]).None?
    ensures STUCK in Stream(s)
  {
    hide Symbol, WordLength, WhitespaceLength, WordToken, AfterNewline;
    assert Next(s) == None;
  }

  lemma {:induction false} NewlineAt(s: string)
    requires AfterNewline(s).Some?
    ensures var n := AfterNewline(s).value; s[n - 1] == '\n' && '\n' !in s[..n - 1]
  {
    if s[0] == '\n' {
    } else {
      NewlineAt(s[1..]);
      var n := AfterNewline(s).value;
      assert s[..n - 1] == [s[0]] + s[1..][..n - 2];
    }
  }

  lemma WordItem(s: string)
    requires s != "" && InWord(s[0])
    ensures var n := 1 + WordLength(s[1..]);
            && n <= |s| && var i := Lexeme(WordToken(s[..n]));
            && i.Ok() && i.Chars() == s[..n] && i.EndsAt(FirstOf(s[n..])) && s == s[..n] + s[n..]
  {
    hide WordLength;
    var n := 1 + WordLength(s[1..]);
    assert s[1..][n - 1..] == s[n..];
    Characters(FirstOf(s[n..]));
    forall i | 0 <= i < n
      ensures InWord(s[i])
    {
      Characters(s[i]);
      if i > 0 { assert s[1..][i - 1] == s[i]; }
    }
    Characters(s[0]);
    WordKinds(s[..n]);
  }

  lemma WordKinds(word: string)
    requires IsWritten(word)
    ensures var i := Lexeme(WordToken(word));
            && i.Ok() && i.Chars() == word
            && i.token.kind in {IDENT, INT_LITERAL, KEYWORD_TRUE, KEYWORD_FALSE, KEYWORD_FN, KEYWORD_RETURN}
  {
  }

  lemma SymbolItem(s: string) returns (t: Token, more: string)
    requires s != "" && !IsBlank(s[0]) && !InWord(s[0]) && s[0] != LAST && !(s[0] == '/' && PeekChar(s[1..]) == '/')
    ensures Lexeme(t).Ok() && s == Lexeme(t).Chars() + more && Lexeme(t).EndsAt(FirstOf(more)) && |more| < |s|
  {
    hide Symbol, Spelling, SYMBOL_CHARS, Item.Ok, Item.EndsAt;
    var c, next := s[0], PeekChar(s[1..]);
    StrayIff(c, next);
    SymbolKinds(c, next);
    var n := Symbol(c, next).1;
    t := Token(Symbol(c, next).0, if Symbol(c, next).0 == ERROR_UNEXPECTED_CHAR then [c] else "");
    more := s[n..];
    assert s == s[..n] + s[n..];
    if n == 2 { SecondThere(c, next); }
    assert s[..n] == if n == 1 then [c] else [c, next];
  }

  lemma SecondThere(c: char, next: char)
    requires Symbol(c, next).1 == 2
    ensures next != LAST
  {
  }

  /** The lexer takes the longest symbol there is. */
  lemma SymbolKinds(c: char, next: char)
    requires !IsBlank(c) && !InWord(c) && c != LAST && !(c == '/' && next == '/')
    ensures var (kind, n) := Symbol(c, next);
            var i := Lexeme(Token(kind, if kind == ERROR_UNEXPECTED_CHAR then [c] else ""));
            && i.Ok() && i.Chars() == (if n == 1 then [c] else [c, next]) && (n == 1 ==> i.EndsAt(next))
            && (n == 2 ==> forall d :: i.EndsAt(d))
  {
    hide Spelling, SYMBOL_CHARS, IsBlank, Symbol, Item.EndsAt;
    StrayIff(c, next);
    SymbolEnds(c, next);
    SymbolIsLexeme(c, next);
    if Symbol(c, next).0 != ERROR_UNEXPECTED_CHAR {
      SymbolChars(c, next);
    }
  }

  lemma SymbolIsLexeme(c: char, next: char)
    ensures Symbol(c, next).0 != ERROR_UNEXPECTED_CHAR ==> Lexeme(Token(Symbol(c, next).0, "")).Ok()
  {
  }

  lemma SymbolEnds(c: char, next: char)
    requires !(c == '/' && next == '/')
    ensures var (kind, n) := Symbol(c, next);
            var i := Lexeme(Token(kind, if kind == ERROR_UNEXPECTED_CHAR then [c] else ""));
            (n == 1 ==> i.EndsAt(next)) && (n == 2 ==> forall d :: i.EndsAt(d))
  {
    hide IsBlank;
  }

  lemma SymbolChars(c: char, next: char)
    requires Symbol(c, next).0 != ERROR_UNEXPECTED_CHAR
    ensures var (kind, n) := Symbol(c, next);
            Spelling(Token(kind, "")) == if n == 1 then [c] else [c, next]
  {
    hide IsBlank, Symbol, Spelling;
    if Symbol(c, next).1 == 1 {
      OneChar(c, next);
    } else {
      TwoChars(c, next);
    }
  }

  lemma OneChar(c: char, next: char)
    requires Symbol(c, next).0 != ERROR_UNEXPECTED_CHAR && Symbol(c, next).1 == 1
    ensures Spelling(Token(Symbol(c, next).0, "")) == [c]
  {
  }

  lemma TwoChars(c: char, next: char)
    requires Symbol(c, next).1 == 2
    ensures Spelling(Token(Symbol(c, next).0, "")) == [c, next]
  {
  }

  // ---- the theorems ------------------------------------------------------------------------

  /** Exactly which texts are read as which tokens, up to the first end: those that consist of these tokens,
      separated by any blanks and by any comments that end in a newline, or by nothing where two tokens do not
      run into one. */
  lemma StreamIff(s: string, ts: seq<Token>)
    ensures Stream(s) == ts && STUCK !in ts <==> Spells(s, ts)
  {
    hide Stream, Separated;
    if Stream(s) == ts && STUCK !in ts {
      var items, rest := ItemsOf(s);
      assert Spelled(s, ts, rest);
    }
    if Spells(s, ts) {
      var rest :| AtEnd(rest) && Spelled(s, ts, rest);
      var items :| Separated(items, rest) && s == Text(items) + rest && TokensOf(items) == ts;
      ReadsItems(items, rest);
    }
  }

  /** The same for whole inputs: nothing may follow but one byte that is taken for the end. */
  lemma AllTokensIff(s: string, ts: seq<Token>)
    ensures AllTokens(s) == Some(ts) <==> Spelled(s, ts, "") || Spelled(s, ts, [LAST])
  {
    hide Stream, Separated, AllTokens;
    if AllTokens(s) == Some(ts) {
      StreamIsAll(s);
      AllNotStuck(s);
      var items, rest := ItemsOf(s);
      ReadsItems(items, rest);
      assert rest == "" || rest == [LAST];
      assert Spelled(s, ts, rest);
    }
    if rest: string :| (rest == "" || rest == [LAST]) && Spelled(s, ts, rest) {
      var items :| Separated(items, rest) && s == Text(items) + rest && TokensOf(items) == ts;
      ReadsItems(items, rest);
    }
  }

  lemma {:induction false} AllNotStuck(s: string)
    requires AllTokens(s).Some?
    ensures STUCK !in AllTokens(s).value
    decreases |s|
  {
    hide Next;
    NextIsToken(s);
    if s == "" {
    } else if Next(s).value.0 != END {
      AllNotStuck(Next(s).value.1);
    }
  }
}
