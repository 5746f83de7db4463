/** Characters to tokens. A char stands for a byte. */
module Lexing {
  import opened Results
  import opened Tokens

  /** What the end of the stream looks like to a char: the byte 0xFF looks the same. */
  const EOF_CHAR := '\U{FF}'

  predicate IsWhitespace(c: char) { 9 as char <= c <= 13 as char || c == ' ' }

  predicate IsNumeric(c: char) { '0' <= c <= '9' }

  predicate IsAlpha(c: char) { 'a' <= c <= 'z' || 'A' <= c <= 'Z' }

  predicate IsDelimiter(c: char) { !IsNumeric(c) && !IsAlpha(c) && c != '_' }

  function PeekChar(s: string): char { if s == "" then EOF_CHAR else s[0] }

  /** The length of the longest prefix of whitespace, or of a word. */
  function WhitespaceLength(s: string): (n: nat)
    ensures n <= |s| && !IsWhitespace(PeekChar(s[n..]))
    ensures forall i :: 0 <= i < n ==> IsWhitespace(s[i])
  {
    if s != "" && IsWhitespace(s[0]) then 1 + WhitespaceLength(s[1..]) else 0
  }

  function WordLength(s: string): (n: nat)
    ensures n <= |s| && IsDelimiter(PeekChar(s[n..]))
    ensures forall i :: 0 <= i < n ==> !IsDelimiter(s[i])
  {
    if s != "" && !IsDelimiter(s[0]) then 1 + WordLength(s[1..]) else 0
  }

  /** The position after the first newline, if there is one. */
  function AfterNewline(s: string): (n: Option<nat>)
    ensures n.Some? ==> 0 < n.value <= |s|
  {
    if s == "" then None
    else if s[0] == '\n' then Some(1)
    else
      var n := AfterNewline(s[1..]);
      if n.None? then None else Some(n.value + 1)
  }

  function WordToken(word: string): Token
    requires word != ""
  {
    if IsNumeric(word[0]) then Token(INT_LITERAL, word)
    else if word == "true" then Token(KEYWORD_TRUE, "")
    else if word == "false" then Token(KEYWORD_FALSE, "")
    else if word == "fn" then Token(KEYWORD_FN, "")
    else if word == "return" then Token(KEYWORD_RETURN, "")
    else Token(IDENT, word)
  }

  /** The kind of a token that begins with a character, and the number of characters it takes. */
  function Symbol(c: char, next: char): (r: (TokenType, nat))
    ensures 1 <= r.1 <= 2 && (r.1 == 2 ==> next in "&|<=>") && r.0 != END_OF_FILE
  {
    match c
    case ';' => (SEMICOLON, 1)
    case '(' => (L_PAREN, 1)
    case ')' => (R_PAREN, 1)
    case '[' => (L_SQR_BRACKET, 1)
    case ']' => (R_SQR_BRACKET, 1)
    case '{' => (L_CURLY_BRACKET, 1)
    case '}' => (R_CURLY_BRACKET, 1)
    case ',' => (COMMA, 1)
    case '&' => if next == '&' then (AND_AND, 2) else (AND, 1)
    case '|' => if next == '|' then (OR_OR, 2) else (OR, 1)
    case '^' => (CARET, 1)
    case '~' => (TILDE, 1)
    case '<' => if next == '<' then (LESS_LESS, 2) else if next == '=' then (LESS_EQUAL, 2) else (LESS, 1)
    case '>' => if next == '>' then (GREATER_GREATER, 2) else if next == '=' then (GREATER_EQUAL, 2) else (GREATER, 1)
    case '=' => if next == '=' then (EQUAL_EQUAL, 2) else (EQUAL, 1)
    case '!' => if next == '=' then (EXCLAMATION_EQUAL, 2) else (EXCLAMATION, 1)
    case '+' => (PLUS, 1)
    case '-' => if next == '>' then (THIN_ARROW, 2) else (MINUS, 1)
    case '*' => (ASTERISK, 1)
    case '/' => (FORWARD_SLASH, 1)
    case '%' => (PERCENT, 1)
    case _ => (ERROR_UNEXPECTED_CHAR, 1)
  }

  /** The next token and what follows it. None for a comment without a newline, which is never left. */
  function Next(s: string): (r: Option<(Token, string)>)
    ensures r.Some? ==> (if s == "" then r.value == (END, "") else |r.value.1| < |s|)
    decreases |s|
  {
    if s == "" then Some((END, ""))
    else
      var c, t := s[0], s[1..];
      if c == EOF_CHAR then Some((END, t))
      else if c == '/' && PeekChar(t) == '/' then
        var n := AfterNewline(t);
        if n.None? then None else Next(t[n.value..])
      else if IsWhitespace(c) then Next(t[WhitespaceLength(t)..])
      else if !IsDelimiter(c) then
        var n := 1 + WordLength(t);
        Some((WordToken(s[..n]), s[n..]))
      else
        var (kind, n) := Symbol(c, PeekChar(t));
        Some((Token(kind, if kind == ERROR_UNEXPECTED_CHAR then [c] else ""), s[n..]))
  }

  /** The tokens up to the first end, as a reader meets them: the true end or a byte 0xFF that is taken for
      it. The last of them is STUCK if a comment before that end is never left. */
  function Stream(s: string): seq<Token>
    decreases |s|
  {
    if s == "" then []
    else
      var next := Next(s);
      if next.None? then [STUCK]
      else if next.value.0 == END then []
      else [next.value.0] + Stream(next.value.1)
  }

  /** The tokens up to the end of the input. None when lexing does not come to the end: at a comment that is
      never left, and at a byte 0xFF that is taken for the end. */
  function AllTokens(s: string): Option<seq<Token>>
    decreases |s|
  {
    if s == "" then Some([])
    else
      var next := Next(s);
      if next.None? then None
      else if next.value.0 == END then
        if next.value.1 == "" then Some([]) else None
      else
        var more := AllTokens(next.value.1);
        if more.None? then None else Some([next.value.0] + more.value)
  }

  // ---- reaching the end --------------------------------------------------------------------

  /** On the raw characters: every line comment ends in a newline, up to the first byte 0xFF outside comments;
      and, unless lenient, that byte is the last one. */
  predicate Ends(s: string, lenient: bool)
    decreases |s|
  {
    if s == "" then true
    else if s[0] == EOF_CHAR then lenient || |s| == 1
    else if s[0] == '/' && PeekChar(s[1..]) == '/' then
      var n := AfterNewline(s[1..]);
      n.Some? && Ends(s[1 + n.value..], lenient)
    else Ends(s[1..], lenient)
  }

  predicate EndsCleanly(s: string) { Ends(s, false) }

  /** Skipping characters that are neither slashes nor the byte 0xFF. */
  lemma {:induction false} SkipPlain(s: string, n: nat, lenient: bool)
    requires n <= |s| && forall i :: 0 <= i < n ==> s[i] != '/' && s[i] != EOF_CHAR
    ensures Ends(s, lenient) <==> Ends(s[n..], lenient)
    decreases n
  {
    if n == 0 {
      assert s[0..] == s;
    } else {
      SkipPlain(s[1..], n - 1, lenient);
      assert s[1..][n - 1..] == s[n..];
    }
  }

  /** How one token bears on the end of the input. */
  predicate NextAgrees(s: string, lenient: bool) {
    match Next(s)
    case None => !Ends(s, lenient)
    case Some((token, rest)) =>
      if token == END then Ends(s, lenient) <==> lenient || rest == ""
      else Ends(s, lenient) <==> Ends(rest, lenient)
  }

  /** One token: lexing comes back exactly when the comments before the token end, and what is required of
      the rest is required of it alone. */
  lemma {:induction false} NextEnds(s: string, lenient: bool)
    ensures NextAgrees(s, lenient)
    decreases |s|
  {
    if s == "" {
      NextOfNothing();
    } else {
      var c, t := s[0], s[1..];
      if c == EOF_CHAR {
        NextOfEndByte(s);
      } else if c == '/' && PeekChar(t) == '/' {
        var n := AfterNewline(t);
        if n.Some? {
          assert t[n.value..] == s[1 + n.value..];
          NextEnds(t[n.value..], lenient);
        }
      } else if IsWhitespace(c) {
        var n := WhitespaceLength(t);
        SkipPlain(t, n, lenient);
        NextEnds(t[n..], lenient);
      } else if !IsDelimiter(c) {
        NextWord(s, lenient);
      } else {
        NextSymbol(s, lenient);
      }
    }
  }

  lemma NextOfNothing()
    ensures Next("") == Some((END, ""))
  {
  }

  lemma NextOfEndByte(s: string)
    requires s != "" && s[0] == EOF_CHAR
    ensures Next(s) == Some((END, s[1..]))
  {
  }

  lemma NextWord(s: string, lenient: bool)
    requires s != "" && !IsDelimiter(s[0])
    ensures NextAgrees(s, lenient)
  {
    hide Symbol, WordLength, WhitespaceLength, AfterNewline, Ends, WordToken;
    var n := 1 + WordLength(s[1..]);
    WordIsNoEnd(s[..n]);
    SkipPlain(s, n, lenient);
  }

  lemma WordIsNoEnd(word: string)
    requires word != ""
    ensures WordToken(word) != END
  {
  }

  lemma NextSymbol(s: string, lenient: bool)
    requires s != "" && IsDelimiter(s[0]) && !IsWhitespace(s[0]) && s[0] != EOF_CHAR
    requires !(s[0] == '/' && PeekChar(s[1..]) == '/')
    ensures NextAgrees(s, lenient)
  {
    hide Symbol, WordLength, WhitespaceLength, AfterNewline, WordToken;
    var n := Symbol(s[0], PeekChar(s[1..])).1;
    SlashAlone(PeekChar(s[1..]));
    if n == 2 {
      SecondIsPlain(s[0], s[1]);
      SkipPlain(s, 2, lenient);
    }
  }

  lemma SlashAlone(next: char)
    ensures Symbol('/', next) == (FORWARD_SLASH, 1)
  {
  }

  lemma SecondIsPlain(c: char, next: char)
    requires Symbol(c, next).1 == 2
    ensures c != '/' && next != '/' && next != EOF_CHAR
  {
  }

  /** Lexing comes to the end of the input exactly when every line comment ends in a newline and no byte 0xFF
      outside comments has anything behind it. */
  lemma {:induction false} ReachesEnd(s: string)
    ensures AllTokens(s).Some? <==> EndsCleanly(s)
    decreases |s|
  {
    hide Next, Ends;
    NextEnds(s, false);
    if s == "" {
      NextOfNothing();
    } else if Next(s).Some? && Next(s).value.0 != END {
      ReachesEnd(Next(s).value.1);
    }
  }

  /** A reader of the tokens gets to the first end exactly when the line comments before it end in newlines. */
  lemma {:induction false} ReachesFirstEnd(s: string)
    ensures STUCK !in Stream(s) <==> Ends(s, true)
    decreases |s|
  {
    hide Next, Ends;
    NextEnds(s, true);
    NextIsToken(s);
    if s == "" {
      NextOfNothing();
    } else if Next(s).Some? && Next(s).value.0 != END {
      ReachesFirstEnd(Next(s).value.1);
    }
  }

  /** The lexer never returns the mark of its own absence. */
  lemma {:induction false} NextIsToken(s: string)
    ensures Next(s).Some? ==> Next(s).value.0.kind != UNFINISHED
    decreases |s|
  {
    hide Symbol;
    if s == "" {
      NextOfNothing();
    } else {
      var t := s[1..];
      SymbolIsToken(s[0], PeekChar(t));
      if s[0] == '/' && PeekChar(t) == '/' {
        if AfterNewline(t).Some? { NextIsToken(t[AfterNewline(t).value..]); }
      } else if IsWhitespace(s[0]) {
        NextIsToken(t[WhitespaceLength(t)..]);
      }
    }
  }

  lemma SymbolIsToken(c: char, next: char)
    ensures Symbol(c, next).0 != UNFINISHED
  {
  }

  /** Without a byte 0xFF the two notions of the end are one: every line comment ends in a newline. */
  lemma {:induction false} WithoutEndByte(s: string)
    requires EOF_CHAR !in s
    ensures Ends(s, true) <==> EndsCleanly(s)
    decreases |s|
  {
    if s == "" {
    } else if s[0] == '/' && PeekChar(s[1..]) == '/' {
      var n := AfterNewline(s[1..]);
      if n.Some? { WithoutEndByte(s[1 + n.value..]); }
    } else {
      WithoutEndByte(s[1..]);
    }
  }

  /** If lexing comes to the end, the stream is all there is. */
  lemma {:induction false} StreamIsAll(s: string)
    requires AllTokens(s).Some?
    ensures Stream(s) == AllTokens(s).value
    decreases |s|
  {
    hide Next;
    if s == "" {
    } else if Next(s).value.0 != END {
      StreamIsAll(Next(s).value.1);
    }
  }

  /** What is left after n tokens have been taken. */
  function After(s: string, n: nat): Option<string>
    decreases n
  {
    if n == 0 then Some(s)
    else
      var next := Next(s);
      if next.None? then None else After(next.value.1, n - 1)
  }

  /** Progress: token n is the n-th of the tokens, and from the last one on every further token is the end. */
  lemma {:induction false} TakesInOrder(s: string, n: nat)
    requires AllTokens(s).Some?
    ensures After(s, n).Some? && Next(After(s, n).value).Some?
    ensures Next(After(s, n).value).value.0 == if n < |AllTokens(s).value| then AllTokens(s).value[n] else END
    decreases n
  {
    hide Next;
    NextOfNothing();
    if n == 0 {
    } else {
      if s == "" || Next(s).value.0 == END {
        EndStays(n - 1);
      } else {
        TakesInOrder(Next(s).value.1, n - 1);
      }
    }
  }

  lemma {:induction false} EndStays(n: nat)
    ensures After("", n) == Some("")
  {
    hide Next;
    NextOfNothing();
    if n == 0 {
    } else {
      EndStays(n - 1);
    }
  }

  /** Why the byte 0xFF is excluded: it is taken for the end although tokens follow. */
  lemma EndByteIsNoEnd()
    ensures Next([EOF_CHAR, ';']) == Some((END, ";")) && Next(";") == Some((Token(SEMICOLON, ""), ""))
  {
    assert [EOF_CHAR, ';'][1..] == ";";
    assert ";"[1..] == "";
  }

  /** Why comments have to end: this one is never left. */
  lemma CommentWithoutEnd()
    ensures Next("//") == None
  {
    assert "//"[1..] == "/" && "/"[1..] == "";
  }

  // ---- round trip --------------------------------------------------------------------------

  predicate IsWord(s: string) { s != "" && forall i :: 0 <= i < |s| ==> !IsDelimiter(s[i]) }

  /** The tokens that can be written down. A colon cannot: the lexer has no character for it. */
  predicate Lexable(t: Token) {
    match t.kind
    case IDENT => IsWord(t.str) && !IsNumeric(t.str[0]) && t.str !in {"true", "false", "fn", "return"}
    case INT_LITERAL => IsWord(t.str) && IsNumeric(t.str[0])
    case END_OF_FILE | COLON | ERROR_UNEXPECTED_CHAR | UNFINISHED => false
    case _ => t.str == ""
  }

  function Spelling(t: Token): string {
    match t.kind
    case IDENT | INT_LITERAL => t.str
    case KEYWORD_TRUE => "true"
    case KEYWORD_FALSE => "false"
    case KEYWORD_FN => "fn"
    case KEYWORD_RETURN => "return"
    case SEMICOLON => ";"
    case L_PAREN => "("
    case R_PAREN => ")"
    case L_SQR_BRACKET => "["
    case R_SQR_BRACKET => "]"
    case L_CURLY_BRACKET => "{"
    case R_CURLY_BRACKET => "}"
    case COMMA => ","
    case THIN_ARROW => "->"
    case AND => "&"
    case AND_AND => "&&"
    case OR => "|"
    case OR_OR => "||"
    case CARET => "^"
    case LESS_LESS => "<<"
    case GREATER_GREATER => ">>"
    case EQUAL_EQUAL => "=="
    case EXCLAMATION_EQUAL => "!="
    case LESS => "<"
    case LESS_EQUAL => "<="
    case GREATER => ">"
    case GREATER_EQUAL => ">="
    case PLUS => "+"
    case MINUS => "-"
    case ASTERISK => "*"
    case FORWARD_SLASH => "/"
    case PERCENT => "%"
    case EXCLAMATION => "!"
    case EQUAL => "="
    case TILDE => "~"
    case _ => ""
  }

  /** The tokens, each followed by a space. */
  function Spell(ts: seq<Token>): string {
    if ts == [] then "" else Spelling(ts[0]) + " " + Spell(ts[1..])
  }

  lemma {:induction false} WordLengthIs(word: string, rest: string)
    requires (forall i :: 0 <= i < |word| ==> !IsDelimiter(word[i])) && IsDelimiter(PeekChar(rest))
    ensures WordLength(word + rest) == |word|
  {
    if word == "" {
      assert word + rest == rest;
    } else {
      assert (word + rest)[1..] == word[1..] + rest;
      WordLengthIs(word[1..], rest);
    }
  }

  lemma NextOfWord(word: string, rest: string)
    requires IsWord(word) && IsDelimiter(PeekChar(rest))
    ensures Next(word + rest) == Some((WordToken(word), rest))
  {
    hide WordToken, Symbol, WordLength, WhitespaceLength, AfterNewline;
    var s := word + rest;
    assert s[0] == word[0] && !IsDelimiter(s[0]);
    assert s[1..] == word[1..] + rest;
    WordLengthIs(word[1..], rest);
    assert s[..|word|] == word && s[|word|..] == rest;
  }

  lemma NextOfSymbol(t: Token, rest: string)
    requires Lexable(t) && t.kind !in {IDENT, INT_LITERAL, KEYWORD_TRUE, KEYWORD_FALSE, KEYWORD_FN, KEYWORD_RETURN}
    ensures Next(Spelling(t) + " " + rest) == Some((t, " " + rest))
  {
    hide WordToken, WordLength, WhitespaceLength, AfterNewline, Symbol, Spelling;
    var s := Spelling(t) + " " + rest;
    SpellingIsSymbol(t);
    var n := |Spelling(t)|;
    assert s[0] == Spelling(t)[0] && s[n..] == " " + rest;
    if n == 1 {
      assert s[1..][0] == ' ';
    } else {
      assert s[1..][0] == Spelling(t)[1];
    }
  }

  /** A symbol is spelled by one or two characters, which the lexer puts together again. */
  lemma SpellingIsSymbol(t: Token)
    requires Lexable(t) && t.kind !in {IDENT, INT_LITERAL, KEYWORD_TRUE, KEYWORD_FALSE, KEYWORD_FN, KEYWORD_RETURN}
    ensures var s := Spelling(t);
            && 1 <= |s| <= 2 && IsDelimiter(s[0]) && !IsWhitespace(s[0]) && s[0] != EOF_CHAR
            && Symbol(s[0], if |s| == 2 then s[1] else ' ') == (t.kind, |s|) && (s[0] == '/' ==> |s| == 1)
            && t.str == "" && t.kind != ERROR_UNEXPECTED_CHAR
  {
  }

  lemma NextOfSpelling(t: Token, rest: string)
    requires Lexable(t)
    ensures Next(Spelling(t) + " " + rest) == Some((t, " " + rest))
  {
    hide Next, Symbol, WordLength, WhitespaceLength, AfterNewline;
    if t.kind in {IDENT, INT_LITERAL, KEYWORD_TRUE, KEYWORD_FALSE, KEYWORD_FN, KEYWORD_RETURN} {
      assert Spelling(t) + " " + rest == Spelling(t) + (" " + rest);
      NextOfWord(Spelling(t), " " + rest);
      assert WordToken(Spelling(t)) == t;
    } else {
      NextOfSymbol(t, rest);
    }
  }

  /** A separating space is skipped. */
  lemma SkipSpace(rest: string)
    requires !IsWhitespace(PeekChar(rest))
    ensures Next(" " + rest) == Next(rest)
  {
    assert (" " + rest)[1..] == rest && rest[0..] == rest;
    assert WhitespaceLength(rest) == 0;
  }

  lemma SpellStarts(ts: seq<Token>)
    requires forall i :: 0 <= i < |ts| ==> Lexable(ts[i])
    ensures !IsWhitespace(PeekChar(Spell(ts)))
  {
    hide Spell, Symbol;
    if ts == [] {
      SpellNothing();
    } else {
      SpellOne(ts);
      SpellingStarts(ts[0]);
      assert Spell(ts)[0] == Spelling(ts[0])[0];
    }
  }

  lemma SpellNothing()
    ensures Spell([]) == ""
  {
  }

  lemma SpellOne(ts: seq<Token>)
    requires ts != []
    ensures Spell(ts) == Spelling(ts[0]) + " " + Spell(ts[1..])
  {
  }

  lemma SpellingStarts(t: Token)
    requires Lexable(t)
    ensures Spelling(t) != "" && !IsWhitespace(Spelling(t)[0])
  {
  }

  /** Lexing what is spelled gives the tokens back. */
  lemma {:induction false} SpellRoundTrip(ts: seq<Token>)
    requires forall i :: 0 <= i < |ts| ==> Lexable(ts[i])
    ensures AllTokens(Spell(ts)) == Some(ts)
    ensures ts != [] ==> AllTokens(" " + Spell(ts)) == Some(ts)
    decreases |ts|
  {
    hide Next, Spell, Spelling, Lexable;
    if ts == [] {
      SpellNothing();
    } else {
      var t, more := ts[0], ts[1..];
      SpellOne(ts);
      NextOfSpelling(t, Spell(more));
      SpellStarts(ts);
      SkipSpace(Spell(ts));
      SpellStarts(more);
      SkipSpace(Spell(more));
      SpellRoundTrip(more);
      LexableIsNoEnd(t);
      SpaceIsNothing();
      if more == [] { SpellNothing(); }
      assert ts == [t] + more;
      assert AllTokens(" " + Spell(more)) == Some(more);
    }
  }

  lemma LexableIsNoEnd(t: Token)
    requires Lexable(t)
    ensures t != END
  {
  }

  /** A trailing space is no token. */
  lemma SpaceIsNothing()
    ensures AllTokens(" ") == Some([]) && " " + "" == " "
  {
    assert " "[1..] == "" && ""[0..] == "";
    assert Next(" ") == Some((END, ""));
  }

  // ---- the lexer ---------------------------------------------------------------------------

  /** The lexer as it works: it reads characters, and holds at most one token that has been peeked at. */
  class Lexer {
    /** The characters not yet read. */
    var input: string
    var done: bool
    var peeked: Option<Token>

    /** The tokens still to be taken, up to the first end. */
    ghost function Pending(): (r: seq<Token>)
      reads this
    {
      if peeked.None? then Stream(input)
      else if peeked.value == END then []
      else [peeked.value] + Stream(input)
    }

    /** The next token is not behind a comment that is never left. */
    ghost predicate Ready() reads this { Head(Pending()) != STUCK }

    constructor (input: string)
      ensures this.input == input && peeked == None && Pending() == Stream(input)
    {
      this.input, done, peeked := input, false, None;
    }

    /** None at the end of the input. */
    method TakeChar() returns (c: Option<char>)
      modifies this`input, this`done
      ensures if old(input) == "" then c == None && input == "" && done
              else c == Some(old(input)[0]) && input == old(input)[1..]
    {
      if done && input == "" { return None; }
      if input == "" {
        done := true;
        return None;
      }
      c := Some(input[0]);
      input := input[1..];
    }

    method SkipComment()
      requires AfterNewline(input).Some?
      modifies this`input, this`done
      ensures input == old(input)[AfterNewline(old(input)).value..]
    {
      ghost var start, n := input, AfterNewline(input).value;
      var c := TakeChar();
      while c != Some('\n')
        invariant |input| <= |start| && input == start[|start| - |input|..]
        invariant if c == Some('\n') then input == start[n..]
                  else AfterNewline(input).Some? && |start| - |input| + AfterNewline(input).value == n
        decreases |input|
      {
        c := TakeChar();
      }
    }

    method SkipWhitespace()
      modifies this`input, this`done
      ensures input == old(input)[WhitespaceLength(old(input))..]
    {
      ghost var start := input;
      while IsWhitespace(PeekChar(input))
        invariant |input| <= |start| && input == start[|start| - |input|..]
        invariant WhitespaceLength(start) == |start| - |input| + WhitespaceLength(input)
        decreases |input|
      {
        var _ := TakeChar();
      }
    }

    method TakeWord(first: char) returns (word: string)
      modifies this`input, this`done
      ensures var n := WordLength(old(input)); word == [first] + old(input)[..n] && input == old(input)[n..]
    {
      ghost var start := input;
      word := [first];
      while !IsDelimiter(PeekChar(input))
        invariant |input| <= |start| && input == start[|start| - |input|..] &&
                  word == [first] + start[..|start| - |input|]
        invariant WordLength(start) == |start| - |input| + WordLength(input)
        decreases |input|
      {
        word := word + [input[0]];
        var _ := TakeChar();
      }
    }

    /** Takes the next token from the characters. */
    method Scan() returns (t: Token)
      requires Next(input).Some?
      modifies this`input, this`done
      ensures Some((t, input)) == Next(old(input))
      decreases |input|
    {
      hide WordLength, WhitespaceLength, AfterNewline, Symbol, WordToken;
      var start := input;
      var c := TakeChar();
      if c.None? || c.value == EOF_CHAR {
        t := END;
      } else if c.value == '/' && PeekChar(input) == '/' {
        SkipComment();
        t := Scan();
      } else if IsWhitespace(c.value) {
        SkipWhitespace();
        t := Scan();
      } else if !IsDelimiter(c.value) {
        var word := TakeWord(c.value);
        WordParts(start);
        t := WordToken(word);
      } else {
        var symbol := Symbol(c.value, PeekChar(input));
        if symbol.1 == 2 { var _ := TakeChar(); }
        t := Token(symbol.0, if symbol.0 == ERROR_UNEXPECTED_CHAR then [c.value] else "");
      }
    }

    /** The next token, which is consumed. */
    method Take() returns (t: Token)
      requires Ready()
      modifies this
      ensures peeked == None && t == Head(old(Pending()))
      ensures if old(peeked).Some? then t == old(peeked).value && input == old(input)
              else Some((t, input)) == Next(old(input))
      ensures t != END ==> Pending() == Rest(old(Pending()))
    {
      hide Next;
      NextOfNothing();
      if peeked.Some? {
        t := peeked.value;
        peeked := None;
        return;
      }
      t := Scan();
    }

    /** The next token, which stays. */
    method Peek() returns (t: Token)
      requires Ready()
      modifies this
      ensures peeked == Some(t) && t == Head(old(Pending())) && Pending() == old(Pending())
      ensures if old(peeked).Some? then t == old(peeked).value && input == old(input)
              else Some((t, input)) == Next(old(input))
    {
      hide Next;
      NextOfNothing();
      if peeked.None? {
        var taken := Scan();
        peeked := Some(taken);
      }
      t := peeked.value;
    }

    /** The next token, if it is of this kind. */
    method Expect(kind: TokenType) returns (r: Result<Token>)
      requires Ready()
      modifies this
      ensures var t := Head(old(Pending())); r == if t.kind == kind then Ok(t) else Err(SyntaxError)
      ensures Head(old(Pending())) != END ==> Pending() == Rest(old(Pending()))
    {
      var t := Take();
      r := if t.kind == kind then Ok(t) else Err(SyntaxError);
    }
  }

  lemma WordParts(s: string)
    requires s != ""
    ensures [s[0]] + s[1..][..WordLength(s[1..])] == s[..1 + WordLength(s[1..])]
    ensures s[1..][WordLength(s[1..])..] == s[1 + WordLength(s[1..])..]
  {
    hide WordLength;
  }
}
