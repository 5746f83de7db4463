/** Tokens. Kinds other than identifiers, integer literals and errors have no text. */
module Tokens {
  datatype TokenType =
    | END_OF_FILE | IDENT | INT_LITERAL
    | KEYWORD_TRUE | KEYWORD_FALSE | KEYWORD_FN | KEYWORD_RETURN
    | COLON | SEMICOLON | L_PAREN | R_PAREN | L_SQR_BRACKET | R_SQR_BRACKET
    | L_CURLY_BRACKET | R_CURLY_BRACKET | COMMA | THIN_ARROW
    | AND | AND_AND | OR | OR_OR | CARET | LESS_LESS | GREATER_GREATER
    | EQUAL_EQUAL | EXCLAMATION_EQUAL | LESS | LESS_EQUAL | GREATER | GREATER_EQUAL
    | PLUS | MINUS | ASTERISK | FORWARD_SLASH | PERCENT | EXCLAMATION | EQUAL | TILDE
    | ERROR_UNEXPECTED_CHAR
    /** No kind of the lexer: it stands where the lexer does not come back. */
    | UNFINISHED

  datatype Token = Token(kind: TokenType, str: string)

  const END := Token(END_OF_FILE, "")

  /** What a stream has in the place of a comment that is never left. */
  const STUCK := Token(UNFINISHED, "")

  /** A stream of tokens repeats its end for ever. */
  function Head(ts: seq<Token>): Token { if ts == [] then END else ts[0] }

  function Rest(ts: seq<Token>): seq<Token> { if ts == [] then [] else ts[1..] }

  lemma HeadRest(t: Token, ts: seq<Token>)
    ensures Head([t] + ts) == t && Rest([t] + ts) == ts
  {
    assert ([t] + ts)[1..] == ts;
  }
}
