/**
 * Tokens as src/compiler.c consumes them.  The scanner's `scanToken` is not
 * part of this model: a source text is represented by the finite sequence of
 * tokens the scanner would return for it, which ends with TOKEN_EOF.
 */
module Tokens {

  /** The token types, named as compiler.c's rule table names them. */
  datatype TokenKind =
    | LeftParen | RightParen | LeftBrace | RightBrace
    | Comma | Dot | Minus | Plus | Semicolon | Slash | Asterisk
    | Bang | BangEqual | Equal | EqualEqual
    | Greater | GreaterEqual | Less | LessEqual
    | Identifier | StringLiteral | NumberLiteral
    | And | Class | Else | False | For | Fun | If | Null | Or
    | Print | Return | Super | This | True | Var | While
    | Error | Eof

  /**
   * A token: its type, its text (for an error token, the scanner's message)
   * and its source line.
   */
  datatype Token = Token(kind: TokenKind, lexeme: string, line: int)

  /**
   * What one scan of a source text yields: finitely many tokens, the last
   * of them EOF and no EOF before it.
   */
  predicate ValidStream(tokens: seq<Token>)
  {
    |tokens| > 0 && tokens[|tokens| - 1].kind == Eof && EofOnlyAtEnd(tokens)
  }

  /** No token but the last is EOF. */
  predicate EofOnlyAtEnd(tokens: seq<Token>)
    decreases |tokens|
  {
    |tokens| <= 1 || (tokens[0].kind != Eof && EofOnlyAtEnd(tokens[1..]))
  }

  lemma {:induction false} EofOnlyAtEndIndex(tokens: seq<Token>, i: nat)
    requires EofOnlyAtEnd(tokens) && i < |tokens| - 1
    ensures tokens[i].kind != Eof
    decreases i
  {
    if i > 0 {
      EofOnlyAtEndIndex(tokens[1..], i - 1);
      assert tokens[1..][i - 1] == tokens[i];
    }
  }

  /** Tokens none of which is EOF, followed by one final token, have EOF at most at the end. */
  lemma {:induction false} EofOnlyAtEndAppend(ts: seq<Token>, last: Token)
    requires forall t :: t in ts ==> t.kind != Eof
    ensures EofOnlyAtEnd(ts + [last])
    decreases |ts|
  {
    if ts != [] {
      assert ts[0] in ts;
      assert forall t :: t in ts[1..] ==> t in ts;
      EofOnlyAtEndAppend(ts[1..], last);
      assert (ts + [last])[1..] == ts[1..] + [last];
    }
  }

  /**
   * scanToken: the token at position `next` and the position of the
   * following one.  Once the final EOF is reached it is returned again on
   * every later call.
   */
  function ScanToken(tokens: seq<Token>, next: nat): (r: (Token, nat))
    requires ValidStream(tokens) && next < |tokens|
    ensures r.0 == tokens[next] && r.1 < |tokens|
    ensures r.0.kind == Eof <==> r.1 == next
    ensures r.0.kind != Eof ==> r.1 == next + 1
  {
    if next < |tokens| - 1 then
      EofOnlyAtEndIndex(tokens, next);
      (tokens[next], next + 1)
    else (tokens[next], next)
  }
}
