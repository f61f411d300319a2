/** The token vocabulary the recognizer consumes, and one-token lookahead. */
module Tokens {

  /** The twelve token kinds imported by the parser, in catalogue order. */
  datatype TokenKind =
    | Identifier
    | Integer
    | Boolean
    | Equivalence
    | Assignment
    | Addition
    | Subtraction
    | Multiplication
    | LogicalOR
    | LogicalAND
    | LParen
    | RParen

  /** Kinds present in the vocabulary that no grammar rule ever consumes. */
  predicate Unused(k: TokenKind) {
    k == Boolean || k == Equivalence || k == LogicalOR || k == LogicalAND
  }

  /** What the parser sees at a position: a token, or the end-of-input marker. */
  datatype Lookahead = Token(kind: TokenKind) | EndOfInput

  /** The next token at position `p` of `s` (LA(1) with the cursor at `p`). */
  function Peek(s: seq<TokenKind>, p: nat): (la: Lookahead)
    ensures la == EndOfInput <==> p >= |s|
    ensures p < |s| ==> la == Token(s[p])
  {
    if p < |s| then Token(s[p]) else EndOfInput
  }
}
