/** The reference recognizer: what each rule of the parser does when started at a cursor
    position, as a pure function of the token sequence and that position. */
module Recognizer {
  import opened Tokens
  import opened Grammar

  /** The first failure a parse attempt records. */
  datatype Diagnostic =
    | MismatchedToken(expected: TokenKind, found: Lookahead, at: nat)
        // a required token was not the next one
    | NoViableAlternative(alternatives: seq<TokenKind>, found: Lookahead, at: nat)
        // no alternative of atomicExpression starts with the next token
    | NotAllInputParsed(found: Lookahead, at: nat)
        // the statement ended before the input did

  /** The result of running one rule: the cursor after it, or the first failure. */
  datatype Result = Success(end: nat) | Failure(diagnostic: Diagnostic) {
    predicate IsFailure() {
      Failure?
    }

    function PropagateFailure(): Result
      requires Failure?
    {
      this
    }

    function Extract(): nat
      requires Success?
    {
      end
    }
  }

  /** Where the cursor rests after a rule: past what it consumed, or on the offending token. */
  function Cursor(o: Result): nat {
    if o.Success? then o.end else o.diagnostic.at
  }

  /** CONSUME(kind) with the cursor at `p`. */
  function Expect(s: seq<TokenKind>, p: nat, kind: TokenKind): (o: Result)
    requires p <= |s|
    ensures o.Success? <==> p < |s| && s[p] == kind
    ensures o.Success? ==> o.end == p + 1
    ensures o.Failure? ==> o.diagnostic == MismatchedToken(kind, Peek(s, p), p)
  {
    if p < |s| && s[p] == kind then Success(p + 1)
    else Failure(MismatchedToken(kind, Peek(s, p), p))
  }

  /** Rule `r` run with the cursor at `p`. Every success consumes at least one token and
      stays within the input; every failure is reported at or after `p`, on the token
      actually found there. */
  function Recognize(r: Rule, s: seq<TokenKind>, p: nat): (o: Result)
    requires p <= |s|
    decreases |s| - p, Rank(r), 2
    ensures o.Success? ==> p < o.end <= |s|
    ensures o.Failure? ==> p <= o.diagnostic.at <= |s| && o.diagnostic.found == Peek(s, o.diagnostic.at)
  {
    match r
    case Assign => RecognizeAssign(s, p)
    case Expr => Recognize(Subt, s, p)
    case Atom => RecognizeAtom(s, p)
    case Subt => RecognizeChain(r, s, p)
    case Add => RecognizeChain(r, s, p)
    case Mult => RecognizeChain(r, s, p)
  }

  /** assignmentStatement: a name, the assignment sign, and an expression. */
  function RecognizeAssign(s: seq<TokenKind>, p: nat): (o: Result)
    requires p <= |s|
    decreases |s| - p, Rank(Assign), 1
    ensures o.Success? ==> p + 2 < o.end <= |s|
    ensures o.Failure? ==> p <= o.diagnostic.at <= |s| && o.diagnostic.found == Peek(s, o.diagnostic.at)
  {
    var afterName :- Expect(s, p, Identifier);
    var afterEquals :- Expect(s, afterName, Assignment);
    Recognize(Expr, s, afterEquals)
  }

  /** atomicExpression: OR over a parenthesised expression, an integer and a name, chosen by
      the next token; no match is a no-viable-alternative error on that token. */
  function RecognizeAtom(s: seq<TokenKind>, p: nat): (o: Result)
    requires p <= |s|
    decreases |s| - p, Rank(Atom), 1
    ensures o.Success? ==> p < o.end <= |s|
    ensures o.Failure? ==> p <= o.diagnostic.at <= |s| && o.diagnostic.found == Peek(s, o.diagnostic.at)
  {
    if p < |s| && s[p] == LParen then
      var afterInner :- Recognize(Expr, s, p + 1);
      Expect(s, afterInner, RParen)
    else if p < |s| && s[p] == Integer then
      Success(p + 1)
    else if p < |s| && s[p] == Identifier then
      Success(p + 1)
    else
      Failure(NoViableAlternative(AtomStarts, Peek(s, p), p))
  }

  /** A chain rule: one operand, then the MANY loop. */
  function RecognizeChain(r: Rule, s: seq<TokenKind>, p: nat): (o: Result)
    requires IsChain(r) && p <= |s|
    decreases |s| - p, Rank(r), 1
    ensures o.Success? ==> p < o.end <= |s|
    ensures o.Failure? ==> p <= o.diagnostic.at <= |s| && o.diagnostic.found == Peek(s, o.diagnostic.at)
  {
    var afterFirst :- Recognize(Operand(r), s, p);
    Repeat(r, s, afterFirst)
  }

  /** The MANY loop of chain rule `r` with the cursor at `q`: it goes round only while the
      next token is the rule's own operator, and stops on any other token (or the end of
      input) without consuming it. */
  function Repeat(r: Rule, s: seq<TokenKind>, q: nat): (o: Result)
    requires IsChain(r) && q <= |s|
    decreases |s| - q, Rank(r), 0
    ensures o.Success? ==> q <= o.end <= |s| && (o.end == |s| || s[o.end] != Operator(r))
    ensures o.Failure? ==> q < o.diagnostic.at <= |s| && o.diagnostic.found == Peek(s, o.diagnostic.at)
  {
    if q < |s| && s[q] == Operator(r) then
      var afterNext :- Recognize(Operand(r), s, q + 1);
      Repeat(r, s, afterNext)
    else
      Success(q)
  }

  /** A chain rule starts with its operand and continues with the MANY loop. */
  lemma ChainStart(r: Rule, s: seq<TokenKind>, p: nat)
    requires IsChain(r) && p <= |s|
    ensures Recognize(Operand(r), s, p).Failure? ==> Recognize(r, s, p) == Recognize(Operand(r), s, p)
    ensures Recognize(Operand(r), s, p).Success? ==> Recognize(r, s, p) == Repeat(r, s, Recognize(Operand(r), s, p).end)
  {
  }

  /** One round of the MANY loop, when the next token is the operator. */
  lemma RepeatStep(r: Rule, s: seq<TokenKind>, q: nat)
    requires IsChain(r) && q < |s| && s[q] == Operator(r)
    ensures Recognize(Operand(r), s, q + 1).Failure? ==> Repeat(r, s, q) == Recognize(Operand(r), s, q + 1)
    ensures Recognize(Operand(r), s, q + 1).Success? ==> Repeat(r, s, q) == Repeat(r, s, Recognize(Operand(r), s, q + 1).end)
  {
  }

  /** The errors the parser holds after assignmentStatement is invoked as the top-level rule
      with the cursor at `p`: the first failure, or a `NotAllInputParsed` error on the first
      leftover token, or none. */
  function TopLevelErrors(s: seq<TokenKind>, p: nat): (errs: seq<Diagnostic>)
    requires p <= |s|
    ensures |errs| <= 1
    ensures errs == [] <==> Recognize(Assign, s, p) == Success(|s|)
  {
    match Recognize(Assign, s, p)
    case Failure(d) => [d]
    case Success(k) => if k < |s| then [NotAllInputParsed(Token(s[k]), k)] else []
  }
}
