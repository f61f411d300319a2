/** The grammar of one assignment statement, as a pure inductive predicate. */
module Grammar {
  import opened Tokens

  /** The six rules of the grammar. */
  datatype Rule =
    | Assign  // assignmentStatement := Identifier Assignment expression
    | Expr    // expression          := subtExpression
    | Subt    // subtExpression      := addExpression ( Subtraction addExpression )*
    | Add     // addExpression       := multExpression ( Addition multExpression )*
    | Mult    // multExpression      := atomicExpression ( Multiplication atomicExpression )*
    | Atom    // atomicExpression    := LParen expression RParen | Integer | Identifier

  /** The rules written as operator-separated chains. */
  predicate IsChain(r: Rule) {
    r.Subt? || r.Add? || r.Mult?
  }

  /** The operator that separates the operands of a chain rule. */
  function Operator(r: Rule): TokenKind
    requires IsChain(r)
  {
    match r
    case Subt => Subtraction
    case Add => Addition
    case Mult => Multiplication
  }

  /** The next-lower rule each chain rule repeats. */
  function Operand(r: Rule): Rule
    requires IsChain(r)
  {
    match r
    case Subt => Add
    case Add => Mult
    case Mult => Atom
  }

  /** Position on the precedence ladder: a rule only refers to lower rules without consuming. */
  function Rank(r: Rule): nat {
    match r
    case Atom => 0
    case Mult => 1
    case Add => 2
    case Subt => 3
    case Expr => 4
    case Assign => 5
  }

  /** The first token kinds of the alternatives of atomicExpression, in their order. */
  const AtomStarts: seq<TokenKind> := [LParen, Integer, Identifier]

  /** `u` is derivable from rule `r`. */
  ghost predicate Derives(r: Rule, u: seq<TokenKind>)
    decreases |u|, Rank(r), 1
  {
    match r
    case Assign =>
      |u| >= 2 && u[0] == Identifier && u[1] == Assignment && Derives(Expr, u[2..])
    case Expr =>
      Derives(Subt, u)
    case Atom =>
      || u == [Integer]
      || u == [Identifier]
      || (|u| >= 2 && u[0] == LParen && u[|u| - 1] == RParen && Derives(Expr, u[1..|u| - 1]))
    case Subt => Chain(r, u)
    case Add => Chain(r, u)
    case Mult => Chain(r, u)
  }

  /** `u` is one or more operands of `r` separated by its operator, grouped to the left:
      either a single operand, or a shorter chain, the operator and one more operand. */
  ghost predicate Chain(r: Rule, u: seq<TokenKind>)
    requires IsChain(r)
    decreases |u|, Rank(r), 0
  {
    || Derives(Operand(r), u)
    || exists i :: 0 < i < |u| - 1 && u[i] == Operator(r) && Chain(r, u[..i]) && Derives(Operand(r), u[i + 1..])
  }

  /** The token kinds that would let rule `r` go on past the end of a derivation:
      the operators of the loops that are still open at its end. */
  function Continuing(r: Rule): set<TokenKind> {
    match r
    case Atom => {}
    case Mult => {Multiplication}
    case Add => {Multiplication, Addition}
    case _ => {Multiplication, Addition, Subtraction}
  }

  /** Rule `r`, started at position `p` of `s`, derives exactly `s[p..q]`, and the token
      at `q` (if any) cannot continue it: the prefix-form acceptance of a rule. */
  ghost predicate Spans(r: Rule, s: seq<TokenKind>, p: nat, q: nat) {
    p <= q <= |s| && Derives(r, s[p..q]) && (q == |s| || s[q] !in Continuing(r))
  }
}
