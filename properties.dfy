/** What the recognizer does with particular statements, and what no accepted statement contains. */
module Properties {
  import opened Tokens
  import opened Grammar
  import opened Recognizer
  import opened Ladder
  import opened Correctness
  import opened Slices

  /** No derivation contains a token kind that no rule consumes. */
  lemma {:induction false} DerivesAvoidsUnused(r: Rule, u: seq<TokenKind>)
    requires Derives(r, u)
    decreases |u|, Rank(r), 1
    ensures forall k :: k in u ==> !Unused(k)
  {
    match r
    case Assign =>
      DerivesAvoidsUnused(Expr, u[2..]);
      assert u == [u[0], u[1]] + u[2..];
    case Expr =>
      DerivesAvoidsUnused(Subt, u);
    case Atom =>
      if u != [Integer] && u != [Identifier] {
        DerivesAvoidsUnused(Expr, u[1..|u| - 1]);
        assert u == [u[0]] + u[1..|u| - 1] + [u[|u| - 1]];
      }
    case Subt => ChainAvoidsUnused(r, u);
    case Add => ChainAvoidsUnused(r, u);
    case Mult => ChainAvoidsUnused(r, u);
  }

  lemma {:induction false} ChainAvoidsUnused(r: Rule, u: seq<TokenKind>)
    requires IsChain(r) && Chain(r, u)
    decreases |u|, Rank(r), 0
    ensures forall k :: k in u ==> !Unused(k)
  {
    if Derives(Operand(r), u) {
      DerivesAvoidsUnused(Operand(r), u);
    } else {
      var j := ChainLast(r, u);
      ChainAvoidsUnused(r, u[..j]);
      DerivesAvoidsUnused(Operand(r), u[j + 1..]);
      Split(u, j);
    }
  }

  /** Whatever a rule consumes successfully is free of the unused kinds. */
  lemma RecognizedAvoidsUnused(r: Rule, s: seq<TokenKind>, p: nat)
    requires p <= |s| && Recognize(r, s, p).Success?
    ensures forall k :: k in s[p..Recognize(r, s, p).end] ==> !Unused(k)
  {
    RecognizeSound(r, s, p);
    DerivesAvoidsUnused(r, s[p..Recognize(r, s, p).end]);
  }

  /** An input holding Boolean, Equivalence, LogicalOR or LogicalAND is always rejected. */
  lemma UnusedKindsRejected(s: seq<TokenKind>, i: nat)
    requires i < |s| && Unused(s[i])
    ensures TopLevelErrors(s, 0) != []
  {
    AcceptsExactlyStatements(s);
    assert s[i] in s;
    if Derives(Assign, s) {
      DerivesAvoidsUnused(Assign, s);
    }
  }

  // x = 1 + 2 * 3
  const Precedence: seq<TokenKind> :=
    [Identifier, Assignment, Integer, Addition, Integer, Multiplication, Integer]
  // x = ( 1 + 2 ) * 3
  const Parenthesised: seq<TokenKind> :=
    [Identifier, Assignment, LParen, Integer, Addition, Integer, RParen, Multiplication, Integer]

  /** x = 1 + 2 * 3: the multiplication is taken inside the second operand of the addition. */
  lemma PrecedenceAccepted()
    ensures TopLevelErrors(Precedence, 0) == []
  {
    var one: seq<TokenKind> := [Integer];
    Lift(Atom, Mult, one);
    Join(Mult, one, one);
    var product := one + [Multiplication] + one;
    Lift(Atom, Mult, one);
    Join(Add, one, product);
    var sum := one + [Addition] + product;
    Lift(Add, Expr, sum);
    assert Precedence[2..] == sum;
    AcceptsExactlyStatements(Precedence);
  }

  /** x = ( 1 + 2 ) * 3: the parenthesised sum is one atom of the product. */
  lemma ParenthesesAccepted()
    ensures TopLevelErrors(Parenthesised, 0) == []
  {
    var one: seq<TokenKind> := [Integer];
    Lift(Atom, Mult, one);
    Join(Add, one, one);
    var sum := one + [Addition] + one;
    Lift(Add, Expr, sum);
    var group := [LParen] + sum + [RParen];
    assert group[1..|group| - 1] == sum;
    Lift(Atom, Mult, group);
    Join(Mult, group, one);
    var product := group + [Multiplication] + one;
    Lift(Mult, Expr, product);
    assert Parenthesised[2..] == product;
    AcceptsExactlyStatements(Parenthesised);
  }

  // x = a - b - c
  const Differences: seq<TokenKind> :=
    [Identifier, Assignment, Identifier, Subtraction, Identifier, Subtraction, Identifier]
  // x = a + b - c + d
  const Mixed: seq<TokenKind> :=
    [Identifier, Assignment, Identifier, Addition, Identifier, Subtraction, Identifier, Addition, Identifier]

  /** x = a - b - c: the subtraction loop goes round twice, grouping to the left. */
  lemma DifferencesAccepted()
    ensures TopLevelErrors(Differences, 0) == []
  {
    var name: seq<TokenKind> := [Identifier];
    Lift(Atom, Add, name);
    Lift(Atom, Subt, name);
    Join(Subt, name, name);
    var ab := name + [Subtraction] + name;
    Join(Subt, ab, name);
    var abc := ab + [Subtraction] + name;
    assert Differences[2..] == abc;
    AcceptsExactlyStatements(Differences);
  }

  /** x = a + b - c + d: two sums, each with its own addition loop, joined by one subtraction. */
  lemma MixedAccepted()
    ensures TopLevelErrors(Mixed, 0) == []
  {
    var name: seq<TokenKind> := [Identifier];
    Lift(Atom, Mult, name);
    Lift(Atom, Add, name);
    Join(Add, name, name);
    var sum := name + [Addition] + name;
    Lift(Add, Subt, sum);
    Join(Subt, sum, sum);
    var whole := sum + [Subtraction] + sum;
    assert Mixed[2..] == whole;
    AcceptsExactlyStatements(Mixed);
  }

  // x 1
  const MissingAssignment: seq<TokenKind> := [Identifier, Integer]

  /** x 1: recognition stops at the second token, which should have been Assignment. */
  lemma MissingAssignmentRejected()
    ensures TopLevelErrors(MissingAssignment, 0) == [MismatchedToken(Assignment, Token(Integer), 1)]
  {
  }

  // x = 1 2
  const Leftover: seq<TokenKind> := [Identifier, Assignment, Integer, Integer]

  /** x = 1 2: the statement x = 1 is complete, so the second literal is redundant input. */
  lemma LeftoverRejected()
    ensures TopLevelErrors(Leftover, 0) == [NotAllInputParsed(Token(Integer), 3)]
  {
    var one: seq<TokenKind> := [Integer];
    Lift(Atom, Expr, one);
    assert Leftover[0..3][2..] == one;
    RecognizeComplete(Assign, Leftover, 0, 3);
  }

  // x = 1 +
  const DanglingOperator: seq<TokenKind> := [Identifier, Assignment, Integer, Addition]

  /** x = 1 +: after the operator no alternative of atomicExpression matches the end of input. */
  lemma DanglingOperatorRejected()
    ensures TopLevelErrors(DanglingOperator, 0) == [NoViableAlternative(AtomStarts, EndOfInput, 4)]
  {
    var s := DanglingOperator;
    var d := NoViableAlternative(AtomStarts, EndOfInput, 4);
    assert Recognize(Atom, s, 4) == Failure(d);
    assert Recognize(Mult, s, 4) == Failure(d);
    assert Recognize(Mult, s, 2) == Success(3);
    assert Repeat(Add, s, 3) == Failure(d);
    assert Recognize(Add, s, 2) == Failure(d);
    assert Recognize(Expr, s, 2) == Failure(d);
  }

  // x = ( 1
  const Unclosed: seq<TokenKind> := [Identifier, Assignment, LParen, Integer]

  /** x = ( 1: the closing parenthesis is expected where the input ends. */
  lemma UnclosedRejected()
    ensures TopLevelErrors(Unclosed, 0) == [MismatchedToken(RParen, EndOfInput, 4)]
  {
    var s := Unclosed;
    var one: seq<TokenKind> := [Integer];
    Lift(Atom, Expr, one);
    assert s[3..4] == one;
    RecognizeComplete(Expr, s, 3, 4);
    var d := MismatchedToken(RParen, EndOfInput, 4);
    assert Recognize(Atom, s, 2) == Failure(d);
    assert Recognize(Mult, s, 2) == Failure(d);
    assert Recognize(Add, s, 2) == Failure(d);
    assert Recognize(Expr, s, 2) == Failure(d);
  }
}
