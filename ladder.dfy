/** Facts about the precedence ladder itself: how chains are built and taken apart, and the
    language the ladder accepts, stated without it. */
module Ladder {
  import opened Tokens
  import opened Grammar
  import opened Slices

  /** A token that can continue rule `r` is one that continues its operand, or its operator. */
  lemma ContinuingLadder(r: Rule)
    requires IsChain(r)
    ensures Continuing(r) == Continuing(Operand(r)) + {Operator(r)}
    ensures Operator(r) !in Continuing(Operand(r))
  {
    match r
    case Subt =>
    case Add =>
    case Mult =>
  }

  /** Every derivation consumes at least one token. */
  lemma {:induction false} DerivesNonEmpty(r: Rule, u: seq<TokenKind>)
    requires Derives(r, u)
    decreases Rank(r)
    ensures |u| > 0
  {
    match r
    case Assign =>
    case Expr => DerivesNonEmpty(Subt, u);
    case Atom =>
    case Subt => if Derives(Operand(r), u) { DerivesNonEmpty(Operand(r), u); }
    case Add => if Derives(Operand(r), u) { DerivesNonEmpty(Operand(r), u); }
    case Mult => if Derives(Operand(r), u) { DerivesNonEmpty(Operand(r), u); }
  }

  /** A chain read from the left: its first operand, then either nothing or the operator
      and a shorter chain. */
  lemma {:induction false} ChainFirst(r: Rule, u: seq<TokenKind>) returns (i: nat)
    requires IsChain(r) && Chain(r, u)
    decreases |u|
    ensures 0 < i <= |u| && Derives(Operand(r), u[..i])
    ensures i < |u| ==> i < |u| - 1 && u[i] == Operator(r) && Chain(r, u[i + 1..])
  {
    if Derives(Operand(r), u) {
      DerivesNonEmpty(Operand(r), u);
      i := |u|;
      assert u[..i] == u;
    } else {
      var j := ChainLast(r, u);
      i := ChainFirst(r, u[..j]);
      Prefix(u, j, i);
      if i < j {
        Middle(u, i, j);
        Join(r, u[..j][i + 1..], u[j + 1..]);
      }
    }
  }

  /** A chain that is not a single operand, read from the right: a shorter chain, the
      operator and the last operand. */
  lemma ChainLast(r: Rule, u: seq<TokenKind>) returns (j: nat)
    requires IsChain(r) && Chain(r, u) && !Derives(Operand(r), u)
    ensures 0 < j < |u| - 1 && u[j] == Operator(r)
    ensures Chain(r, u[..j]) && Derives(Operand(r), u[j + 1..])
  {
    j :| 0 < j < |u| - 1 && u[j] == Operator(r) && Chain(r, u[..j]) && Derives(Operand(r), u[j + 1..]);
  }

  /** A derivation of a rule is also a derivation of every looser rule of the ladder. */
  lemma {:induction false} Lift(from: Rule, to: Rule, u: seq<TokenKind>)
    requires Derives(from, u) && to != Assign && Rank(from) <= Rank(to)
    decreases Rank(to)
    ensures Derives(to, u)
  {
    if from != to {
      if to == Add {
        Lift(from, Mult, u);
      } else if to == Subt {
        Lift(from, Add, u);
      } else if to == Expr {
        Lift(from, Subt, u);
      }
    }
  }

  /** A chain, its operator and one more operand form a longer chain (left grouping). */
  lemma Join(r: Rule, a: seq<TokenKind>, b: seq<TokenKind>)
    requires IsChain(r) && Chain(r, a) && Derives(Operand(r), b)
    ensures Chain(r, a + [Operator(r)] + b)
  {
    ChainNonEmpty(r, a);
    DerivesNonEmpty(Operand(r), b);
    Around(a, Operator(r), b);
    ChainSplit(r, a + [Operator(r)] + b, |a|);
  }

  /** Introduces a chain from one split point. */
  lemma ChainSplit(r: Rule, u: seq<TokenKind>, k: nat)
    requires IsChain(r) && 0 < k < |u| - 1 && u[k] == Operator(r)
    requires Chain(r, u[..k]) && Derives(Operand(r), u[k + 1..])
    ensures Chain(r, u)
  {
  }

  lemma ChainNonEmpty(r: Rule, u: seq<TokenKind>)
    requires IsChain(r) && Chain(r, u)
    ensures |u| > 0
  {
    if Derives(Operand(r), u) {
      DerivesNonEmpty(Operand(r), u);
    }
  }

  /** An operand put in front of an empty tail, or of the operator and a chain, is a chain. */
  lemma {:induction false} ChainPrepend(r: Rule, a: seq<TokenKind>, b: seq<TokenKind>)
    requires IsChain(r) && Derives(Operand(r), a)
    requires b == [] || (b[0] == Operator(r) && Chain(r, b[1..]))
    decreases |b|
    ensures Chain(r, a + b)
  {
    if b == [] {
      assert a + b == a;
    } else {
      var op, c := Operator(r), b[1..];
      assert a + b == a + [op] + c;
      if Derives(Operand(r), c) {
        Join(r, a, c);
      } else {
        var j :| 0 < j < |c| - 1 && c[j] == op && Chain(r, c[..j]) && Derives(Operand(r), c[j + 1..]);
        var front := [op] + c[..j];
        assert front[1..] == c[..j];
        ChainPrepend(r, a, front);
        Join(r, a + front, c[j + 1..]);
        Regroup(a, op, c, j);
      }
    }
  }

  lemma Regroup(a: seq<TokenKind>, op: TokenKind, c: seq<TokenKind>, j: nat)
    requires j < |c| && c[j] == op
    ensures a + [op] + c == (a + ([op] + c[..j])) + [op] + c[j + 1..]
  {
    assert c == c[..j] + [op] + c[j + 1..];
  }

  /** The three operators of the ladder. */
  predicate IsOperator(k: TokenKind) {
    k == Addition || k == Subtraction || k == Multiplication
  }

  /** An operand with no precedence structure: a literal, a name, or a parenthesised flat expression. */
  ghost predicate Primary(u: seq<TokenKind>)
    decreases |u|, 0
  {
    || u == [Integer]
    || u == [Identifier]
    || (|u| >= 2 && u[0] == LParen && u[|u| - 1] == RParen && Flat(u[1..|u| - 1]))
  }

  /** Primaries separated by any of the three operators, in any mix. */
  ghost predicate Flat(u: seq<TokenKind>)
    decreases |u|, 1
  {
    || Primary(u)
    || exists i :: 0 < i < |u| - 1 && IsOperator(u[i]) && Primary(u[..i]) && Flat(u[i + 1..])
  }

  lemma {:induction false} FlatJoin(a: seq<TokenKind>, o: TokenKind, b: seq<TokenKind>)
    requires Flat(a) && IsOperator(o) && Flat(b)
    decreases |a|
    ensures Flat(a + [o] + b)
  {
    FlatNonEmpty(a);
    FlatNonEmpty(b);
    if Primary(a) {
      Around(a, o, b);
      FlatSplit(a + [o] + b, |a|);
    } else {
      var i :| 0 < i < |a| - 1 && IsOperator(a[i]) && Primary(a[..i]) && Flat(a[i + 1..]);
      FlatJoin(a[i + 1..], o, b);
      Inside(a, o, b, i);
      FlatSplit(a + [o] + b, i);
    }
  }

  /** Introduces a flat expression from one split point. */
  lemma FlatSplit(u: seq<TokenKind>, i: nat)
    requires 0 < i < |u| - 1 && IsOperator(u[i]) && Primary(u[..i]) && Flat(u[i + 1..])
    ensures Flat(u)
  {
  }

  lemma FlatNonEmpty(u: seq<TokenKind>)
    requires Flat(u)
    ensures |u| > 0
  {
  }

  /** Every derivation of a rule below assignmentStatement is a flat expression. */
  lemma {:induction false} DerivesFlat(r: Rule, u: seq<TokenKind>)
    requires Derives(r, u) && r != Assign
    decreases |u|, Rank(r), 1
    ensures Flat(u)
  {
    match r
    case Atom =>
      if u != [Integer] && u != [Identifier] {
        DerivesFlat(Expr, u[1..|u| - 1]);
      }
    case Expr =>
      DerivesFlat(Subt, u);
    case Subt => ChainFlat(r, u);
    case Add => ChainFlat(r, u);
    case Mult => ChainFlat(r, u);
  }

  lemma {:induction false} ChainFlat(r: Rule, u: seq<TokenKind>)
    requires IsChain(r) && Chain(r, u)
    decreases |u|, Rank(r), 0
    ensures Flat(u)
  {
    if Derives(Operand(r), u) {
      DerivesFlat(Operand(r), u);
    } else {
      var j := ChainLast(r, u);
      ChainFlat(r, u[..j]);
      DerivesFlat(Operand(r), u[j + 1..]);
      FlatJoin(u[..j], u[j], u[j + 1..]);
      Split(u, j);
    }
  }

  lemma {:induction false} PrimaryDerives(u: seq<TokenKind>)
    requires Primary(u)
    decreases |u|, 0
    ensures Derives(Atom, u)
  {
    if u != [Integer] && u != [Identifier] {
      FlatDerives(u[1..|u| - 1]);
    }
  }

  /** Every flat expression is derived by the ladder, whatever its mix of operators. */
  lemma {:induction false} FlatDerives(u: seq<TokenKind>)
    requires Flat(u)
    decreases |u|, 1
    ensures Derives(Expr, u)
  {
    if Primary(u) {
      PrimaryDerives(u);
      Lift(Atom, Expr, u);
    } else {
      var i :| 0 < i < |u| - 1 && IsOperator(u[i]) && Primary(u[..i]) && Flat(u[i + 1..]);
      PrimaryDerives(u[..i]);
      FlatDerives(u[i + 1..]);
      PrependAtom(u[..i], u[i], u[i + 1..]);
      assert u == u[..i] + [u[i]] + u[i + 1..];
    }
  }

  /** An atom, any operator and an expression form an expression: the operator sinks to its
      own level of the ladder, inside the first operand of each looser level. */
  lemma PrependAtom(a: seq<TokenKind>, op: TokenKind, rest: seq<TokenKind>)
    requires Derives(Atom, a) && IsOperator(op) && Derives(Expr, rest)
    ensures Derives(Expr, a + [op] + rest)
  {
    if op == Subtraction {
      Lift(Atom, Add, a);
      assert ([op] + rest)[1..] == rest;
      ChainPrepend(Subt, a, [op] + rest);
      assert a + ([op] + rest) == a + [op] + rest;
    } else {
      var i1 := ChainFirst(Subt, rest);
      var sum := PrependAtomToSum(a, op, rest[..i1]);
      var tail := rest[i1..];
      assert tail != [] ==> tail[0] == Subtraction && tail[1..] == rest[i1 + 1..];
      ChainPrepend(Subt, sum, tail);
      assert sum + tail == a + [op] + rest;
    }
  }

  lemma PrependAtomToSum(a: seq<TokenKind>, op: TokenKind, b: seq<TokenKind>) returns (sum: seq<TokenKind>)
    requires Derives(Atom, a) && (op == Addition || op == Multiplication) && Derives(Add, b)
    ensures sum == a + [op] + b && Derives(Add, sum)
  {
    sum := a + [op] + b;
    if op == Addition {
      Lift(Atom, Mult, a);
      assert ([op] + b)[1..] == b;
      ChainPrepend(Add, a, [op] + b);
      assert a + ([op] + b) == sum;
    } else {
      var i2 := ChainFirst(Add, b);
      var product := PrependAtomToProduct(a, b[..i2]);
      var ctail := b[i2..];
      assert ctail != [] ==> ctail[0] == Addition && ctail[1..] == b[i2 + 1..];
      ChainPrepend(Add, product, ctail);
      assert product + ctail == sum;
    }
  }

  lemma PrependAtomToProduct(a: seq<TokenKind>, c: seq<TokenKind>) returns (product: seq<TokenKind>)
    requires Derives(Atom, a) && Derives(Mult, c)
    ensures product == a + [Multiplication] + c && Derives(Mult, product)
  {
    var b := [Multiplication] + c;
    assert b[0] == Multiplication && b[1..] == c && Chain(Mult, c);
    ChainPrepend(Mult, a, b);
    product := a + b;
    assert product == a + [Multiplication] + c;
  }

  /** The ladder fixes only how operators group, not which sequences are expressions: the
      expressions are exactly the flat ones. */
  lemma ExpressionsAreFlat(u: seq<TokenKind>)
    ensures Derives(Expr, u) <==> Flat(u)
  {
    if Derives(Expr, u) {
      DerivesFlat(Expr, u);
    }
    if Flat(u) {
      FlatDerives(u);
    }
  }
}
