/** The reference recognizer is sound and complete for the grammar. */
module Correctness {
  import opened Tokens
  import opened Grammar
  import opened Recognizer
  import opened Ladder
  import opened Slices

  /** Soundness: a rule that succeeds has consumed a derivation of itself and stopped on a
      token that could not continue it. */
  lemma {:induction false} RecognizeSound(r: Rule, s: seq<TokenKind>, p: nat)
    requires p <= |s|
    decreases |s| - p, Rank(r), 1
    ensures Recognize(r, s, p).Success? ==> Spans(r, s, p, Recognize(r, s, p).end)
  {
    match r
    case Assign => AssignSound(s, p);
    case Expr => RecognizeSound(Subt, s, p);
    case Atom => AtomSound(s, p);
    case Subt => ChainSound(r, s, p);
    case Add => ChainSound(r, s, p);
    case Mult => ChainSound(r, s, p);
  }

  lemma {:induction false} AssignSound(s: seq<TokenKind>, p: nat)
    requires p <= |s|
    decreases |s| - p, Rank(Assign), 0
    ensures Recognize(Assign, s, p).Success? ==> Spans(Assign, s, p, Recognize(Assign, s, p).end)
  {
    var o := RecognizeAssign(s, p);
    assert o == Recognize(Assign, s, p);
    if o.Success? {
      assert p + 2 <= |s| && s[p] == Identifier && s[p + 1] == Assignment;
      assert o == Recognize(Expr, s, p + 2);
      RecognizeSound(Expr, s, p + 2);
      Slice(s, p, p + 2, o.end);
      var u := s[p..o.end];
      assert u[0] == Identifier && u[1] == Assignment && Derives(Expr, u[2..]);
    }
  }

  lemma {:induction false} AtomSound(s: seq<TokenKind>, p: nat)
    requires p <= |s|
    decreases |s| - p, Rank(Atom), 0
    ensures Recognize(Atom, s, p).Success? ==> Spans(Atom, s, p, Recognize(Atom, s, p).end)
  {
    var o := RecognizeAtom(s, p);
    assert o == Recognize(Atom, s, p);
    if o.Success? && s[p] == LParen {
      var inner := Recognize(Expr, s, p + 1);
      assert inner.Success? && o.end == inner.end + 1 && s[inner.end] == RParen;
      RecognizeSound(Expr, s, p + 1);
      var u := s[p..o.end];
      assert u[1..|u| - 1] == s[p + 1..inner.end];
      assert u[0] == LParen && u[|u| - 1] == RParen;
    } else if o.Success? {
      assert s[p..o.end] == [s[p]];
    }
  }

  lemma {:induction false} ChainSound(r: Rule, s: seq<TokenKind>, p: nat)
    requires IsChain(r) && p <= |s|
    decreases |s| - p, Rank(r), 0
    ensures RecognizeChain(r, s, p).Success? ==> Spans(r, s, p, RecognizeChain(r, s, p).end)
  {
    var first := Recognize(Operand(r), s, p);
    if first.Success? {
      RecognizeSound(Operand(r), s, p);
      RepeatSound(r, s, p, first.end);
    }
  }

  /** The MANY loop, entered at `q` after a chain `s[p..q]` that its operand ended cleanly. */
  lemma {:induction false} RepeatSound(r: Rule, s: seq<TokenKind>, p: nat, q: nat)
    requires IsChain(r) && p < q <= |s|
    requires Chain(r, s[p..q]) && (q == |s| || s[q] !in Continuing(Operand(r)))
    decreases |s| - q, Rank(r), 0
    ensures Repeat(r, s, q).Success? ==> Spans(r, s, p, Repeat(r, s, q).end)
  {
    ContinuingLadder(r);
    if q < |s| && s[q] == Operator(r) {
      var next := Recognize(Operand(r), s, q + 1);
      if next.Success? {
        RecognizeSound(Operand(r), s, q + 1);
        Join(r, s[p..q], s[q + 1..next.end]);
        assert s[p..next.end] == s[p..q] + [Operator(r)] + s[q + 1..next.end];
        RepeatSound(r, s, p, next.end);
      }
    }
  }

  /** Completeness: if rule `r` spans `s[p..q]`, running it at `p` succeeds exactly at `q`. */
  lemma {:induction false} RecognizeComplete(r: Rule, s: seq<TokenKind>, p: nat, q: nat)
    requires Spans(r, s, p, q)
    decreases |s| - p, Rank(r), 1
    ensures Recognize(r, s, p) == Success(q)
  {
    match r
    case Assign => AssignComplete(s, p, q);
    case Expr => RecognizeComplete(Subt, s, p, q);
    case Atom => AtomComplete(s, p, q);
    case Subt => ChainComplete(r, s, p, q);
    case Add => ChainComplete(r, s, p, q);
    case Mult => ChainComplete(r, s, p, q);
  }

  lemma {:induction false} AssignComplete(s: seq<TokenKind>, p: nat, q: nat)
    requires Spans(Assign, s, p, q)
    decreases |s| - p, Rank(Assign), 0
    ensures Recognize(Assign, s, p) == Success(q)
  {
    var u := s[p..q];
    assert |u| >= 2 && u[0] == Identifier && u[1] == Assignment && Derives(Expr, u[2..]);
    Slice(s, p, p + 2, q);
    RecognizeComplete(Expr, s, p + 2, q);
  }

  lemma {:induction false} AtomComplete(s: seq<TokenKind>, p: nat, q: nat)
    requires Spans(Atom, s, p, q)
    decreases |s| - p, Rank(Atom), 0
    ensures Recognize(Atom, s, p) == Success(q)
  {
    var u := s[p..q];
    if u != [Integer] && u != [Identifier] {
      assert |u| >= 2 && u[0] == LParen && u[|u| - 1] == RParen && Derives(Expr, u[1..|u| - 1]);
      Slice(s, p, p + 1, q);
      Slice(s, p + 1, q - 1, q);
      assert u[1..|u| - 1] == u[1..][..|u| - 2];
      RecognizeComplete(Expr, s, p + 1, q - 1);
    } else {
      assert q == p + 1 && s[p] == u[0];
    }
  }

  lemma {:induction false} ChainComplete(r: Rule, s: seq<TokenKind>, p: nat, q: nat)
    requires IsChain(r) && Spans(r, s, p, q)
    decreases |s| - p, Rank(r), 0
    ensures RecognizeChain(r, s, p) == Success(q)
  {
    ContinuingLadder(r);
    var i := ChainFirst(r, s[p..q]);
    Slice(s, p, p + i, q);
    RecognizeComplete(Operand(r), s, p, p + i);
    if p + i < q {
      Slice(s, p, p + i + 1, q);
    }
    RepeatComplete(r, s, p + i, q);
  }

  /** The MANY loop at `q` reaches `k` when `s[q..k]` is empty or an operator and a chain. */
  lemma {:induction false} RepeatComplete(r: Rule, s: seq<TokenKind>, q: nat, k: nat)
    requires IsChain(r) && q <= k <= |s|
    requires q == k || (q < k - 1 && s[q] == Operator(r) && Chain(r, s[q + 1..k]))
    requires k == |s| || s[k] !in Continuing(r)
    decreases |s| - q, Rank(r), 0
    ensures Repeat(r, s, q) == Success(k)
  {
    ContinuingLadder(r);
    if q == k {
      assert k == |s| || s[k] != Operator(r);
    } else {
      var u := s[q + 1..k];
      var i := ChainFirst(r, u);
      var m := q + 1 + i;
      Slice(s, q + 1, m, k);
      assert m < k ==> s[m] == u[i] == Operator(r);
      assert Spans(Operand(r), s, q + 1, m);
      RecognizeComplete(Operand(r), s, q + 1, m);
      RepeatStep(r, s, q);
      if m < k {
        Slice(s, q + 1, m + 1, k);
      }
      RepeatComplete(r, s, m, k);
    }
  }

  /** Both directions: rule `r` run at `p` stops at `q` exactly when it spans `s[p..q]`. */
  lemma RecognizeCorrect(r: Rule, s: seq<TokenKind>, p: nat, q: nat)
    requires p <= q <= |s|
    ensures Recognize(r, s, p) == Success(q) <==> Spans(r, s, p, q)
  {
    RecognizeSound(r, s, p);
    if Spans(r, s, p, q) {
      RecognizeComplete(r, s, p, q);
    }
  }

  /** A rule fails exactly when no stretch of the input starting at `p` is a clean derivation of it. */
  lemma RecognizeFails(r: Rule, s: seq<TokenKind>, p: nat)
    requires p <= |s|
    ensures Recognize(r, s, p).Failure? <==> forall q :: p <= q <= |s| ==> !Spans(r, s, p, q)
  {
    RecognizeSound(r, s, p);
    forall q | p <= q <= |s| && Spans(r, s, p, q)
      ensures Recognize(r, s, p).Success?
    {
      RecognizeComplete(r, s, p, q);
    }
  }

  /** With one token of lookahead the grammar is unambiguous about where a rule ends. */
  lemma SpansUnique(r: Rule, s: seq<TokenKind>, p: nat, q1: nat, q2: nat)
    requires Spans(r, s, p, q1) && Spans(r, s, p, q2)
    ensures q1 == q2
  {
    RecognizeComplete(r, s, p, q1);
    RecognizeComplete(r, s, p, q2);
  }

  /** Whole-input acceptance: invoking assignmentStatement on `s` records no error exactly
      when `s` is a statement of the grammar. */
  lemma AcceptsExactlyStatements(s: seq<TokenKind>)
    ensures TopLevelErrors(s, 0) == [] <==> Derives(Assign, s)
  {
    assert s[0..|s|] == s;
    RecognizeCorrect(Assign, s, 0, |s|);
  }
}
