/** Where the single diagnostic lands: on the first token at which the input stops being
    the beginning of any statement of the grammar. */
module FirstError {
  import opened Tokens
  import opened Grammar
  import opened Recognizer
  import opened Ladder
  import opened Correctness
  import opened Slices

  /** `v` can still be completed to a statement: some statement begins with it. */
  ghost predicate ViablePrefix(v: seq<TokenKind>) {
    exists t :: Derives(Assign, t) && v <= t
  }

  /** A rule that fails has read a prefix of one of its derivations up to the failure. */
  lemma {:induction false} FailureCompletion(r: Rule, s: seq<TokenKind>, p: nat) returns (w: seq<TokenKind>)
    requires p <= |s| && Recognize(r, s, p).Failure?
    decreases |s| - p, Rank(r), 1
    ensures Derives(r, s[p..Recognize(r, s, p).diagnostic.at] + w)
  {
    match r
    case Assign => w := AssignFailureCompletion(s, p);
    case Expr => w := FailureCompletion(Subt, s, p);
    case Atom => w := AtomFailureCompletion(s, p);
    case Subt => w := ChainFailureCompletion(r, s, p);
    case Add => w := ChainFailureCompletion(r, s, p);
    case Mult => w := ChainFailureCompletion(r, s, p);
  }

  lemma {:induction false} AssignFailureCompletion(s: seq<TokenKind>, p: nat) returns (w: seq<TokenKind>)
    requires p <= |s| && Recognize(Assign, s, p).Failure?
    decreases |s| - p, Rank(Assign), 0
    ensures Derives(Assign, s[p..Recognize(Assign, s, p).diagnostic.at] + w)
  {
    var e := Recognize(Assign, s, p).diagnostic.at;
    var one: seq<TokenKind> := [Integer];
    Lift(Atom, Expr, one);
    if e == p {
      w := [Identifier, Assignment, Integer];
      assert s[p..e] + w == w && w[2..] == one;
    } else if e == p + 1 {
      w := [Assignment, Integer];
      assert s[p..e] + w == [Identifier, Assignment, Integer];
      assert (s[p..e] + w)[2..] == one;
    } else {
      var inner := FailureCompletion(Expr, s, p + 2);
      w := inner;
      assert (s[p..e] + w)[2..] == s[p + 2..e] + inner;
    }
  }

  lemma {:induction false} AtomFailureCompletion(s: seq<TokenKind>, p: nat) returns (w: seq<TokenKind>)
    requires p <= |s| && Recognize(Atom, s, p).Failure?
    decreases |s| - p, Rank(Atom), 0
    ensures Derives(Atom, s[p..Recognize(Atom, s, p).diagnostic.at] + w)
  {
    var o := RecognizeAtom(s, p);
    assert o == Recognize(Atom, s, p);
    var e := o.diagnostic.at;
    if p < |s| && s[p] == LParen {
      var inner := Recognize(Expr, s, p + 1);
      var body: seq<TokenKind>;
      if inner.Failure? {
        var iw := FailureCompletion(Expr, s, p + 1);
        body, w := s[p + 1..e] + iw, iw + [RParen];
      } else {
        RecognizeSound(Expr, s, p + 1);
        body, w := s[p + 1..e], [RParen];
      }
      Parenthesise(body);
      Cons(s, p, e);
      assert s[p..e] + w == [LParen] + body + [RParen];
    } else {
      w := [Integer];
      assert s[p..e] + w == w;
    }
  }

  /** An expression in parentheses is an atom. */
  lemma Parenthesise(body: seq<TokenKind>)
    requires Derives(Expr, body)
    ensures Derives(Atom, [LParen] + body + [RParen])
  {
    var u := [LParen] + body + [RParen];
    assert u[1..|u| - 1] == body;
  }

  lemma {:induction false} ChainFailureCompletion(r: Rule, s: seq<TokenKind>, p: nat) returns (w: seq<TokenKind>)
    requires IsChain(r) && p <= |s| && RecognizeChain(r, s, p).Failure?
    decreases |s| - p, Rank(r), 0
    ensures Chain(r, s[p..RecognizeChain(r, s, p).diagnostic.at] + w)
  {
    var first := Recognize(Operand(r), s, p);
    if first.Failure? {
      w := FailureCompletion(Operand(r), s, p);
    } else {
      RecognizeSound(Operand(r), s, p);
      w := RepeatFailureCompletion(r, s, p, first.end);
    }
  }

  /** The MANY loop failing after the chain `s[p..q]`. */
  lemma {:induction false} RepeatFailureCompletion(r: Rule, s: seq<TokenKind>, p: nat, q: nat) returns (w: seq<TokenKind>)
    requires IsChain(r) && p < q <= |s| && Chain(r, s[p..q]) && Repeat(r, s, q).Failure?
    decreases |s| - q, Rank(r), 0
    ensures Chain(r, s[p..Repeat(r, s, q).diagnostic.at] + w)
  {
    var e := Repeat(r, s, q).diagnostic.at;
    var next := Recognize(Operand(r), s, q + 1);
    assert s[q] == Operator(r);
    if next.Failure? {
      var nw := FailureCompletion(Operand(r), s, q + 1);
      Join(r, s[p..q], s[q + 1..e] + nw);
      w := nw;
      Adjacent(s, p, q, e, nw);
    } else {
      RecognizeSound(Operand(r), s, q + 1);
      Join(r, s[p..q], s[q + 1..next.end]);
      Adjacent(s, p, q, next.end, []);
      assert s[p..next.end] + [] == s[p..next.end] && s[q + 1..next.end] + [] == s[q + 1..next.end];
      w := RepeatFailureCompletion(r, s, p, next.end);
    }
  }

  /** `s` and `t` hold the same first `n` tokens. */
  ghost predicate Agree(s: seq<TokenKind>, t: seq<TokenKind>, n: nat) {
    n <= |s| && n <= |t| && s[..n] == t[..n]
  }

  /** Where a result leaves the cursor reads tokens up to and including that position only. */
  predicate Before(o: Result, n: nat) {
    Cursor(o) < n
  }

  /** Agreeing inputs hold the same token at each position below `n`. */
  lemma Same(s: seq<TokenKind>, t: seq<TokenKind>, n: nat, i: nat)
    requires Agree(s, t, n) && i < n
    ensures s[i] == t[i]
  {
    assert s[..n][i] == t[..n][i];
  }

  /** A rule reads no further than one token past where it stops: on inputs that agree
      beyond that token it reaches the same result. */
  lemma {:induction false} Locality(r: Rule, s: seq<TokenKind>, t: seq<TokenKind>, p: nat, n: nat)
    requires p <= |s| && p <= |t| && Agree(s, t, n) && Before(Recognize(r, s, p), n)
    decreases |s| - p, Rank(r), 1
    ensures Recognize(r, t, p) == Recognize(r, s, p)
  {
    match r
    case Assign => AssignLocality(s, t, p, n);
    case Expr => Locality(Subt, s, t, p, n);
    case Atom => AtomLocality(s, t, p, n);
    case Subt => ChainLocality(r, s, t, p, n);
    case Add => ChainLocality(r, s, t, p, n);
    case Mult => ChainLocality(r, s, t, p, n);
  }

  lemma {:induction false} AssignLocality(s: seq<TokenKind>, t: seq<TokenKind>, p: nat, n: nat)
    requires p <= |s| && p <= |t| && Agree(s, t, n) && Before(RecognizeAssign(s, p), n)
    decreases |s| - p, Rank(Assign), 0
    ensures RecognizeAssign(t, p) == RecognizeAssign(s, p)
  {
    var o := RecognizeAssign(s, p);
    Same(s, t, n, p);
    if p + 1 < n {
      Same(s, t, n, p + 1);
    }
    if o.Success? || o.diagnostic.at > p + 1 {
      Locality(Expr, s, t, p + 2, n);
    }
  }

  lemma {:induction false} AtomLocality(s: seq<TokenKind>, t: seq<TokenKind>, p: nat, n: nat)
    requires p <= |s| && p <= |t| && Agree(s, t, n) && Before(RecognizeAtom(s, p), n)
    decreases |s| - p, Rank(Atom), 0
    ensures RecognizeAtom(t, p) == RecognizeAtom(s, p)
  {
    Same(s, t, n, p);
    if s[p] == LParen {
      var inner := Recognize(Expr, s, p + 1);
      Locality(Expr, s, t, p + 1, n);
      if inner.Success? && inner.end < |s| {
        Same(s, t, n, inner.end);
      }
    }
  }

  lemma {:induction false} ChainLocality(r: Rule, s: seq<TokenKind>, t: seq<TokenKind>, p: nat, n: nat)
    requires IsChain(r) && p <= |s| && p <= |t| && Agree(s, t, n) && Before(RecognizeChain(r, s, p), n)
    decreases |s| - p, Rank(r), 0
    ensures RecognizeChain(r, t, p) == RecognizeChain(r, s, p)
  {
    var first := Recognize(Operand(r), s, p);
    Locality(Operand(r), s, t, p, n);
    if first.Success? {
      RepeatLocality(r, s, t, first.end, n);
    }
  }

  lemma {:induction false} RepeatLocality(r: Rule, s: seq<TokenKind>, t: seq<TokenKind>, q: nat, n: nat)
    requires IsChain(r) && q <= |s| && q <= |t| && Agree(s, t, n) && Before(Repeat(r, s, q), n)
    decreases |s| - q, Rank(r), 0
    ensures Repeat(r, t, q) == Repeat(r, s, q)
  {
    Same(s, t, n, q);
    if s[q] == Operator(r) {
      var next := Recognize(Operand(r), s, q + 1);
      Locality(Operand(r), s, t, q + 1, n);
      if next.Success? {
        RepeatLocality(r, s, t, next.end, n);
      }
    }
  }

  /** No statement begins with the input up to and including the token of its first error. */
  lemma NoStatementExtends(s: seq<TokenKind>, t: seq<TokenKind>)
    requires TopLevelErrors(s, 0) != [] && TopLevelErrors(s, 0)[0].at < |s| && Derives(Assign, t)
    ensures !(s[..TopLevelErrors(s, 0)[0].at + 1] <= t)
  {
    var e := TopLevelErrors(s, 0)[0].at;
    assert t[0..|t|] == t;
    RecognizeComplete(Assign, t, 0, |t|);
    if s[..e + 1] <= t {
      assert t[..e + 1] == s[..e + 1];
      Locality(Assign, s, t, 0, e + 1);
      assert false;
    }
  }

  /** The first error of a rejected input is reported on the first token that no statement
      could have there: everything before it can still be completed to a statement, and
      either the input ends there (and is itself no statement) or no statement starts with
      everything up to and including that token. */
  lemma {:induction false} FirstErrorIsFirstUnviableToken(s: seq<TokenKind>)
    requires TopLevelErrors(s, 0) != []
    ensures var e := TopLevelErrors(s, 0)[0].at;
      && e <= |s|
      && ViablePrefix(s[..e])
      && (e < |s| ==> !ViablePrefix(s[..e + 1]))
      && (e == |s| ==> !Derives(Assign, s))
  {
    var o := Recognize(Assign, s, 0);
    var e := TopLevelErrors(s, 0)[0].at;
    AcceptsExactlyStatements(s);
    if o.Failure? {
      var w := FailureCompletion(Assign, s, 0);
      assert s[0..e] == s[..e];
      assert s[..e] <= s[..e] + w;
    } else {
      RecognizeSound(Assign, s, 0);
      assert s[0..e] == s[..e];
    }
    assert ViablePrefix(s[..e]);
    if e < |s| {
      forall t | Derives(Assign, t) ensures !(s[..e + 1] <= t) {
        NoStatementExtends(s, t);
      }
    }
  }
}
