/** How slices of a sequence fit back together. */
module Slices {
  /** Slicing a slice: the two halves of `s[p..q]` cut at `m`. */
  lemma Slice<T>(s: seq<T>, p: nat, m: nat, q: nat)
    requires p <= m <= q <= |s|
    ensures s[p..q][..m - p] == s[p..m]
    ensures s[p..q][m - p..] == s[m..q]
  {
  }

  /** The three parts of `a + [x] + b`. */
  lemma Around<T>(a: seq<T>, x: T, b: seq<T>)
    ensures (a + [x] + b)[..|a|] == a
    ensures (a + [x] + b)[|a|] == x
    ensures (a + [x] + b)[|a| + 1..] == b
  {
  }

  /** Cutting `a + [x] + b` inside `a`. */
  lemma Inside<T>(a: seq<T>, x: T, b: seq<T>, i: nat)
    requires i < |a|
    ensures (a + [x] + b)[..i] == a[..i]
    ensures (a + [x] + b)[i] == a[i]
    ensures (a + [x] + b)[i + 1..] == a[i + 1..] + [x] + b
  {
  }

  /** `s[p..e]` around the element at `q`, followed by `w`. */
  lemma Adjacent<T>(s: seq<T>, p: nat, q: nat, e: nat, w: seq<T>)
    requires p <= q < e <= |s|
    ensures s[p..e] + w == s[p..q] + [s[q]] + (s[q + 1..e] + w)
  {
    assert s[p..e] == s[p..q] + [s[q]] + s[q + 1..e];
  }

  /** `s[p..e]` is its first element followed by the rest. */
  lemma Cons<T>(s: seq<T>, p: nat, e: nat)
    requires p < e <= |s|
    ensures s[p..e] == [s[p]] + s[p + 1..e]
  {
  }

  /** `u` around its element at `j`. */
  lemma Split<T>(u: seq<T>, j: nat)
    requires j < |u|
    ensures u == u[..j] + [u[j]] + u[j + 1..]
  {
  }

  /** A prefix of a prefix. */
  lemma Prefix<T>(u: seq<T>, j: nat, i: nat)
    requires i <= j <= |u|
    ensures u[..j][..i] == u[..i]
  {
  }

  /** The part of `u` after `i`, around its element at `j`. */
  lemma Middle<T>(u: seq<T>, i: nat, j: nat)
    requires i < j < |u|
    ensures u[i + 1..] == u[..j][i + 1..] + [u[j]] + u[j + 1..]
  {
    assert u[i + 1..] == u[i + 1..j] + [u[j]] + u[j + 1..];
  }
}
