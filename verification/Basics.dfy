/** Datatypes shared by the modules of the model. */
module Basics {

  /** A C pointer that may be NULL, or an operation that may find nothing. */
  datatype Option<+T> = None | Some(value: T)

  /** No two positions of `s` hold the same value. */
  ghost predicate Distinct<T>(s: seq<T>) {
    forall i, j :: 0 <= i < j < |s| ==> s[i] != s[j]
  }

  function Elements<T>(s: seq<T>): set<T> {
    set x | x in s
  }

  /** Moving the cut between a prefix and the rest by one. */
  lemma MoveCut<T>(s: seq<T>, n: nat)
    requires n < |s|
    ensures s[..n] + [s[n]] == s[..n + 1]
    ensures s[n..] == [s[n]] + s[n + 1..] && s[n..][1..] == s[n + 1..]
  {
  }

  /** `ys` can be read off `xs` from left to right, each position of `xs` used at most once. */
  predicate IsSubsequence<E(==)>(ys: seq<E>, xs: seq<E>) {
    if ys == [] then true
    else if xs == [] then false
    else if ys[|ys| - 1] == xs[|xs| - 1] && IsSubsequence(ys[..|ys| - 1], xs[..|xs| - 1]) then true
    else IsSubsequence(ys, xs[..|xs| - 1])
  }
}
