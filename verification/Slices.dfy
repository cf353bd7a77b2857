/** Equalities between slices of sequences, each stated once so that proofs by
    induction need not find them among everything else they know. */
module Slices {

  lemma SplitEnd<T>(s: seq<T>)
    requires s != []
    ensures s == s[..|s| - 1] + [s[|s| - 1]]
  {
  }

  lemma PrefixOfPrefix<T>(s: seq<T>, i: nat)
    requires i < |s|
    ensures s[..i + 1][..i] == s[..i]
    ensures s[..i + 1] == s[..i] + [s[i]]
  {
  }

  lemma UpdatedPrefix<T>(s: seq<T>, i: nat, x: T)
    requires i < |s|
    ensures s[i := x][..|s| - 1] == if i < |s| - 1 then s[..|s| - 1][i := x] else s[..|s| - 1]
  {
  }

  lemma AppendedPrefix<T>(a: seq<T>, b: seq<T>)
    requires b != []
    ensures (a + b)[..|a + b| - 1] == a + b[..|b| - 1]
  {
  }

  /** The sequence without its element at `i`. */
  function Without<T>(s: seq<T>, i: nat): (r: seq<T>)
    requires i < |s|
    ensures |r| == |s| - 1
  {
    s[..i] + s[i + 1..]
  }

  lemma WithoutPrefix<T>(s: seq<T>, i: nat)
    requires i < |s|
    ensures i == |s| - 1 ==> Without(s, i) == s[..|s| - 1]
    ensures i < |s| - 1 ==> Without(s, i)[|s| - 2] == s[|s| - 1]
    ensures i < |s| - 1 ==> Without(s, i)[..|s| - 2] == Without(s[..|s| - 1], i)
  {
  }
}
