/** Regrouping of sequences, kept out of the proofs that need it. */
module Sequences {

  lemma Regroup<T>(a: seq<T>, b: seq<T>, c: seq<T>)
    ensures a + b + c == a + (b + c)
  {
  }

  lemma AddNothing<T>(a: seq<T>)
    ensures a + [] == a && [] + a == a
  {
  }

  lemma Slices<T>(s: seq<T>, i: nat, j: nat, k: nat)
    requires i <= j <= k <= |s|
    ensures s[i..j] + s[j..k] == s[i..k]
  {
  }

  lemma Prefixes<T>(s: seq<T>, i: nat, j: nat)
    requires i <= j <= |s|
    ensures s[..i] + s[i..j] == s[..j] && s[..i] + s[i..] == s
  {
  }

  lemma ArraySlices<T>(a: array<T>, i: nat, j: nat, k: nat)
    requires i <= j <= k <= a.Length
    ensures a[i..j] + a[j..k] == a[i..k]
  {
  }

  lemma SliceOfTail<T>(a: array<T>, i: nat, k: nat)
    requires i <= k <= a.Length
    ensures a[i..][..k - i] == a[i..k]
  {
  }

  lemma Ends<T>(s: seq<T>, i: nat, k: nat)
    requires i + 2 <= k <= |s|
    ensures s[i..k] == [s[i]] + s[i + 1..k - 1] + [s[k - 1]]
  {
  }

  lemma One<T>(s: seq<T>, i: nat)
    requires i < |s|
    ensures s[i..i + 1] == [s[i]]
  {
  }

  lemma Cut<T>(a: seq<T>, b: seq<T>, c: seq<T>, d: seq<T>)
    ensures var s, i, j := a + b + c + d, |a| + |b|, |a| + |b| + |c|;
            s[..|a|] == a && s[|a|..i] == b && s[i..j] == c && s[j..] == d
  {
  }
}
