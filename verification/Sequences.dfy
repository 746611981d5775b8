// Slices of slices and of concatenations.
module Sequences {
  lemma TakeOfDrop<T>(s: seq<T>, n: nat, m: nat)
    requires n + m <= |s|
    ensures s[n..][..m] == s[n..n + m] && s[..n] + s[n..n + m] == s[..n + m]
  {
  }

  lemma SliceOfDrop<T>(s: seq<T>, n: nat, i: nat, j: nat)
    requires i <= j && n + j <= |s|
    ensures s[n..][i..j] == s[n + i..n + j]
  {
  }

  lemma DropInMiddle<T>(a: seq<T>, b: seq<T>, c: seq<T>, n: nat)
    requires |a| <= n <= |a| + |b|
    ensures (a + b + c)[n..] == b[n - |a|..] + c
    ensures a + b + c == (a + b + c)[..n] + (b[n - |a|..] + c)
  {
  }
}
