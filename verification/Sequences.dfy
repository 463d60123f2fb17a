/** Facts about slices and concatenations that larger proofs call by name. */
module Sequences {

  lemma AppendAssociates<T>(a: seq<T>, b: seq<T>, c: seq<T>)
    ensures a + b + c == a + (b + c)
  {}

  lemma AppendNothing<T>(a: seq<T>)
    ensures a + [] == a
  {}

  lemma SliceAppend<T>(s: seq<T>, t: seq<T>, k: nat)
    requires k <= |s|
    ensures (s + t)[k..] == s[k..] + t && (s + t)[..k] == s[..k]
  {}

  lemma SliceJoin<T>(s: seq<T>, m: nat, n: nat)
    requires m <= n <= |s|
    ensures s[..m] + s[m..n] == s[..n]
  {}

  lemma PrefixNext<T>(s: seq<T>, x: T)
    ensures (s + [x])[..|s| + 1] == s + [x] && s[..|s|] == s
  {}

  lemma PrefixSplit<T>(s: seq<T>, i: nat)
    requires i < |s|
    ensures s[..i + 1] == s[..i] + [s[i]]
  {}
}
