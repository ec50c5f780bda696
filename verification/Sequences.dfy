/** Small facts about sequences, each proved away from the contexts that need it. */
module Sequences {

  /** The first `n` elements, or all if there are fewer. */
  function Take<T>(xs: seq<T>, n: nat): seq<T> {
    if |xs| <= n then xs else xs[..n]
  }

  lemma ConcatAssociative<T>(a: seq<T>, b: seq<T>, c: seq<T>)
    ensures (a + b) + c == a + (b + c)
  {
  }

  lemma SplitAt<T>(s: seq<T>, k: nat)
    requires k <= |s|
    ensures s == s[..k] + s[k..]
  {
  }

  lemma SplitTwice<T>(s: seq<T>, j: nat, k: nat)
    requires j <= k <= |s|
    ensures s == s[..j] + s[j..k] + s[k..]
  {
  }

  lemma SliceOfConcat<T>(a: seq<T>, b: seq<T>, k: nat)
    requires k <= |a|
    ensures (a + b)[..k] == a[..k]
    ensures (a + b)[k..] == a[k..] + b
  {
  }

  lemma SliceOfTake<T>(s: seq<T>, j: nat, k: nat)
    requires j <= k <= |s|
    ensures s[..k][j..] == s[j..k] && s[..k][..j] == s[..j]
    ensures s[j..k] + s[k..] == s[j..]
  {
  }

  lemma HeadTail<T>(x: T, s: seq<T>, t: seq<T>)
    ensures ([x] + s) + t == [x] + (s + t)
    ensures ([x] + s)[1..] == s
  {
  }

  lemma PrefixTrans<T>(a: seq<T>, b: seq<T>, c: seq<T>)
    requires a <= b && b <= c
    ensures a <= c
  {
  }
}
