/** Generic facts about sequences shared by the sanitiser and the recent-history list. */
module Sequences {

  /** `t` is obtained from `s` by deleting zero or more elements: the kept ones stay in order. */
  predicate IsSubsequence<T(==)>(t: seq<T>, s: seq<T>)
    decreases |s|
  {
    if t == [] then true
    else if s == [] then false
    else (t[0] == s[0] && IsSubsequence(t[1..], s[1..])) || IsSubsequence(t, s[1..])
  }

  /** `Array.prototype.slice(0, n)`: the first `n` elements, or all of them when there are fewer. */
  function Take<T>(s: seq<T>, n: nat): (r: seq<T>)
    ensures |r| == if |s| <= n then |s| else n
    ensures r <= s
  {
    if |s| <= n then s else s[..n]
  }

  /** Taking from a sequence with a known head keeps that head and takes one fewer from the rest. */
  lemma TakeCons<T>(x: T, s: seq<T>, n: nat)
    ensures Take([x] + s, n + 1) == [x] + Take(s, n)
  {
  }

  /** Any prefix of a subsequence of `s` is again a subsequence of `s`. */
  lemma {:induction false} PrefixOfSubsequence<T>(t: seq<T>, s: seq<T>, n: nat)
    requires IsSubsequence(t, s)
    requires n <= |t|
    ensures IsSubsequence(t[..n], s)
    decreases |s|
  {
    if n == 0 || t == [] {
    } else if t[0] == s[0] && IsSubsequence(t[1..], s[1..]) {
      PrefixOfSubsequence(t[1..], s[1..], n - 1);
      assert t[..n][1..] == t[1..][..n - 1];
    } else {
      PrefixOfSubsequence(t, s[1..], n);
    }
  }
}
