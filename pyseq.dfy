/** Python's slice `s[start:stop]` (step 1) on sequences. */
module PySeq {

  /** How Python reads a slice bound: a negative bound counts from the end, then the bound is clamped into [0, n]. */
  function Bound(i: int, n: nat): (b: nat)
    ensures b <= n
    ensures 0 <= i <= n ==> b == i
  {
    if i < 0 then (if i + n < 0 then 0 else i + n)
    else if i > n then n
    else i
  }

  /** `s[start:stop]`: never fails, whatever the bounds. */
  function Slice<T>(s: seq<T>, start: int, stop: int): (r: seq<T>)
    ensures |r| <= |s|
  {
    var lo, hi := Bound(start, |s|), Bound(stop, |s|);
    if lo < hi then s[lo..hi] else []
  }

  function Min(a: int, b: int): int {
    if a <= b then a else b
  }

  /** With non-negative bounds a slice is the stretch between them, cut off at the end of `s`. */
  lemma SliceForward<T>(s: seq<T>, start: nat, stop: nat)
    requires start <= stop
    ensures Slice(s, start, stop) == s[Min(start, |s|)..Min(stop, |s|)]
  {
  }

  /** `s[:k]` for `k >= 0` is the prefix of `s` of length `min(k, |s|)`. */
  lemma SlicePrefix<T>(s: seq<T>, k: nat)
    ensures Slice(s, 0, k) == s[..Min(k, |s|)]
  {
  }
}
