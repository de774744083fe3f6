/**
 * The few pieces of JavaScript semantics the components lean on:
 * `Array.prototype.slice`, truthiness and `String.prototype.startsWith`.
 */
module Js {
  import opened Wrappers

  function Min(a: int, b: int): int {
    if a < b then a else b
  }

  /**
   * How `slice` resolves a relative index against a length: a negative index
   * counts from the end, and the result is clamped to [0, len].
   */
  function RelativeIndex(len: nat, k: int): (r: nat)
    ensures r <= len
  {
    if k < 0 then (if len + k < 0 then 0 else len + k)
    else if k > len then len
    else k
  }

  /** `s.slice(0, k)` */
  function SliceTo<T>(s: seq<T>, k: int): seq<T> {
    s[..RelativeIndex(|s|, k)]
  }

  /** `s.slice(k)` */
  function SliceFrom<T>(s: seq<T>, k: int): seq<T> {
    s[RelativeIndex(|s|, k)..]
  }

  /** For a count k >= 0, `s.slice(0, k)` is the first min(|s|, k) items. */
  lemma SliceToIsFirstItems<T>(s: seq<T>, k: int)
    requires k >= 0
    ensures |SliceTo(s, k)| == Min(|s|, k)
    ensures SliceTo(s, k) == s[..Min(|s|, k)]
    ensures forall i :: 0 <= i < |SliceTo(s, k)| ==> SliceTo(s, k)[i] == s[i]
  {
  }

  /**
   * `s.slice(0, k)` and `s.slice(k)` split s at the same point for every k,
   * negative or beyond the end: together they are s, each item once.
   */
  lemma SlicesPartition<T>(s: seq<T>, k: int)
    ensures SliceTo(s, k) + SliceFrom(s, k) == s
    ensures |SliceTo(s, k)| + |SliceFrom(s, k)| == |s|
  {
  }

  /** A string is truthy unless it is `undefined`, `null` or empty. */
  predicate StringTruthy(s: Option<string>) {
    s.Some? && s.value != ""
  }

  /** A number is truthy unless it is `undefined`, `null` or zero. */
  predicate NumberTruthy(n: Option<int>) {
    n.Some? && n.value != 0
  }

  /** `s.startsWith(prefix)` */
  predicate StartsWith(s: string, prefix: string) {
    |prefix| <= |s| && s[..|prefix|] == prefix
  }
}
