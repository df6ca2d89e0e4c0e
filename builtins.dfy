/**
 * The Python built-ins the data loader relies on: `int()` applied to a
 * number (truncation toward zero), `max`/`min` on two numbers, and list
 * slicing `w[lo:hi]` with non-negative bounds.
 */
module Builtins {

  /** Python's `int(x)` for a finite float `x`: rounds toward zero. */
  function Trunc(x: real): (r: int)
    ensures 0.0 <= x ==> r as real <= x < r as real + 1.0
    ensures x < 0.0 ==> r as real - 1.0 < x <= r as real
  {
    if x >= 0.0 then x.Floor else -((-x).Floor)
  }

  /** An integer is its own truncation. */
  lemma TruncOfInt(k: int)
    ensures Trunc(k as real) == k
  {
  }

  /** Truncation toward zero is monotone. */
  lemma TruncMonotone(x: real, y: real)
    requires x <= y
    ensures Trunc(x) <= Trunc(y)
  {
  }

  /** Truncation is off by less than one. */
  lemma TruncError(x: real)
    ensures x - 1.0 < Trunc(x) as real < x + 1.0
  {
  }

  function Max(a: int, b: int): int { if a >= b then a else b }

  function Min(a: int, b: int): int { if a <= b then a else b }

  function MaxReal(a: real, b: real): real { if a >= b then a else b }

  /**
   * Python's `w[lo:hi]` for non-negative `lo` and `hi`: both bounds are
   * clamped to the length of `w`, and an inverted range is empty.
   */
  function Slice<T>(w: seq<T>, lo: nat, hi: nat): (r: seq<T>)
    ensures |r| == Max(0, Min(hi, |w|) - Min(lo, |w|))
    ensures forall k :: 0 <= k < |r| ==> lo + k < |w| && r[k] == w[lo + k]
  {
    var l := Min(lo, |w|);
    var h := Min(hi, |w|);
    if l <= h then w[l..h] else []
  }
}
