/**
 * The two pieces of Python/numpy numeric behaviour the pipeline leans on:
 * `int(x)` on a float, which truncates toward zero, and the way a slice
 * bound is normalised against the length of the sequence it slices.
 */
module PyNum {

  /** Python's `int(x)` for a float `x`: truncation toward zero. */
  function Int(x: real): (n: int)
    ensures 0.0 <= x ==> 0 <= n && n as real <= x < n as real + 1.0
    ensures x < 0.0 ==> n <= 0 && x <= n as real < x + 1.0
  {
    if 0.0 <= x then x.Floor else -((-x).Floor)
  }

  lemma IntOfWhole(n: int)
    ensures Int(n as real) == n
  {
  }

  /** A whole number plus one half truncates to the whole number. */
  lemma IntOfHalf(n: nat)
    ensures Int(n as real + 0.5) == n
  {
  }

  /**
   * Where a slice bound `i` lands in a sequence of length `n` (step 1):
   * a negative bound counts from the end, and the result is clamped to
   * `[0, n]`.
   */
  function SliceBound(i: int, n: nat): (j: nat)
    ensures j <= n
    ensures 0 <= i <= n ==> j == i
  {
    if i < 0 then (if i + n < 0 then 0 else i + n)
    else if i > n then n
    else i
  }

  /** The length of `s[start:stop]` for a sequence of length `n`. */
  function SliceLength(start: int, stop: int, n: nat): (len: nat)
    ensures SliceBound(start, n) + len <= n
    ensures 0 <= start <= stop <= n ==> len == stop - start
  {
    var a := SliceBound(start, n);
    var b := SliceBound(stop, n);
    if b < a then 0 else b - a
  }

}
