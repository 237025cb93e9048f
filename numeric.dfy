/**
 * The arithmetic of the aggregation code, over exact reals: sums (`reduce((s, v) => s + v, 0)`),
 * `Math.min(100, Math.max(0, x))` and `Math.round`.
 */
module Numeric {

  /** `values.reduce((sum, v) => sum + v, 0)`. */
  function Sum(s: seq<real>): real {
    if s == [] then 0.0 else s[0] + Sum(s[1..])
  }

  lemma {:induction false} SumConcat(a: seq<real>, b: seq<real>)
    ensures Sum(a + b) == Sum(a) + Sum(b)
  {
    if a == [] {
      assert a + b == b;
    } else {
      assert (a + b)[1..] == a[1..] + b;
      SumConcat(a[1..], b);
    }
  }

  /** A sum of `n` values in `[lo, hi]` lies in `[n * lo, n * hi]`. */
  lemma {:induction false} SumBounds(s: seq<real>, lo: real, hi: real)
    requires forall i :: 0 <= i < |s| ==> lo <= s[i] <= hi
    ensures |s| as real * lo <= Sum(s) <= |s| as real * hi
  {
    if s != [] {
      SumBounds(s[1..], lo, hi);
      assert |s| as real * lo == lo + (|s| - 1) as real * lo;
      assert |s| as real * hi == hi + (|s| - 1) as real * hi;
    }
  }

  /** The mean of values in `[lo, hi]` lies in `[lo, hi]`. */
  lemma MeanWithin(s: seq<real>, lo: real, hi: real)
    requires |s| > 0
    ensures (forall i :: 0 <= i < |s| ==> lo <= s[i] <= hi) ==> lo <= Sum(s) / |s| as real <= hi
  {
    var n := |s| as real;
    if forall i :: 0 <= i < |s| ==> lo <= s[i] <= hi {
      SumBounds(s, lo, hi);
      assert Sum(s) / n * n == Sum(s);
    }
  }

  /** The mean times the count is the sum. */
  lemma MeanTimesCount(s: seq<real>)
    requires |s| > 0
    ensures Sum(s) / |s| as real * |s| as real == Sum(s)
  {
  }

  /** `Math.min(100, Math.max(0, x))`: the nearest point of `[0, 100]`. */
  function Clamp(x: real): (r: real)
    ensures 0.0 <= r <= 100.0
    ensures 0.0 <= x <= 100.0 ==> r == x
    ensures x < 0.0 ==> r == 0.0
    ensures x > 100.0 ==> r == 100.0
  {
    var atLeastZero := if x < 0.0 then 0.0 else x;
    if atLeastZero > 100.0 then 100.0 else atLeastZero
  }

  /** `Math.round`: the integer nearest to `x`, halves rounded up. */
  function Round(x: real): (r: int)
    ensures r as real - 0.5 <= x < r as real + 0.5
  {
    (x + 0.5).Floor
  }

  /** Rounding a value that lies between two integers stays between them. */
  lemma RoundWithin(x: real, lo: int, hi: int)
    requires lo as real <= x <= hi as real
    ensures lo <= Round(x) <= hi
  {
  }
}
