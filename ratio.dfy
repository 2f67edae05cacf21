/** Facts about the ratio of two counts, as exact rationals. */
module Ratio {

  /** A count over a larger positive count lies in [0, 1], is 1 only when the
      counts agree and 0 only when the numerator is 0. */
  lemma RatioBounds(n: nat, d: nat)
    requires n <= d && d > 0
    ensures 0.0 <= n as real / d as real <= 1.0
    ensures n as real / d as real == 1.0 <==> n == d
    ensures n as real / d as real == 0.0 <==> n == 0
  {
    var r := n as real / d as real;
    assert r * d as real == n as real;
  }

  /** The ratios of two numerators over one denominator are ordered as the numerators. */
  lemma RatioMonotone(n: nat, m: nat, d: nat)
    requires n <= m && d > 0
    ensures n as real / d as real <= m as real / d as real
  {
    var r, s := n as real / d as real, m as real / d as real;
    assert r * d as real == n as real;
    assert s * d as real == m as real;
  }
}
