/** The two roundings the batch service reports: the progress percentage in
    tenths of a percent (`Math.round(count / total * 1000) / 10`) and elapsed
    times in tenths of a second (`Math.round(ms / 100) / 10`). The source
    computes both in floating point; here the quotients are exact rationals
    and both are kept as integers counting tenths. */
module Timing {

  /** `Math.round(n / d)` for non-negative `n`: the nearest integer, halves
      rounding up. */
  function RoundDiv(n: nat, d: nat): (r: nat)
    requires d > 0
    ensures 2 * d * r <= 2 * n + d < 2 * d * r + 2 * d
  {
    (2 * n + d) / (2 * d)
  }

  /** Cancelling a positive factor from a strict inequality. */
  lemma MulLeft(d: nat, a: int, b: int)
    requires d > 0 && d * a < d * b
    ensures a < b
  {
  }

  /** A rounded quotient below a bound `b` whenever `2n + d <= 2db - d`. */
  lemma RoundDivBelow(n: nat, d: nat, b: nat)
    requires d > 0 && 2 * n + d < 2 * d * b
    ensures RoundDiv(n, d) < b
  {
    MulLeft(2 * d, RoundDiv(n, d), b);
  }

  /** A rounded quotient at least `b` whenever `2n + d >= 2db`. */
  lemma RoundDivAtLeast(n: nat, d: nat, b: nat)
    requires d > 0 && 2 * d * b <= 2 * n + d
    ensures b <= RoundDiv(n, d)
  {
    MulLeft(2 * d, b, RoundDiv(n, d) + 1);
  }

  /** Progress after `count` of `total` renders, in tenths of a percent. */
  function PercentTenths(count: nat, total: nat): (p: nat)
    requires 0 < total && count <= total
    ensures p <= 1000
    ensures count == 0 ==> p == 0
  {
    assert count * 1000 <= total * 1000;
    RoundDivBelow(count * 1000, total, 1001);
    var p := RoundDiv(count * 1000, total);
    assert count == 0 ==> p == 0 by {
      if count == 0 {
        RoundDivBelow(0, total, 1);
      }
    }
    p
  }

  /** Elapsed milliseconds rounded to tenths of a second. */
  function ElapsedTenths(ms: nat): (t: nat)
    ensures 100 * t <= ms + 50 < 100 * t + 100
  {
    RoundDiv(ms, 100)
  }

  /** Rounding is monotone in the numerator. */
  lemma RoundDivMonotone(n1: nat, n2: nat, d: nat)
    requires d > 0 && n1 <= n2
    ensures RoundDiv(n1, d) <= RoundDiv(n2, d)
  {
    RoundDivBelow(n1, d, RoundDiv(n2, d) + 1);
  }

  /** Later progress messages never report less. */
  lemma PercentMonotone(c1: nat, c2: nat, total: nat)
    requires 0 < total && c1 <= c2 <= total
    ensures PercentTenths(c1, total) <= PercentTenths(c2, total)
  {
    RoundDivMonotone(c1 * 1000, c2 * 1000, total);
  }

  /** With at most 1000 tasks, each further render raises the percentage. */
  lemma PercentStrictlyIncreasing(c1: nat, c2: nat, total: nat)
    requires 0 < total <= 1000 && c1 < c2 <= total
    ensures PercentTenths(c1, total) < PercentTenths(c2, total)
  {
    var p1 := PercentTenths(c1, total);
    assert c2 * 1000 >= c1 * 1000 + 1000;
    RoundDivAtLeast(c2 * 1000, total, p1 + 1);
  }

  /** With more than 1000 tasks the percentage can stall: two consecutive
      renders of 3000 both report 0.1 percent. */
  lemma PercentCanStall()
    ensures PercentTenths(2, 3000) == PercentTenths(3, 3000) == 1
  {
  }

  /** With fewer than 2000 tasks, 100 percent is reported exactly when every
      task has completed. */
  lemma PercentFullIff(count: nat, total: nat)
    requires 0 < total < 2000 && count <= total
    ensures PercentTenths(count, total) == 1000 <==> count == total
  {
    if count == total {
      RoundDivBelow(count * 1000, total, 1001);
      RoundDivAtLeast(count * 1000, total, 1000);
    } else {
      assert count * 1000 <= total * 1000 - 1000;
      RoundDivBelow(count * 1000, total, 1000);
    }
  }

  /** From 2000 tasks on, 100 percent can be reported one render early. */
  lemma PercentFullEarly()
    ensures PercentTenths(1999, 2000) == 1000
  {
  }

  /** Three tasks report 33.3, 66.7 and 100 percent. */
  lemma PercentThreeTasks()
    ensures PercentTenths(1, 3) == 333
    ensures PercentTenths(2, 3) == 667
    ensures PercentTenths(3, 3) == 1000
  {
  }

  /** Elapsed-time rounding: 1249 ms is 1.2 s, 1250 ms is 1.3 s, and the
      rounding never decreases as time passes. */
  lemma ElapsedRounding(ms1: nat, ms2: nat)
    requires ms1 <= ms2
    ensures ElapsedTenths(ms1) <= ElapsedTenths(ms2)
    ensures ElapsedTenths(1249) == 12 && ElapsedTenths(1250) == 13
  {
    RoundDivMonotone(ms1, ms2, 100);
  }
}
