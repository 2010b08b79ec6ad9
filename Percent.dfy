/** Exact integer and rational stand-ins for the floating-point percentages and
    `Math.round` calls of the views. */
module Percent {

  /** The rational number `num / den`; every value built here has `den > 0`. */
  datatype Ratio = Ratio(num: int, den: int)

  /** `Math.round(n / d)` for a positive divisor: `floor(n / d + 1/2)`, the integer
      nearest to `n / d`, with halves rounded upward. */
  function RoundDiv(n: int, d: int): (r: int)
    requires d > 0
    ensures 2 * d * r <= 2 * n + d < 2 * d * (r + 1)
  {
    (2 * n + d) / (2 * d)
  }

  /** Rounding a quotient that lies between two integers stays between them. */
  lemma RoundDivBetween(n: int, d: int, lo: int, hi: int)
    requires d > 0
    requires d * lo <= n <= d * hi
    ensures lo <= RoundDiv(n, d) <= hi
  {
    var r := RoundDiv(n, d);
    if r < lo {
      assert 2 * d * (r + 1) <= 2 * d * lo by {
        MulMonotone(2 * d, r + 1, lo);
      }
    }
    if r > hi {
      assert 2 * d * (hi + 1) <= 2 * d * r by {
        MulMonotone(2 * d, hi + 1, r);
      }
    }
  }

  lemma MulMonotone(k: int, a: int, b: int)
    requires k >= 0 && a <= b
    ensures k * a <= k * b
  {
  }

  /** `Math.min(100, (m / t) * 100)`, computed exactly. The divisor `t` is never 0 where
      the views evaluate this (the goal and the badge targets). */
  function CappedPercent(m: int, t: int): (p: Ratio)
    requires t != 0
    ensures p.den > 0
    ensures p.num <= 100 * p.den
    ensures Full(p) <==> (if t > 0 then m >= t else m <= t)
    ensures !Full(p) ==> p.num * t == 100 * m * p.den
  {
    var n := if t > 0 then 100 * m else -100 * m;
    var d := if t > 0 then t else -t;
    if n >= 100 * d then Ratio(100, 1) else Ratio(n, d)
  }

  /** The ratio stands for exactly 100 percent. */
  predicate Full(p: Ratio)
  {
    p.num == 100 * p.den
  }

  /** The whole percentage the views print, `Math.round(progress)`: the whole number nearest
      to `num / den`, halves upward. */
  function Displayed(p: Ratio): (r: int)
    requires p.den > 0
    ensures 2 * p.den * r <= 2 * p.num + p.den < 2 * p.den * (r + 1)
  {
    RoundDiv(p.num, p.den)
  }

  /** A progress of at most 100 percent is printed as at most 100, a full one as exactly 100. */
  lemma DisplayedBounds(p: Ratio)
    requires p.den > 0 && p.num <= 100 * p.den
    ensures Displayed(p) <= 100
    ensures p.num >= 0 ==> Displayed(p) >= 0
    ensures Full(p) ==> Displayed(p) == 100
  {
    var r := Displayed(p);
    if r > 100 {
      MulMonotone(2 * p.den, 101, r);
    }
    if p.num >= 0 {
      RoundDivBetween(p.num, p.den, 0, 100);
    }
    if Full(p) {
      RoundDivBetween(p.num, p.den, 100, 100);
    }
  }
}
