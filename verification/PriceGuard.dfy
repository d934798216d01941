/** The price decision of the interchain-query feed: reciprocal normalisation, the liquidity and
    deviation guards, and what they bound over any sequence of results. */
module PriceGuard {
  import opened Common
  import opened Decimal

  datatype Verdict = Accepted | LowLiquidity | TooFar | BadParams

  /** ValidateAndPersistPrice up to the point where it persists. The two parameters are strings in
      the store; None stands for one that does not parse. */
  function Judge(minLiquidity: Option<Dec>, maxDeviation: Option<Dec>, stored: Dec, price: Dec,
                 liquidity: Dec): Verdict {
    if minLiquidity.None? then BadParams
    else if (if liquidity < 0 then 0 else liquidity) < minLiquidity.value then LowLiquidity
    else if maxDeviation.None? then BadParams
    else if stored != 0 && maxDeviation.value > 0 && Deviation(stored, price) > maxDeviation.value then TooFar
    else Accepted
  }

  /** |price - stored| / stored */
  function Deviation(stored: Dec, price: Dec): Dec
    requires stored != 0
  {
    var diff := price - stored;
    Quo(if diff < 0 then -diff else diff, stored)
  }

  function Abs(x: int): nat { if x < 0 then -x else x }

  /** normalizeToCSVPerUSD */
  function Normalize(baseDenom: string, quoteDenom: string, price: Dec): Dec {
    if baseDenom == "ucsv" && quoteDenom == "uusdc" then
      if price == 0 then 0 else Quo(ONE, price)
    else price
  }

  /* ---------- one rounded quotient of non-negative numbers ---------- */

  /** The quotient is off by at most half a unit in the last place, and one part in 10^18 more for
      the digits cut before rounding. */
  lemma QuoBounds(a: Dec, b: Dec)
    requires a >= 0 && b > 0
    ensures Quo(a, b) >= 0
    ensures b * (2 * ONE * Quo(a, b) - ONE) <= 2 * a * (ONE * ONE)
    ensures 2 * a * (ONE * ONE) < b * (2 * ONE * Quo(a, b) + ONE + 2)
  {
    var x := a * (ONE * ONE);
    var t := x / b;
    DivBounds(x, b);
    DivAtLeast(x, b, 0);
    ChopIsNearest(t);
    assert Quo(a, b) == Chop(t);
    hide Quo, Chop;
    RoundedTwice(x, b, t, Chop(t), ONE);
  }

  /** A division rounded down to t, and t / one rounded to a nearest r. */
  lemma RoundedTwice(x: int, b: int, t: int, r: int, one: int)
    requires b > 0 && b * t <= x < b * t + b
    requires -one <= 2 * (one * r - t) <= one
    ensures b * (2 * one * r - one) <= 2 * x < b * (2 * one * r + one + 2)
  {
    MulLe(b, 2 * one * r - one, 2 * t);
    MulLe(b, 2 * t + 2, 2 * one * r + one + 2);
    assert b * (2 * t + 2) == 2 * (b * t + b);
    assert b * (2 * t) == 2 * (b * t);
  }

  /* ---------- the guard ---------- */

  /** What the deviation guard lets through: everything within the exact ratio, and nothing further
      off than one unit in the last place beyond it. */
  lemma GuardBounds(maxDeviation: Dec, stored: Dec, price: Dec)
    requires stored > 0
    ensures Abs(price - stored) * ONE <= stored * maxDeviation ==> Deviation(stored, price) <= maxDeviation
    ensures Deviation(stored, price) <= maxDeviation ==> Abs(price - stored) * ONE < stored * (maxDeviation + 1)
  {
    hide Quo;
    var diff := Abs(price - stored);
    var dev := Deviation(stored, price);
    assert dev == Quo(diff, stored);
    QuoBounds(diff, stored);
    if diff * ONE <= stored * maxDeviation {
      InsideRatio(stored, maxDeviation, diff, dev, ONE);
    }
    if dev <= maxDeviation {
      OutsideRatio(stored, maxDeviation, diff, dev, ONE);
    }
  }

  lemma InsideRatio(s: int, m: int, diff: int, q: int, one: int)
    requires s > 0 && one > 0
    requires s * (2 * one * q - one) <= 2 * diff * (one * one)
    requires diff * one <= s * m
    ensures q <= m
  {
    assert s * one > 0;
    if q > m {
      MulLe(2 * one, m + 1, q);
      MulLe(s, 2 * one * (m + 1) - one, 2 * one * q - one);
      assert s * (2 * one * (m + 1) - one) == 2 * one * (s * m) + s * one;
      assert 2 * diff * (one * one) == 2 * one * (diff * one);
      MulLe(2 * one, diff * one, s * m);
    }
  }

  lemma OutsideRatio(s: int, m: int, diff: int, q: int, one: int)
    requires s > 0 && one >= 2 && q <= m
    requires 2 * diff * (one * one) < s * (2 * one * q + one + 2)
    ensures diff * one < s * (m + 1)
  {
    MulLe(2 * one, q, m);
    MulLe(s, 2 * one * q + one + 2, 2 * one * (m + 1));
    assert s * (2 * one * (m + 1)) == 2 * one * (s * (m + 1));
    assert 2 * diff * (one * one) == 2 * one * (diff * one);
    if diff * one >= s * (m + 1) {
      MulLe(2 * one, s * (m + 1), diff * one);
    }
  }

  /** With a guard strictly between 0 and 1, an accepted price moves the stored one by at most the
      configured ratio plus one unit in the last place, and stays positive. */
  lemma AcceptedStep(minLiquidity: Dec, maxDeviation: Dec, stored: Dec, price: Dec, liquidity: Dec)
    requires 0 < maxDeviation < ONE && stored > 0
    requires Judge(Some(minLiquidity), Some(maxDeviation), stored, price, liquidity) == Accepted
    ensures price > 0
    ensures stored * (ONE - maxDeviation - 1) <= price * ONE <= stored * (ONE + maxDeviation + 1)
  {
    GuardBounds(maxDeviation, stored, price);
    MulLe(stored, maxDeviation + 1, ONE);
    assert Abs(price - stored) * ONE < stored * ONE;
  }

  /** For each stored price: every accepted one is positive exactly when the stored one is and the
      guard is configured strictly between 0 and 1. A price that is not positive, such as the unset
      one, accepts itself; without a guard -1 gets through, and at 1 or above 0 does. */
  lemma PositivityNeedsGuard(minLiquidity: Dec, maxDeviation: Dec, stored: Dec)
    ensures (forall price: Dec, liquidity: Dec ::
               Judge(Some(minLiquidity), Some(maxDeviation), stored, price, liquidity) == Accepted ==> price > 0)
       <==> stored > 0 && 0 < maxDeviation < ONE
  {
    hide Quo;
    var enough := if minLiquidity < 0 then 0 else minLiquidity;
    if stored > 0 && 0 < maxDeviation < ONE {
      forall price: Dec, liquidity: Dec
        | Judge(Some(minLiquidity), Some(maxDeviation), stored, price, liquidity) == Accepted
        ensures price > 0
      {
        AcceptedStep(minLiquidity, maxDeviation, stored, price, liquidity);
      }
    } else if maxDeviation <= 0 {
      assert Judge(Some(minLiquidity), Some(maxDeviation), stored, -1, enough) == Accepted;
    } else if stored <= 0 {
      if stored != 0 { QuoOfZero(stored); }
      assert Judge(Some(minLiquidity), Some(maxDeviation), stored, stored, enough) == Accepted;
    } else {
      QuoOfItself(stored);
      assert Judge(Some(minLiquidity), Some(maxDeviation), stored, 0, enough) == Accepted;
    }
  }

  lemma QuoOfZero(b: Dec)
    requires b != 0
    ensures Quo(0, b) == 0
  {
    if b < 0 {
      DivIs(0, -b, 0);
    } else {
      DivIs(0, b, 0);
    }
  }

  lemma QuoOfItself(a: Dec)
    requires a > 0
    ensures Quo(a, a) == ONE
  {
    DivIs(a * (ONE * ONE), a, ONE * ONE);
    ChopExact(ONE);
  }

  /* ---------- drift over any run of results ---------- */

  function Pow(b: nat, n: nat): nat {
    if n == 0 then 1 else b * Pow(b, n - 1)
  }

  /** n accepted moves keep p within the n-th power of the per-step factor around p0. */
  ghost predicate WithinDrift(p0: Dec, p: Dec, maxDeviation: Dec, n: nat)
    requires 0 < maxDeviation < ONE
  {
    p > 0
    && p0 * Pow(ONE - maxDeviation - 1, n) <= p * Pow(ONE, n) <= p0 * Pow(ONE + maxDeviation + 1, n)
  }

  /** One more accepted price keeps the bound with one more factor; the bound may be a wider one than
      the guard in force. */
  lemma DriftStep(minLiquidity: Dec, maxDeviation: Dec, d: Dec, p0: Dec, p: Dec, n: nat, price: Dec, liquidity: Dec)
    requires 0 < maxDeviation <= d < ONE && p0 > 0 && WithinDrift(p0, p, d, n)
    requires Judge(Some(minLiquidity), Some(maxDeviation), p, price, liquidity) == Accepted
    ensures WithinDrift(p0, price, d, n + 1)
  {
    AcceptedStep(minLiquidity, maxDeviation, p, price, liquidity);
    MulLe(p, maxDeviation, d);
    assert p * (ONE - d - 1) <= p * (ONE - maxDeviation - 1);
    assert p * (ONE + maxDeviation + 1) <= p * (ONE + d + 1);
    CompoundBoth(p0, p, price, ONE - d - 1, ONE + d + 1, ONE, n);
  }

  /** A bound for n accepted prices is one for more of them too. */
  lemma {:induction false} DriftWidens(p0: Dec, p: Dec, d: Dec, n: nat, more: nat)
    requires 0 < d < ONE && p0 > 0 && WithinDrift(p0, p, d, n) && n <= more
    ensures WithinDrift(p0, p, d, more)
    decreases more - n
  {
    if n < more {
      MulLe(p, ONE - d - 1, ONE);
      MulLe(p, ONE, ONE + d + 1);
      CompoundBoth(p0, p, p, ONE - d - 1, ONE + d + 1, ONE, n);
      hide Pow;
      DriftWidens(p0, p, d, n + 1, more);
    }
  }

  lemma CompoundBoth(p0: int, p: int, price: int, lo: nat, hi: nat, one: nat, n: nat)
    requires p0 * Pow(lo, n) <= p * Pow(one, n) <= p0 * Pow(hi, n)
    requires p * lo <= price * one <= p * hi
    ensures p0 * Pow(lo, n + 1) <= price * Pow(one, n + 1) <= p0 * Pow(hi, n + 1)
  {
    var L, S, H := Pow(lo, n), Pow(one, n), Pow(hi, n);
    assert Pow(lo, n + 1) == lo * L && Pow(one, n + 1) == one * S && Pow(hi, n + 1) == hi * H;
    Compound(p0, L, p, S, price, lo, one);
    CompoundAbove(p0, H, p, S, price, hi, one);
  }

  /** Multiplying one step's bound into the bound of the steps before it. */
  lemma Compound(p0: int, factors: int, p: int, ones: int, price: int, factor: int, one: int)
    requires ones >= 0 && factor >= 0
    requires p0 * factors <= p * ones && p * factor <= price * one
    ensures p0 * (factor * factors) <= price * (one * ones)
  {
    MulLe(factor, p0 * factors, p * ones);
    MulLe(ones, p * factor, price * one);
    assert factor * (p0 * factors) == p0 * (factor * factors);
    assert factor * (p * ones) == ones * (p * factor);
    assert ones * (price * one) == price * (one * ones);
  }

  lemma CompoundAbove(p0: int, factors: int, p: int, ones: int, price: int, factor: int, one: int)
    requires ones >= 0 && factor >= 0
    requires p * ones <= p0 * factors && price * one <= p * factor
    ensures price * (one * ones) <= p0 * (factor * factors)
  {
    MulLe(factor, p * ones, p0 * factors);
    MulLe(ones, price * one, p * factor);
    assert factor * (p0 * factors) == p0 * (factor * factors);
    assert factor * (p * ones) == ones * (p * factor);
    assert ones * (price * one) == price * (one * ones);
  }

  /* ---------- the reciprocal ---------- */

  /** For positive prices the stored reciprocal is within half a unit, plus one part in 10^18 of a
      unit, of 10^36 / price in units of the last place. */
  lemma ReciprocalBound(price: Dec)
    requires price > 0
    ensures var r := Normalize("ucsv", "uusdc", price);
            2 * ONE * Abs(r * price - ONE * ONE) <= price * (ONE + 2)
  {
    hide Quo;
    QuoBounds(ONE, price);
    NearReciprocal(price, Quo(ONE, price), 2 * ONE, ONE, ONE * ONE);
  }

  lemma NearReciprocal(price: int, r: int, u: int, one: int, square: int)
    requires price > 0 && price * (u * r - one) <= u * square < price * (u * r + one + 2)
    ensures u * Abs(r * price - square) <= price * (one + 2)
  {
    var q := r * price;
    Regroup(price, u, r, -one);
    Regroup(price, u, r, one + 2);
    assert price * -one == -(price * one) && price * (one + 2) == price * one + 2 * price;
    if q >= square {
      assert u * (q - square) == u * q - u * square;
    } else {
      assert u * (square - q) == u * square - u * q;
    }
  }

  lemma Regroup(price: int, u: int, r: int, c: int)
    ensures price * (u * r + c) == u * (r * price) + price * c
  {
    assert price * (u * r + c) == price * (u * r) + price * c;
    assert price * (u * r) == u * (r * price);
  }

  /** A higher price never has a higher reciprocal. */
  lemma ReciprocalAntitone(p: Dec, q: Dec)
    requires 0 < p <= q
    ensures Normalize("ucsv", "uusdc", p) >= Normalize("ucsv", "uusdc", q) >= 0
  {
    var x := ONE * (ONE * ONE);
    var t, u := x / p, x / q;
    DivBounds(x, q);
    DivAtLeast(x, q, 0);
    MulLe(u, p, q);
    DivAtLeast(x, p, u);
    ChopMonotone(u, t);
    QuoBounds(ONE, q);
  }
}
