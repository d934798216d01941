/** LegacyDec: a signed decimal held as an integer scaled by 10^18, with the rounding of each
    operation written out. The 315-bit overflow panic is not modelled. */
module Decimal {

  type Dec = int

  const ONE: int := 1_000_000_000_000_000_000

  /** big.Int.Quo: division truncating toward zero. */
  function QuoTrunc(a: int, b: int): int
    requires b != 0
  {
    if a >= 0 then
      if b > 0 then a / b else -(a / -b)
    else
      if b > 0 then -(-a / b) else -a / -b
  }

  /** chopPrecisionAndRound: drops 18 digits, rounding half to even. */
  function Chop(x: int): int
    decreases x < 0
  {
    if x < 0 then -Chop(-x)
    else
      var quo, rem := x / ONE, x % ONE;
      if 2 * rem < ONE then quo
      else if 2 * rem > ONE then quo + 1
      else if quo % 2 == 0 then quo else quo + 1
  }

  function Mul(a: Dec, b: Dec): Dec { Chop(a * b) }

  function Quo(a: Dec, b: Dec): Dec
    requires b != 0
  {
    Chop(QuoTrunc(a * (ONE * ONE), b))
  }

  /** MulInt and MulInt64 are exact. */
  function MulInt(a: Dec, n: int): Dec { a * n }

  function QuoInt(a: Dec, n: int): Dec
    requires n != 0
  {
    QuoTrunc(a, n)
  }

  function TruncateInt(a: Dec): int { QuoTrunc(a, ONE) }

  /** Chop rounds to a nearest integer, and to the even one when two are equally near. */
  lemma ChopIsNearest(x: int)
    ensures -ONE <= 2 * (ONE * Chop(x) - x) <= ONE
    ensures 2 * (ONE * Chop(x) - x) == ONE || 2 * (ONE * Chop(x) - x) == -ONE ==> Chop(x) % 2 == 0
    decreases x < 0
  {
    if x < 0 {
      ChopIsNearest(-x);
    }
  }

  lemma ChopMonotone(x: int, y: int)
    requires x <= y
    ensures Chop(x) <= Chop(y)
  {
    ChopIsNearest(x);
    ChopIsNearest(y);
  }

  /** What an exact multiple chops to. */
  lemma ChopExact(n: int)
    ensures Chop(n * ONE) == n
  {
    ChopIsNearest(n * ONE);
  }

  lemma MulLe(b: int, x: int, y: int)
    requires b >= 0 && x <= y
    ensures b * x <= b * y
  {
  }

  lemma DivBounds(a: int, b: int)
    requires b > 0
    ensures b * (a / b) <= a < b * (a / b) + b
  {
  }

  lemma DivIs(a: int, b: int, q: int)
    requires b > 0 && b * q <= a < b * q + b
    ensures a / b == q
  {
    DivBounds(a, b);
    var q' := a / b;
    if q' < q {
      MulLe(b, q' + 1, q);
    } else if q' > q {
      MulLe(b, q + 1, q');
    }
  }

  lemma DivMonotone(a: int, a': int, b: int)
    requires b > 0 && a <= a'
    ensures a / b <= a' / b
  {
    DivBounds(a, b);
    DivBounds(a', b);
    if a / b > a' / b {
      MulLe(b, a' / b + 1, a / b);
    }
  }

  lemma DivAtLeast(a: int, b: int, q: int)
    requires b > 0
    ensures a / b >= q <==> a >= b * q
  {
    DivBounds(a, b);
    if a >= b * q && a / b < q {
      MulLe(b, a / b + 1, q);
    }
    if a / b >= q {
      MulLe(b, q, a / b);
    }
  }
}
