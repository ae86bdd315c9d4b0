/**
 Money in whole cents and quantities in millionths: the roundings of Python's `Decimal.quantize`
 as the fiscal modules use them, and the 16% tax.
 */
module Cents {

  const MICRO: int := 1000000

  /** ROUND_HALF_UP: to the nearest, ties away from zero. */
  function HalfUp(n: int, d: int): int
    requires d > 0
  {
    if n >= 0 then (2 * n + d) / (2 * d) else -((-2 * n + d) / (2 * d))
  }

  /** ROUND_HALF_EVEN, the context's default: to the nearest, ties to the even neighbour. */
  function HalfEven(n: int, d: int): int
    requires d > 0
  {
    var q, r := n / d, n % d;
    if 2 * r < d || (2 * r == d && q % 2 == 0) then q else q + 1
  }

  /** A line of a sale or a return: quantity in millionths, unit price in cents. */
  datatype Line = Line(qty: int, price: int)

  /** quantity × price, in millionths of a cent */
  function Amount(l: Line): int { l.qty * l.price }

  /** `(qty * price).quantize(0.01, ROUND_HALF_UP)` */
  function Importe(l: Line): int { HalfUp(Amount(l), MICRO) }

  /** `(x * 0.16).quantize(0.01, ROUND_HALF_UP)` */
  function Tax(x: int): int { HalfUp(16 * x, 100) }

  /** `(gross / 1.16).quantize(0.01, ROUND_HALF_UP)` */
  function Net(gross: int): int { HalfUp(100 * gross, 116) }

  // ---------------------------------------------------------------- how far a rounding goes

  lemma HalfUpNearest(n: int, d: int)
    requires d == 100 || d == 116 || d == MICRO
    ensures -d <= 2 * (n - HalfUp(n, d) * d) <= d
  {
  }

  /** The nearest multiple, ties to the even one. */
  predicate IsHalfEven(r: int, n: int, d: int) {
    -d <= 2 * (n - r * d) <= d && (2 * (n - r * d) == d || 2 * (n - r * d) == -d ==> r % 2 == 0)
  }

  /** The nearest multiple, ties away from zero. */
  predicate IsHalfUp(r: int, n: int, d: int) {
    -d <= 2 * (n - r * d) <= d && (2 * (n - r * d) == d ==> n < 0) && (2 * (n - r * d) == -d ==> n > 0)
  }

  lemma HalfEvenIs(n: int, d: int)
    requires d == 100 || d == 10000 || d == MICRO
    ensures IsHalfEven(HalfEven(n, d), n, d)
  {
  }

  lemma QuotientIs(n: int, d: int, q: int)
    requires (d == 200 || d == 232 || d == 2000000) && q == n / d
    ensures q * d <= n < q * d + d
  {
  }

  lemma HalfUpIs(n: int, d: int)
    requires d == 100 || d == 116 || d == MICRO
    ensures IsHalfUp(HalfUp(n, d), n, d)
  {
    if n >= 0 {
      QuotientIs(2 * n + d, 2 * d, HalfUp(n, d));
    } else {
      QuotientIs(-2 * n + d, 2 * d, -HalfUp(n, d));
    }
  }

  /** The two modes differ only on ties: by one, away from zero against the even neighbour. */
  lemma ModesDifferExactly(n: int, d: int)
    requires d == 100 || d == MICRO
    ensures HalfUp(n, d) == HalfEven(n, d) <==>
            !(2 * (n % d) == d && (if n >= 0 then (n / d) % 2 == 0 else (n / d) % 2 == 1))
    ensures n >= 0 ==> HalfEven(n, d) <= HalfUp(n, d) <= HalfEven(n, d) + 1
  {
  }

  /** 16% of a whole number of cents never falls on half a cent: both modes give the same tax. */
  lemma TaxNeverTies(x: int)
    ensures (16 * x) % 100 != 50
    ensures HalfEven(16 * x, 100) == Tax(x)
    ensures Tax(x) == (8 * x + 25) / 50
  {
  }

  /** 16 x - 100 Tax(x) is a multiple of four, so it stays within 48 hundredths. */
  lemma TaxError(x: int)
    ensures -48 <= 16 * x - 100 * Tax(x) <= 48
  {
    HalfUpNearest(16 * x, 100);
    assert 16 * x - 100 * Tax(x) == 4 * (4 * x - 25 * Tax(x));
  }

  lemma TaxMonotone(x: int, y: int)
    requires x <= y
    ensures Tax(x) <= Tax(y)
  {
  }

  /** Dividing by 1.16 never meets a tie. */
  lemma NetNeverTies(gross: int)
    ensures (100 * gross) % 116 != 58
    ensures Net(gross) == (50 * gross + 29) / 58
  {
  }
}
