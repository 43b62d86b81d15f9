/**
 * The protocol-side arithmetic of the calculator: decimal expansion of token
 * amounts, the Q96 square-root-price representation and the two
 * liquidity-for-amount formulas of Uniswap V3 (the `LiquidityAmounts`
 * library of v3-periphery).
 *
 * The original evaluates these with Python `Decimal`; here they are exact
 * `real`s. Dafny has no square root on `real`, so every square root the
 * original computes is handed in as a parameter together with the fact
 * `IsSqrt(x, root)`; `SqrtUnique` shows that the choice of root cannot
 * change any result.
 */
module FixedPoint {

  /** b^n, for the bases the calculator uses (2 and 10). */
  function Pow(b: real, n: nat): real {
    if n == 0 then 1.0 else b * Pow(b, n - 1)
  }

  lemma {:induction false} PowAtLeastOne(b: real, n: nat)
    requires b >= 1.0
    ensures Pow(b, n) >= 1.0
  {
    if n > 0 {
      PowAtLeastOne(b, n - 1);
      MulMonotone(1.0, Pow(b, n - 1), b);
    }
  }

  /** 10^n, the scale of a token amount with n decimals. */
  function Pow10(n: nat): (r: real)
    ensures r >= 1.0
  {
    PowAtLeastOne(10.0, n);
    Pow(10.0, n)
  }

  /** The protocol's fixed-point scale for square-root prices, 2^96. */
  const Q96: real := 79228162514264337593543950336.0

  /** The literal above is 2^96. */
  lemma Q96IsTwoToThe96()
    ensures Q96 == Pow(2.0, 96)
  {
    assert Pow(2.0, 8) == 256.0;
    PowAdd(2.0, 8, 8);
    PowAdd(2.0, 16, 16);
    PowAdd(2.0, 32, 32);
    PowAdd(2.0, 64, 32);
  }

  lemma {:induction false} PowAdd(b: real, m: nat, n: nat)
    ensures Pow(b, m + n) == Pow(b, m) * Pow(b, n)
  {
    if m > 0 {
      var x, y := Pow(b, m - 1), Pow(b, n);
      calc {
        Pow(b, m + n);
        { assert m + n == (m - 1 + n) + 1; }
        b * Pow(b, m - 1 + n);
        { PowAdd(b, m - 1, n); }
        b * (x * y);
        { MulAssociative(b, x, y); }
        (b * x) * y;
        Pow(b, m) * y;
      }
    }
  }

  /** `r` is the non-negative square root of `x`. */
  predicate IsSqrt(x: real, r: real) {
    r >= 0.0 && r * r == x
  }

  /** A number has at most one non-negative square root. */
  lemma SqrtUnique(x: real, r1: real, r2: real)
    requires IsSqrt(x, r1) && IsSqrt(x, r2)
    ensures r1 == r2
  {
    if r1 < r2 {
      SqrtStrictlyMonotone(r1 * r1, r2 * r2, r1, r2);
    } else if r2 < r1 {
      SqrtStrictlyMonotone(r2 * r2, r1 * r1, r2, r1);
    }
  }

  lemma MulPositive(x: real, y: real)
    requires x > 0.0 && y > 0.0
    ensures x * y > 0.0
  {
  }

  /** Multiplying by a positive factor preserves order. */
  lemma MulMonotone(a: real, b: real, k: real)
    requires k > 0.0
    ensures a < b <==> a * k < b * k
    ensures a <= b <==> a * k <= b * k
  {
    assert b * k - a * k == (b - a) * k;
    assert a * k - b * k == (a - b) * k;
    if a < b {
      MulPositive(b - a, k);
    } else if b < a {
      MulPositive(a - b, k);
    }
  }

  lemma MulAssociative(x: real, y: real, z: real)
    ensures x * (y * z) == (x * y) * z
  {
  }

  lemma DivMulCancel(x: real, k: real)
    requires k != 0.0
    ensures x / k * k == x && x * k / k == x
  {
  }

  /** Dividing by a positive number preserves order. */
  lemma DivMonotone(a: real, b: real, k: real)
    requires k > 0.0
    ensures a < b <==> a / k < b / k
    ensures a <= b <==> a / k <= b / k
  {
    MulMonotone(a / k, b / k, k);
    assert a / k * k == a && b / k * k == b;
  }

  /** Squaring is strictly increasing on non-negative numbers. */
  lemma SqrtStrictlyMonotone(x: real, y: real, rx: real, ry: real)
    requires IsSqrt(x, rx) && IsSqrt(y, ry)
    ensures x < y <==> rx < ry
  {
    if rx < ry {
      SquareStrictlyMonotone(rx, ry);
    } else if ry < rx {
      SquareStrictlyMonotone(ry, rx);
    }
  }

  lemma SquareStrictlyMonotone(a: real, b: real)
    requires 0.0 <= a < b
    ensures a * a < b * b
  {
    MulPositive(b - a, b + a);
    assert b * b - a * a == (b - a) * (b + a);
  }

  /** The same comparison without strictness. */
  lemma SqrtMonotone(x: real, y: real, rx: real, ry: real)
    requires IsSqrt(x, rx) && IsSqrt(y, ry)
    ensures x <= y <==> rx <= ry
  {
    SqrtStrictlyMonotone(y, x, ry, rx);
  }

  /** `expand_decimals`: a human-readable quantity scaled by 10^exp. */
  function ExpandDecimals(n: real, exp: nat): (r: real)
    ensures (r > 0.0 <==> n > 0.0) && (r == 0.0 <==> n == 0.0)
  {
    n * Pow10(exp)
  }

  /** `mul_div`: the exact quotient a * b / multiplier. */
  function MulDiv(a: real, b: real, multiplier: real): (r: real)
    requires multiplier != 0.0
    ensures r * multiplier == a * b
  {
    a * b / multiplier
  }

  /**
   * The ratio whose square root `get_sqrt_price_x96` takes: the price
   * expanded by token0's decimals over one unit expanded by token1's.
   */
  function PriceRatio(price: real, token0Decimal: nat, token1Decimal: nat): real {
    ExpandDecimals(price, token0Decimal) / ExpandDecimals(1.0, token1Decimal)
  }

  /**
   * `get_sqrt_price_x96`: sqrt(price * 10^token0Decimal / 10^token1Decimal)
   * scaled by 2^96; `sqrtRatio` is that square root, before scaling.
   */
  function SqrtPriceX96(price: real, token0Decimal: nat, token1Decimal: nat, sqrtRatio: real): (r: real)
    requires IsSqrt(PriceRatio(price, token0Decimal, token1Decimal), sqrtRatio)
    ensures r >= 0.0
    ensures IsSqrt(PriceRatio(price, token0Decimal, token1Decimal), r / Q96)
  {
    sqrtRatio * Q96
  }

  /** A positive price has a positive square-root price. */
  lemma SqrtPriceX96Positive(price: real, token0Decimal: nat, token1Decimal: nat, sqrtRatio: real)
    requires IsSqrt(PriceRatio(price, token0Decimal, token1Decimal), sqrtRatio)
    requires price > 0.0
    ensures SqrtPriceX96(price, token0Decimal, token1Decimal, sqrtRatio) > 0.0
  {
    DivMonotone(0.0, ExpandDecimals(price, token0Decimal), ExpandDecimals(1.0, token1Decimal));
    assert sqrtRatio != 0.0;
    MulPositive(sqrtRatio, Q96);
  }

  /** The inverse conversion: from a Q96 square-root price back to a human price. */
  function PriceFromSqrtX96(sqrtPriceX96: real, token0Decimal: nat, token1Decimal: nat): real {
    (sqrtPriceX96 / Q96) * (sqrtPriceX96 / Q96) * Pow10(token1Decimal) / Pow10(token0Decimal)
  }

  /** Dividing an expanded quantity by 10^exp gives back the quantity. */
  lemma ExpandDecimalsRoundTrip(n: real, exp: nat)
    ensures ExpandDecimals(n, exp) / Pow10(exp) == n
  {
    var e := Pow10(exp);
    assert ExpandDecimals(n, exp) == n * e;
    assert n * e / e == n;
  }

  /** Squaring, unscaling and undoing the decimal expansion recovers the price. */
  lemma SqrtPriceX96RoundTrip(price: real, token0Decimal: nat, token1Decimal: nat, sqrtRatio: real)
    requires IsSqrt(PriceRatio(price, token0Decimal, token1Decimal), sqrtRatio)
    ensures PriceFromSqrtX96(SqrtPriceX96(price, token0Decimal, token1Decimal, sqrtRatio),
                             token0Decimal, token1Decimal) == price
  {
    var a, b := Pow10(token0Decimal), Pow10(token1Decimal);
    var s := SqrtPriceX96(price, token0Decimal, token1Decimal, sqrtRatio);
    DivMulCancel(sqrtRatio, Q96);
    assert s / Q96 == sqrtRatio;
    assert ExpandDecimals(1.0, token1Decimal) == b;
    assert sqrtRatio * sqrtRatio == price * a / b;
    UnscaleRatio(price, a, b, sqrtRatio * sqrtRatio);
  }

  lemma UnscaleRatio(p: real, a: real, b: real, sq: real)
    requires a > 0.0 && b > 0.0 && sq == p * a / b
    ensures sq * b / a == p
  {
    DivMulCancel(p * a, b);
    DivMulCancel(p, a);
  }

  /** The conversion preserves the order of prices, strictly and not. */
  lemma SqrtPriceX96Monotone(p: real, q: real, token0Decimal: nat, token1Decimal: nat, rp: real, rq: real)
    requires IsSqrt(PriceRatio(p, token0Decimal, token1Decimal), rp)
    requires IsSqrt(PriceRatio(q, token0Decimal, token1Decimal), rq)
    ensures p <= q <==> SqrtPriceX96(p, token0Decimal, token1Decimal, rp) <= SqrtPriceX96(q, token0Decimal, token1Decimal, rq)
    ensures p < q <==> SqrtPriceX96(p, token0Decimal, token1Decimal, rp) < SqrtPriceX96(q, token0Decimal, token1Decimal, rq)
  {
    var x, y := PriceRatio(p, token0Decimal, token1Decimal), PriceRatio(q, token0Decimal, token1Decimal);
    RatioMonotone(p, q, token0Decimal, token1Decimal);
    SqrtStrictlyMonotone(x, y, rp, rq);
    SqrtMonotone(x, y, rp, rq);
    MulMonotone(rp, rq, Q96);
  }

  lemma RatioMonotone(p: real, q: real, token0Decimal: nat, token1Decimal: nat)
    ensures p < q <==> PriceRatio(p, token0Decimal, token1Decimal) < PriceRatio(q, token0Decimal, token1Decimal)
    ensures p <= q <==> PriceRatio(p, token0Decimal, token1Decimal) <= PriceRatio(q, token0Decimal, token1Decimal)
  {
    var a, b := Pow10(token0Decimal), Pow10(token1Decimal);
    assert ExpandDecimals(1.0, token1Decimal) == b;
    assert PriceRatio(p, token0Decimal, token1Decimal) == p * a / b;
    assert PriceRatio(q, token0Decimal, token1Decimal) == q * a / b;
    ScaleMonotone(p, q, a, b);
  }

  lemma ScaleMonotone(p: real, q: real, a: real, b: real)
    requires a > 0.0 && b > 0.0
    ensures p < q <==> p * a / b < q * a / b
    ensures p <= q <==> p * a / b <= q * a / b
  {
    MulMonotone(p, q, a);
    DivMonotone(p * a, q * a, b);
  }

  /**
   * `get_liquidity_for_amount0`: amount0 * (sqrtB * sqrtA / Q96) / (sqrtB - sqrtA),
   * the liquidity a token0-only deposit provides over [sqrtA, sqrtB].
   */
  function LiquidityForAmount0(sqrtA: real, sqrtB: real, amount0: real): (liquidity: real)
    requires sqrtA != sqrtB
    ensures liquidity * (sqrtB - sqrtA) * Q96 == amount0 * sqrtB * sqrtA
  {
    var intermediate := MulDiv(sqrtB, sqrtA, Q96);
    MulDiv(amount0, intermediate, sqrtB - sqrtA)
  }

  /**
   * `get_liquidity_for_amount1`: amount1 * Q96 / (sqrtB - sqrtA), the
   * liquidity a token1-only deposit provides over [sqrtA, sqrtB].
   */
  function LiquidityForAmount1(sqrtA: real, sqrtB: real, amount1: real): (liquidity: real)
    requires sqrtA != sqrtB
    ensures liquidity * (sqrtB - sqrtA) == amount1 * Q96
  {
    MulDiv(amount1, Q96, sqrtB - sqrtA)
  }

  /** How much token0 a liquidity needs over [sqrtA, sqrtB] (the protocol's getAmount0ForLiquidity). */
  function Amount0ForLiquidity(sqrtA: real, sqrtB: real, liquidity: real): real
    requires sqrtA > 0.0 && sqrtB > 0.0
  {
    liquidity * Q96 * (sqrtB - sqrtA) / (sqrtB * sqrtA)
  }

  /** How much token1 a liquidity needs over [sqrtA, sqrtB] (the protocol's getAmount1ForLiquidity). */
  function Amount1ForLiquidity(sqrtA: real, sqrtB: real, liquidity: real): real {
    liquidity * (sqrtB - sqrtA) / Q96
  }

  /** The token0 formula is the inverse of the protocol's token0 amount for a liquidity. */
  lemma LiquidityForAmount0RoundTrip(sqrtA: real, sqrtB: real, amount0: real)
    requires 0.0 < sqrtA < sqrtB
    ensures Amount0ForLiquidity(sqrtA, sqrtB, LiquidityForAmount0(sqrtA, sqrtB, amount0)) == amount0
  {
    var l := LiquidityForAmount0(sqrtA, sqrtB, amount0);
    var u := sqrtB * sqrtA;
    MulPositive(sqrtB, sqrtA);
    assert l * (sqrtB - sqrtA) * Q96 == amount0 * u;
    assert l * Q96 * (sqrtB - sqrtA) == amount0 * u;
    DivMulCancel(amount0, u);
  }

  /** The token1 formula is the inverse of the protocol's token1 amount for a liquidity. */
  lemma LiquidityForAmount1RoundTrip(sqrtA: real, sqrtB: real, amount1: real)
    requires sqrtA < sqrtB
    ensures Amount1ForLiquidity(sqrtA, sqrtB, LiquidityForAmount1(sqrtA, sqrtB, amount1)) == amount1
  {
    var l := LiquidityForAmount1(sqrtA, sqrtB, amount1);
    assert l * (sqrtB - sqrtA) == amount1 * Q96;
  }

  /**
   * For a positive amount over a proper range both formulas give positive
   * liquidity; the token0 formula also needs a positive lower bound.
   */
  lemma LiquidityForAmountPositive(sqrtA: real, sqrtB: real, amount: real)
    requires sqrtA < sqrtB && amount > 0.0
    ensures 0.0 < sqrtA ==> LiquidityForAmount0(sqrtA, sqrtB, amount) > 0.0
    ensures LiquidityForAmount1(sqrtA, sqrtB, amount) > 0.0
  {
    var d := sqrtB - sqrtA;
    var l1 := LiquidityForAmount1(sqrtA, sqrtB, amount);
    assert amount * Q96 > 0.0;
    if 0.0 < sqrtA {
      var l0 := LiquidityForAmount0(sqrtA, sqrtB, amount);
      assert amount * sqrtB * sqrtA > 0.0;
      assert l0 * (d * Q96) > 0.0;
      assert d * Q96 > 0.0;
    }
  }

  /** Both formulas are linear in the amount: scaling the deposit scales the liquidity. */
  lemma LiquidityForAmountLinear(sqrtA: real, sqrtB: real, amount: real, k: real)
    requires sqrtA != sqrtB
    ensures LiquidityForAmount0(sqrtA, sqrtB, k * amount) == k * LiquidityForAmount0(sqrtA, sqrtB, amount)
    ensures LiquidityForAmount1(sqrtA, sqrtB, k * amount) == k * LiquidityForAmount1(sqrtA, sqrtB, amount)
  {
    var d := sqrtB - sqrtA;
    var i := MulDiv(sqrtB, sqrtA, Q96);
    assert LiquidityForAmount0(sqrtA, sqrtB, k * amount) == k * amount * i / d;
    assert LiquidityForAmount0(sqrtA, sqrtB, amount) == amount * i / d;
    assert LiquidityForAmount1(sqrtA, sqrtB, k * amount) == k * amount * Q96 / d;
    assert LiquidityForAmount1(sqrtA, sqrtB, amount) == amount * Q96 / d;
  }

  /**
   * Over a proper range both formulas are strictly increasing in the
   * amount; the token0 formula also needs a positive lower bound.
   */
  lemma LiquidityForAmountMonotone(sqrtA: real, sqrtB: real, a: real, b: real)
    requires sqrtA < sqrtB && a < b
    ensures 0.0 < sqrtA ==> LiquidityForAmount0(sqrtA, sqrtB, a) < LiquidityForAmount0(sqrtA, sqrtB, b)
    ensures LiquidityForAmount1(sqrtA, sqrtB, a) < LiquidityForAmount1(sqrtA, sqrtB, b)
  {
    LiquidityForAmountPositive(sqrtA, sqrtB, b - a);
    LiquidityForAmountAdditive(sqrtA, sqrtB, a, b - a);
  }

  lemma LiquidityForAmountAdditive(sqrtA: real, sqrtB: real, a: real, b: real)
    requires sqrtA != sqrtB
    ensures LiquidityForAmount0(sqrtA, sqrtB, a + b) == LiquidityForAmount0(sqrtA, sqrtB, a) + LiquidityForAmount0(sqrtA, sqrtB, b)
    ensures LiquidityForAmount1(sqrtA, sqrtB, a + b) == LiquidityForAmount1(sqrtA, sqrtB, a) + LiquidityForAmount1(sqrtA, sqrtB, b)
  {
    var d := sqrtB - sqrtA;
    var i := MulDiv(sqrtB, sqrtA, Q96);
    assert (a + b) * i / d == a * i / d + b * i / d;
    assert (a + b) * Q96 / d == a * Q96 / d + b * Q96 / d;
  }

  /** Over a proper range the token0 a liquidity needs grows with the liquidity. */
  lemma Amount0ForLiquidityMonotone(sqrtA: real, sqrtB: real, l1: real, l2: real)
    requires 0.0 < sqrtA < sqrtB && l1 <= l2
    ensures Amount0ForLiquidity(sqrtA, sqrtB, l1) <= Amount0ForLiquidity(sqrtA, sqrtB, l2)
  {
    var k := Q96 * (sqrtB - sqrtA);
    MulPositive(sqrtB, sqrtA);
    MulMonotone(l1, l2, k);
    MulAssociative(l1, Q96, sqrtB - sqrtA);
    MulAssociative(l2, Q96, sqrtB - sqrtA);
    DivMonotone(l1 * k, l2 * k, sqrtB * sqrtA);
  }

  /** Over a proper range the token1 a liquidity needs grows with the liquidity. */
  lemma Amount1ForLiquidityMonotone(sqrtA: real, sqrtB: real, l1: real, l2: real)
    requires sqrtA < sqrtB && l1 <= l2
    ensures Amount1ForLiquidity(sqrtA, sqrtB, l1) <= Amount1ForLiquidity(sqrtA, sqrtB, l2)
  {
    MulMonotone(l1, l2, sqrtB - sqrtA);
    DivMonotone(l1 * (sqrtB - sqrtA), l2 * (sqrtB - sqrtA), Q96);
  }

  /**
   * Inside the range, a liquidity no larger than either single-token
   * liquidity needs no more than the deposited amount of either token: the
   * reason `getLiquidityForAmounts` takes the minimum of the two.
   */
  lemma MinLiquidityFitsBothAmounts(sqrtA: real, sqrt: real, sqrtB: real, amount0: real, amount1: real,
                                    liquidity: real)
    requires 0.0 < sqrtA < sqrt < sqrtB
    requires liquidity <= LiquidityForAmount0(sqrt, sqrtB, amount0)
    requires liquidity <= LiquidityForAmount1(sqrtA, sqrt, amount1)
    ensures Amount0ForLiquidity(sqrt, sqrtB, liquidity) <= amount0
    ensures Amount1ForLiquidity(sqrtA, sqrt, liquidity) <= amount1
  {
    Amount0ForLiquidityMonotone(sqrt, sqrtB, liquidity, LiquidityForAmount0(sqrt, sqrtB, amount0));
    LiquidityForAmount0RoundTrip(sqrt, sqrtB, amount0);
    Amount1ForLiquidityMonotone(sqrtA, sqrt, liquidity, LiquidityForAmount1(sqrtA, sqrt, amount1));
    LiquidityForAmount1RoundTrip(sqrtA, sqrt, amount1);
  }
}
