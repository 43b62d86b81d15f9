/**
 * The split of a USD deposit into the two token legs of a position, in
 * price space (not the Q96 fixed-point space): a liquidity
 * deltaL = deposit / ((sqrtP - sqrtPl) * priceUsdY + (1/sqrtP - 1/sqrtPu) * priceUsdX),
 * the raw legs deltaY = deltaL * (sqrtP - sqrtPl) and
 * deltaX = deltaL * (1/sqrtP - 1/sqrtPu), each then clamped on its own.
 *
 * The original takes the square roots with `math.sqrt` on floats; here they
 * are exact and handed in as parameters, as in `FixedPoint`.
 */
module DepositSplit {
  import opened FixedPoint

  /** The two unit USD prices in the order the formula uses them: swapped when the pair is toggled. */
  function UsdPrices(isPairToggled: bool, priceUsdX: real, priceUsdY: real): (real, real) {
    if isPairToggled then (priceUsdY, priceUsdX) else (priceUsdX, priceUsdY)
  }

  /**
   * The two leg factors at price P over [Pl, Pu]: token1 per unit of
   * liquidity, sqrtP - sqrtPl, and token0 per unit of liquidity,
   * 1/sqrtP - 1/sqrtPu.
   */
  function LegFactors(sqrtP: real, sqrtPl: real, sqrtPu: real): (real, real)
    requires sqrtP != 0.0 && sqrtPu != 0.0
  {
    (sqrtP - sqrtPl, 1.0 / sqrtP - 1.0 / sqrtPu)
  }

  /**
   * One leg's clamp, applied in the original's order: a leg worth less than
   * nothing becomes 0, then a leg worth more than the budget becomes exactly
   * budget / unitPrice. The division happens only when the leg is over
   * budget, so it needs a non-zero unit price only when the budget is negative.
   */
  function ClampLeg(amount: real, unitPrice: real, budget: real): real
    requires unitPrice != 0.0 || budget >= 0.0
  {
    var nonNegative := if amount * unitPrice < 0.0 then 0.0 else amount;
    if nonNegative * unitPrice > budget then budget / unitPrice else nonNegative
  }

  /**
   * deltaL, the liquidity the deposit buys before any clamp: the deposit over
   * the USD value of one unit of liquidity, factorY * priceUsdY + factorX * priceUsdX.
   */
  function DepositLiquidity(factorY: real, factorX: real, priceUsdX: real, priceUsdY: real,
                            depositAmountUsd: real): real
    requires factorY * priceUsdY + factorX * priceUsdX != 0.0
  {
    depositAmountUsd / (factorY * priceUsdY + factorX * priceUsdX)
  }

  /** The split, (deltaX, deltaY, deltaL) in the original's order: each raw leg deltaL * factor clamped on its own. */
  function DepositLegs(factorY: real, factorX: real, priceUsdX: real, priceUsdY: real,
                       depositAmountUsd: real): (real, real, real)
    requires factorY * priceUsdY + factorX * priceUsdX != 0.0
    requires depositAmountUsd >= 0.0 || (priceUsdX != 0.0 && priceUsdY != 0.0)
  {
    var deltaL := DepositLiquidity(factorY, factorX, priceUsdX, priceUsdY, depositAmountUsd);
    (ClampLeg(deltaL * factorX, priceUsdX, depositAmountUsd),
     ClampLeg(deltaL * factorY, priceUsdY, depositAmountUsd),
     deltaL)
  }

  /**
   * For a positive unit price and a non-negative budget the clamped leg is
   * worth between 0 and the budget; a leg already in that range is kept, a
   * negative one becomes 0, and an over-budget one is worth exactly the budget.
   */
  lemma ClampLegBounds(amount: real, unitPrice: real, budget: real)
    requires unitPrice > 0.0 && budget >= 0.0
    ensures 0.0 <= ClampLeg(amount, unitPrice, budget) * unitPrice <= budget
    ensures 0.0 <= amount * unitPrice <= budget ==> ClampLeg(amount, unitPrice, budget) == amount
    ensures amount * unitPrice < 0.0 ==> ClampLeg(amount, unitPrice, budget) == 0.0
    ensures amount * unitPrice > budget ==> ClampLeg(amount, unitPrice, budget) * unitPrice == budget
  {
    var r := ClampLeg(amount, unitPrice, budget);
    DivMulCancel(budget, unitPrice);
    if amount * unitPrice < 0.0 {
      assert r == 0.0;
    } else if amount * unitPrice > budget {
      assert r == budget / unitPrice;
    } else {
      assert r == amount;
    }
  }

  /**
   * For positive unit prices and a non-negative deposit, each returned leg
   * is worth between 0 and the whole deposit, and deltaL is returned as
   * computed, without a clamp.
   */
  lemma DepositLegsWithinBudget(factorY: real, factorX: real, priceUsdX: real, priceUsdY: real,
                                depositAmountUsd: real)
    requires factorY * priceUsdY + factorX * priceUsdX != 0.0
    requires priceUsdX > 0.0 && priceUsdY > 0.0 && depositAmountUsd >= 0.0
    ensures var legs := DepositLegs(factorY, factorX, priceUsdX, priceUsdY, depositAmountUsd);
            && 0.0 <= legs.0 * priceUsdX <= depositAmountUsd
            && 0.0 <= legs.1 * priceUsdY <= depositAmountUsd
            && legs.2 == depositAmountUsd / (factorY * priceUsdY + factorX * priceUsdX)
  {
    ClampedLegsWithinBudget(DepositLiquidity(factorY, factorX, priceUsdX, priceUsdY, depositAmountUsd),
                            factorY, factorX, priceUsdX, priceUsdY, depositAmountUsd);
  }

  lemma ClampedLegsWithinBudget(l: real, factorY: real, factorX: real, priceUsdX: real, priceUsdY: real,
                                budget: real)
    requires priceUsdX > 0.0 && priceUsdY > 0.0 && budget >= 0.0
    ensures 0.0 <= ClampLeg(l * factorX, priceUsdX, budget) * priceUsdX <= budget
    ensures 0.0 <= ClampLeg(l * factorY, priceUsdY, budget) * priceUsdY <= budget
  {
    ClampLegBounds(l * factorX, priceUsdX, budget);
    ClampLegBounds(l * factorY, priceUsdY, budget);
  }

  /** Without clamping, the two legs together are worth exactly the deposit. */
  lemma RawLegsSpendDeposit(factorY: real, factorX: real, priceUsdX: real, priceUsdY: real,
                            depositAmountUsd: real)
    requires factorY * priceUsdY + factorX * priceUsdX != 0.0
    ensures var deltaL := depositAmountUsd / (factorY * priceUsdY + factorX * priceUsdX);
            deltaL * factorX * priceUsdX + deltaL * factorY * priceUsdY == depositAmountUsd
  {
    var d := factorY * priceUsdY + factorX * priceUsdX;
    var l := depositAmountUsd / d;
    DivMulCancel(depositAmountUsd, d);
    Distribute(l, factorX * priceUsdX, factorY * priceUsdY);
    MulAssociative(l, factorX, priceUsdX);
    MulAssociative(l, factorY, priceUsdY);
  }

  lemma Distribute(l: real, a: real, b: real)
    ensures l * (b + a) == l * a + l * b
  {
  }

  /**
   * When the price lies inside a proper range and both unit prices are
   * positive, no clamp fires: both legs are the raw legs, neither is
   * negative, and together they are worth exactly the deposit.
   */
  lemma DepositInsideRangeIsExact(p: real, pl: real, pu: real, sqrtP: real, sqrtPl: real, sqrtPu: real,
                                  priceUsdX: real, priceUsdY: real, depositAmountUsd: real)
    requires IsSqrt(p, sqrtP) && IsSqrt(pl, sqrtPl) && IsSqrt(pu, sqrtPu)
    requires 0.0 < pl <= p <= pu && pl < pu
    requires priceUsdX > 0.0 && priceUsdY > 0.0 && depositAmountUsd >= 0.0
    ensures sqrtP != 0.0 && sqrtPu != 0.0
    ensures var factors := LegFactors(sqrtP, sqrtPl, sqrtPu);
            && factors.0 * priceUsdY + factors.1 * priceUsdX > 0.0
            && var legs := DepositLegs(factors.0, factors.1, priceUsdX, priceUsdY, depositAmountUsd);
               legs.0 >= 0.0 && legs.1 >= 0.0 && legs.2 >= 0.0
               && legs.0 * priceUsdX + legs.1 * priceUsdY == depositAmountUsd
  {
    RangeFactorsNonNegative(p, pl, pu, sqrtP, sqrtPl, sqrtPu);
    var factors := LegFactors(sqrtP, sqrtPl, sqrtPu);
    ExactWhenFactorsNonNegative(factors.0, factors.1, priceUsdX, priceUsdY, depositAmountUsd);
  }

  /**
   * When both leg factors are non-negative and one is positive, and both
   * unit prices are positive, no clamp fires and the legs spend the deposit
   * exactly.
   */
  lemma ExactWhenFactorsNonNegative(factorY: real, factorX: real, priceUsdX: real, priceUsdY: real,
                                    depositAmountUsd: real)
    requires factorY >= 0.0 && factorX >= 0.0 && (factorY > 0.0 || factorX > 0.0)
    requires priceUsdX > 0.0 && priceUsdY > 0.0 && depositAmountUsd >= 0.0
    ensures factorY * priceUsdY + factorX * priceUsdX > 0.0
    ensures var legs := DepositLegs(factorY, factorX, priceUsdX, priceUsdY, depositAmountUsd);
            legs.0 >= 0.0 && legs.1 >= 0.0 && legs.2 >= 0.0
            && legs.0 * priceUsdX + legs.1 * priceUsdY == depositAmountUsd
  {
    NonNegativeSum(factorY, priceUsdY, factorX, priceUsdX);
    RawLegsSpendDeposit(factorY, factorX, priceUsdX, priceUsdY, depositAmountUsd);
    var l := DepositLiquidity(factorY, factorX, priceUsdX, priceUsdY, depositAmountUsd);
    NoClampFires(l, factorY, factorX, priceUsdX, priceUsdY, depositAmountUsd);
  }

  /**
   * For positive unit prices and a non-negative deposit, the two returned
   * legs together are worth exactly the deposit, for any leg factors with a
   * non-zero denominator: when one leg is clamped, the other absorbs the
   * remainder, since the raw legs already add up to the deposit.
   */
  lemma DepositLegsSpendDeposit(factorY: real, factorX: real, priceUsdX: real, priceUsdY: real,
                                depositAmountUsd: real)
    requires factorY * priceUsdY + factorX * priceUsdX != 0.0
    requires priceUsdX > 0.0 && priceUsdY > 0.0 && depositAmountUsd >= 0.0
    ensures var legs := DepositLegs(factorY, factorX, priceUsdX, priceUsdY, depositAmountUsd);
            legs.0 * priceUsdX + legs.1 * priceUsdY == depositAmountUsd
  {
    RawLegsSpendDeposit(factorY, factorX, priceUsdX, priceUsdY, depositAmountUsd);
    ClampedLegsSpendBudget(DepositLiquidity(factorY, factorX, priceUsdX, priceUsdY, depositAmountUsd),
                           factorY, factorX, priceUsdX, priceUsdY, depositAmountUsd);
  }

  /** Raw legs worth the budget together are still worth it after each is clamped on its own. */
  lemma ClampedLegsSpendBudget(l: real, factorY: real, factorX: real, priceUsdX: real, priceUsdY: real,
                               budget: real)
    requires priceUsdX > 0.0 && priceUsdY > 0.0 && budget >= 0.0
    requires l * factorX * priceUsdX + l * factorY * priceUsdY == budget
    ensures ClampLeg(l * factorX, priceUsdX, budget) * priceUsdX
            + ClampLeg(l * factorY, priceUsdY, budget) * priceUsdY == budget
  {
    ClampLegBounds(l * factorX, priceUsdX, budget);
    ClampLegBounds(l * factorY, priceUsdY, budget);
  }

  /**
   * As written, the split below the range hands the deposit to either token,
   * depending on the sign of the denominator. With P = 1 below [4, 9]
   * (square roots 1, 2 and 3) and a deposit of 100: unit prices 1 and 1 give
   * everything to token y and a negative deltaL, unit prices 10 and 1 give
   * everything to token x. A position below its range holds token x only.
   */
  lemma DepositBelowRangeDependsOnPrices()
    ensures LegFactors(1.0, 2.0, 3.0) == (-1.0, 2.0 / 3.0)
    ensures DepositLegs(-1.0, 2.0 / 3.0, 1.0, 1.0, 100.0) == (0.0, 100.0, -300.0)
    ensures DepositLegs(-1.0, 2.0 / 3.0, 10.0, 1.0, 100.0) == (10.0, 0.0, 300.0 / 17.0)
  {
    assert DepositLiquidity(-1.0, 2.0 / 3.0, 1.0, 1.0, 100.0) == -300.0;
    assert ClampLeg(-300.0 * (2.0 / 3.0), 1.0, 100.0) == 0.0;
    assert ClampLeg(-300.0 * -1.0, 1.0, 100.0) == 100.0;
    assert DepositLiquidity(-1.0, 2.0 / 3.0, 10.0, 1.0, 100.0) == 300.0 / 17.0;
    assert ClampLeg(300.0 / 17.0 * (2.0 / 3.0), 10.0, 100.0) == 10.0;
    assert ClampLeg(300.0 / 17.0 * -1.0, 1.0, 100.0) == 0.0;
  }

  /**
   * The leg factors with the current square-root price first moved into
   * [sqrtPl, sqrtPu], as the protocol does when it values a position: below
   * the range the token1 factor is 0, above it the token0 factor is 0.
   */
  function RangeLegFactors(sqrtP: real, sqrtPl: real, sqrtPu: real): (real, real)
    requires 0.0 < sqrtPl < sqrtPu
  {
    var s := if sqrtP < sqrtPl then sqrtPl else if sqrtPu < sqrtP then sqrtPu else sqrtP;
    LegFactors(s, sqrtPl, sqrtPu)
  }

  /**
   * With the price moved into the range first, the split behaves as a
   * position does: for positive unit prices and a non-negative deposit the
   * denominator is positive, both legs are non-negative and worth exactly
   * the deposit, below the range the deposit is all token x and above it all
   * token y.
   */
  lemma RangeDepositHoldsOneToken(sqrtP: real, sqrtPl: real, sqrtPu: real,
                                  priceUsdX: real, priceUsdY: real, depositAmountUsd: real)
    requires 0.0 < sqrtPl < sqrtPu
    requires priceUsdX > 0.0 && priceUsdY > 0.0 && depositAmountUsd >= 0.0
    ensures var factors := RangeLegFactors(sqrtP, sqrtPl, sqrtPu);
            && factors.0 * priceUsdY + factors.1 * priceUsdX > 0.0
            && var legs := DepositLegs(factors.0, factors.1, priceUsdX, priceUsdY, depositAmountUsd);
               && legs.0 >= 0.0 && legs.1 >= 0.0 && legs.2 >= 0.0
               && legs.0 * priceUsdX + legs.1 * priceUsdY == depositAmountUsd
               && (sqrtP <= sqrtPl ==> legs.1 == 0.0 && legs.0 * priceUsdX == depositAmountUsd)
               && (sqrtPu <= sqrtP ==> legs.0 == 0.0 && legs.1 * priceUsdY == depositAmountUsd)
  {
    var factors := RangeLegFactors(sqrtP, sqrtPl, sqrtPu);
    RangeLegFactorsNonNegative(sqrtP, sqrtPl, sqrtPu);
    ExactWhenFactorsNonNegative(factors.0, factors.1, priceUsdX, priceUsdY, depositAmountUsd);
    ZeroFactorGivesNoLeg(factors.0, factors.1, priceUsdX, priceUsdY, depositAmountUsd);
  }

  /** Both moved factors are non-negative, one is positive, and the one for the token not held is 0. */
  lemma RangeLegFactorsNonNegative(sqrtP: real, sqrtPl: real, sqrtPu: real)
    requires 0.0 < sqrtPl < sqrtPu
    ensures var factors := RangeLegFactors(sqrtP, sqrtPl, sqrtPu);
            && factors.0 >= 0.0 && factors.1 >= 0.0 && (factors.0 > 0.0 || factors.1 > 0.0)
            && (sqrtP <= sqrtPl ==> factors.0 == 0.0)
            && (sqrtPu <= sqrtP ==> factors.1 == 0.0)
  {
    var s := if sqrtP < sqrtPl then sqrtPl else if sqrtPu < sqrtP then sqrtPu else sqrtP;
    assert RangeLegFactors(sqrtP, sqrtPl, sqrtPu) == (s - sqrtPl, 1.0 / s - 1.0 / sqrtPu);
    ReciprocalAntitone(s, sqrtPu);
    ReciprocalAntitone(sqrtPl, sqrtPu);
  }

  /** A zero leg factor gives a zero leg: the raw leg is 0 and no clamp changes it. */
  lemma ZeroFactorGivesNoLeg(factorY: real, factorX: real, priceUsdX: real, priceUsdY: real,
                             depositAmountUsd: real)
    requires factorY * priceUsdY + factorX * priceUsdX != 0.0
    requires priceUsdX > 0.0 && priceUsdY > 0.0 && depositAmountUsd >= 0.0
    ensures factorY == 0.0 ==> DepositLegs(factorY, factorX, priceUsdX, priceUsdY, depositAmountUsd).1 == 0.0
    ensures factorX == 0.0 ==> DepositLegs(factorY, factorX, priceUsdX, priceUsdY, depositAmountUsd).0 == 0.0
  {
    var deltaL := DepositLiquidity(factorY, factorX, priceUsdX, priceUsdY, depositAmountUsd);
    assert deltaL * 0.0 == 0.0;
  }

  /** Inside a proper range both leg factors are non-negative and one of them is positive. */
  lemma RangeFactorsNonNegative(p: real, pl: real, pu: real, sqrtP: real, sqrtPl: real, sqrtPu: real)
    requires IsSqrt(p, sqrtP) && IsSqrt(pl, sqrtPl) && IsSqrt(pu, sqrtPu)
    requires 0.0 < pl <= p <= pu && pl < pu
    ensures sqrtP > 0.0 && sqrtPu > 0.0
    ensures sqrtP - sqrtPl >= 0.0 && 1.0 / sqrtP - 1.0 / sqrtPu >= 0.0
    ensures sqrtP - sqrtPl > 0.0 || 1.0 / sqrtP - 1.0 / sqrtPu > 0.0
  {
    SqrtPositive(pl, sqrtPl);
    SqrtMonotone(pl, p, sqrtPl, sqrtP);
    SqrtMonotone(p, pu, sqrtP, sqrtPu);
    SqrtStrictlyMonotone(pl, pu, sqrtPl, sqrtPu);
    ReciprocalAntitone(sqrtP, sqrtPu);
  }

  lemma NoClampFires(l: real, u: real, v: real, priceUsdX: real, priceUsdY: real, depositAmountUsd: real)
    requires u >= 0.0 && v >= 0.0 && priceUsdX > 0.0 && priceUsdY > 0.0 && depositAmountUsd >= 0.0
    requires u * priceUsdY + v * priceUsdX > 0.0
    requires l == depositAmountUsd / (u * priceUsdY + v * priceUsdX)
    requires l * v * priceUsdX + l * u * priceUsdY == depositAmountUsd
    ensures l >= 0.0
    ensures ClampLeg(l * v, priceUsdX, depositAmountUsd) == l * v >= 0.0
    ensures ClampLeg(l * u, priceUsdY, depositAmountUsd) == l * u >= 0.0
  {
    DivPreservesSign(depositAmountUsd, u * priceUsdY + v * priceUsdX);
    MulNonNegative(l, v);
    MulNonNegative(l, u);
    MulNonNegative(l * v, priceUsdX);
    MulNonNegative(l * u, priceUsdY);
    ClampLegBounds(l * v, priceUsdX, depositAmountUsd);
    ClampLegBounds(l * u, priceUsdY, depositAmountUsd);
  }

  lemma DivPreservesSign(a: real, b: real)
    requires a >= 0.0 && b > 0.0
    ensures a / b >= 0.0
  {
    DivMonotone(0.0, a, b);
  }

  lemma SqrtPositive(x: real, r: real)
    requires IsSqrt(x, r) && x > 0.0
    ensures r > 0.0
  {
  }

  lemma ReciprocalAntitone(a: real, b: real)
    requires 0.0 < a <= b
    ensures 1.0 / b <= 1.0 / a
    ensures a < b ==> 1.0 / b < 1.0 / a
  {
    assert 1.0 / a - 1.0 / b == (b - a) / (a * b);
    MulPositive(a, b);
  }

  lemma MulNonNegative(a: real, b: real)
    requires a >= 0.0 && b >= 0.0
    ensures a * b >= 0.0
  {
    if a > 0.0 && b > 0.0 {
      MulPositive(a, b);
    }
  }

  lemma NonNegativeSum(u: real, py: real, v: real, px: real)
    requires u >= 0.0 && v >= 0.0 && (u > 0.0 || v > 0.0) && px > 0.0 && py > 0.0
    ensures u * py + v * px > 0.0
  {
    MulNonNegative(u, py);
    MulNonNegative(v, px);
    if u > 0.0 {
      MulPositive(u, py);
    } else {
      MulPositive(v, px);
    }
  }
}
