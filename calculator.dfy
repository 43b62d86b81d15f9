/**
 * The position calculator: a snapshot of one pool (daily rows, tick rows,
 * fee tier, token decimals, pair orientation) fixed at construction, and the
 * computations a caller runs against it.
 */
module Calculator {
  import opened FixedPoint
  import opened PoolData
  import opened DepositSplit

  class UniswapV3Calculator {
    // The snapshot is fixed at construction: no operation changes a field.
    const poolDayData: seq<DayRow>
    const poolTicksData: seq<TickRow>
    const feeTier: real
    const token0Decimal: nat
    const token1Decimal: nat
    const isPairToggled: bool
    /** The most recent close, row 0 of the day data. */
    const currentPrice: real

    /** What construction establishes and no operation changes. */
    ghost predicate Valid()
    {
      && |poolDayData| > 0
      && currentPrice == poolDayData[0].close
      && currentPrice != 0.0
      && SortedByTickIdx(poolTicksData)
    }

    /**
     * Takes the snapshots, swaps the two decimal precisions when the pair is
     * toggled, reads the current price from row 0 and sorts the tick rows.
     * An empty day snapshot or a zero current price makes the original fail
     * (row 0 is read, and its reciprocal is printed).
     */
    constructor (poolDayData: seq<DayRow>, poolTicksData: seq<TickRow>, feeTier: real,
                 token0Decimal: nat, token1Decimal: nat, isPairToggled: bool)
      requires |poolDayData| > 0 && poolDayData[0].close != 0.0
      ensures Valid()
      ensures this.poolDayData == poolDayData
      ensures multiset(this.poolTicksData) == multiset(poolTicksData)
      ensures this.feeTier == feeTier && this.isPairToggled == isPairToggled
      ensures isPairToggled ==> this.token0Decimal == token1Decimal && this.token1Decimal == token0Decimal
      ensures !isPairToggled ==> this.token0Decimal == token0Decimal && this.token1Decimal == token1Decimal
      ensures currentPrice == poolDayData[0].close
    {
      this.poolDayData := poolDayData;
      this.poolTicksData := SortByTickIdx(poolTicksData);
      this.feeTier := feeTier;
      if isPairToggled {
        this.token0Decimal, this.token1Decimal := token1Decimal, token0Decimal;
      } else {
        this.token0Decimal, this.token1Decimal := token0Decimal, token1Decimal;
      }
      this.isPairToggled := isPairToggled;
      this.currentPrice := poolDayData[0].close;
    }

    /**
     * `calculate_position_liquidity`: the liquidity a deposit of amount0 and
     * amount1 provides over [priceLower, priceUpper] at `price`. amount0 is
     * expanded by token1's decimals and amount1 by token0's. The three
     * `sqrtRatio*` parameters are the square roots `get_sqrt_price_x96` takes.
     * The regime is chosen on the Q96 square-root prices; the contract states
     * it on the prices themselves.
     */
    function CalculatePositionLiquidity(amount0: real, amount1: real, priceLower: real, priceUpper: real,
                                        price: real, sqrtRatioLower: real, sqrtRatioUpper: real,
                                        sqrtRatio: real): (liquidity: real)
      requires IsSqrt(PriceRatio(price, token0Decimal, token1Decimal), sqrtRatio)
      requires IsSqrt(PriceRatio(priceLower, token0Decimal, token1Decimal), sqrtRatioLower)
      requires IsSqrt(PriceRatio(priceUpper, token0Decimal, token1Decimal), sqrtRatioUpper)
      requires priceLower != priceUpper
      ensures var s := SqrtPriceX96(price, token0Decimal, token1Decimal, sqrtRatio);
              var sa := SqrtPriceX96(priceLower, token0Decimal, token1Decimal, sqrtRatioLower);
              var sb := SqrtPriceX96(priceUpper, token0Decimal, token1Decimal, sqrtRatioUpper);
              var amt0 := ExpandDecimals(amount0, token1Decimal);
              var amt1 := ExpandDecimals(amount1, token0Decimal);
              && sa != sb
              && (price <= priceLower ==> liquidity == LiquidityForAmount0(sa, sb, amt0))
              && (priceLower < price && priceUpper <= price ==> liquidity == LiquidityForAmount1(sa, sb, amt1))
              && (priceLower < price < priceUpper ==>
                    s != sa && s != sb
                    && liquidity <= LiquidityForAmount0(s, sb, amt0)
                    && liquidity <= LiquidityForAmount1(sa, s, amt1)
                    && (liquidity == LiquidityForAmount0(s, sb, amt0) || liquidity == LiquidityForAmount1(sa, s, amt1)))
    {
      var amt0 := ExpandDecimals(amount0, token1Decimal);
      var amt1 := ExpandDecimals(amount1, token0Decimal);
      var s := SqrtPriceX96(price, token0Decimal, token1Decimal, sqrtRatio);
      var sa := SqrtPriceX96(priceLower, token0Decimal, token1Decimal, sqrtRatioLower);
      var sb := SqrtPriceX96(priceUpper, token0Decimal, token1Decimal, sqrtRatioUpper);
      SqrtPriceX96Monotone(price, priceLower, token0Decimal, token1Decimal, sqrtRatio, sqrtRatioLower);
      SqrtPriceX96Monotone(price, priceUpper, token0Decimal, token1Decimal, sqrtRatio, sqrtRatioUpper);
      SqrtPriceX96Monotone(priceLower, priceUpper, token0Decimal, token1Decimal, sqrtRatioLower, sqrtRatioUpper);
      SqrtPriceX96Monotone(priceUpper, priceLower, token0Decimal, token1Decimal, sqrtRatioUpper, sqrtRatioLower);
      if s <= sa then
        LiquidityForAmount0(sa, sb, amt0)
      else if s < sb then
        var liquidity0 := LiquidityForAmount0(s, sb, amt0);
        var liquidity1 := LiquidityForAmount1(sa, s, amt1);
        if liquidity1 < liquidity0 then liquidity1 else liquidity0
      else
        LiquidityForAmount1(sa, sb, amt1)
    }

    /**
     * `get_tokens_amount_from_deposit_amount_usd`: the token amounts
     * (deltaX, deltaY) and the liquidity deltaL for a USD deposit. `sqrtP`,
     * `sqrtPl` and `sqrtPu` are the square roots of p, pl and pu.
     */
    method GetTokensAmountFromDepositAmountUsd(p: real, pl: real, pu: real, priceUsdX: real, priceUsdY: real,
                                               depositAmountUsd: real, sqrtP: real, sqrtPl: real, sqrtPu: real)
      returns (deltaX: real, deltaY: real, deltaL: real)
      requires IsSqrt(p, sqrtP) && IsSqrt(pl, sqrtPl) && IsSqrt(pu, sqrtPu)
      requires sqrtP != 0.0 && sqrtPu != 0.0
      requires var factors := LegFactors(sqrtP, sqrtPl, sqrtPu);
               var prices := UsdPrices(isPairToggled, priceUsdX, priceUsdY);
               factors.0 * prices.1 + factors.1 * prices.0 != 0.0
      requires depositAmountUsd >= 0.0 || (priceUsdX != 0.0 && priceUsdY != 0.0)
      ensures var factors := LegFactors(sqrtP, sqrtPl, sqrtPu);
              var prices := UsdPrices(isPairToggled, priceUsdX, priceUsdY);
              (deltaX, deltaY, deltaL) == DepositLegs(factors.0, factors.1, prices.0, prices.1, depositAmountUsd)
    {
      var usdX, usdY := priceUsdX, priceUsdY;
      if isPairToggled {
        usdX, usdY := usdY, usdX;
      }
      assert (usdX, usdY) == UsdPrices(isPairToggled, priceUsdX, priceUsdY);

      var factorY := sqrtP - sqrtPl;
      var factorX := 1.0 / sqrtP - 1.0 / sqrtPu;
      deltaX, deltaY, deltaL := SplitDeposit(factorY, factorX, usdX, usdY, depositAmountUsd);
    }

    /**
     * The corrected split: the current square-root price is first moved into
     * [sqrtPl, sqrtPu], so that below the range the deposit goes to token x
     * only and above it to token y only (`RangeDepositHoldsOneToken`).
     */
    method GetTokensAmountWithinRange(p: real, pl: real, pu: real, priceUsdX: real, priceUsdY: real,
                                      depositAmountUsd: real, sqrtP: real, sqrtPl: real, sqrtPu: real)
      returns (deltaX: real, deltaY: real, deltaL: real)
      requires IsSqrt(p, sqrtP) && IsSqrt(pl, sqrtPl) && IsSqrt(pu, sqrtPu)
      requires 0.0 < sqrtPl < sqrtPu
      requires var factors := RangeLegFactors(sqrtP, sqrtPl, sqrtPu);
               var prices := UsdPrices(isPairToggled, priceUsdX, priceUsdY);
               factors.0 * prices.1 + factors.1 * prices.0 != 0.0
      requires depositAmountUsd >= 0.0 || (priceUsdX != 0.0 && priceUsdY != 0.0)
      ensures var factors := RangeLegFactors(sqrtP, sqrtPl, sqrtPu);
              var prices := UsdPrices(isPairToggled, priceUsdX, priceUsdY);
              (deltaX, deltaY, deltaL) == DepositLegs(factors.0, factors.1, prices.0, prices.1, depositAmountUsd)
    {
      var usdX, usdY := priceUsdX, priceUsdY;
      if isPairToggled {
        usdX, usdY := usdY, usdX;
      }
      assert (usdX, usdY) == UsdPrices(isPairToggled, priceUsdX, priceUsdY);

      var sqrtIn := sqrtP;
      if sqrtIn < sqrtPl {
        sqrtIn := sqrtPl;
      }
      if sqrtPu < sqrtIn {
        sqrtIn := sqrtPu;
      }
      var factorY := sqrtIn - sqrtPl;
      var factorX := 1.0 / sqrtIn - 1.0 / sqrtPu;
      deltaX, deltaY, deltaL := SplitDeposit(factorY, factorX, usdX, usdY, depositAmountUsd);
    }

    /**
     * The second half of the split, on the two leg factors: deltaL is the
     * deposit over the USD value of one unit of liquidity, and each raw leg
     * deltaL * factor is clamped on its own, deltaY first.
     */
    static method SplitDeposit(factorY: real, factorX: real, usdX: real, usdY: real, depositAmountUsd: real)
      returns (deltaX: real, deltaY: real, deltaL: real)
      requires factorY * usdY + factorX * usdX != 0.0
      requires depositAmountUsd >= 0.0 || (usdX != 0.0 && usdY != 0.0)
      ensures (deltaX, deltaY, deltaL) == DepositLegs(factorY, factorX, usdX, usdY, depositAmountUsd)
    {
      var denominator := factorY * usdY + factorX * usdX;
      deltaL := depositAmountUsd / denominator;
      deltaY := ClampToBudget(deltaL * factorY, usdY, depositAmountUsd);
      deltaX := ClampToBudget(deltaL * factorX, usdX, depositAmountUsd);
      ghost var legs := DepositLegs(factorY, factorX, usdX, usdY, depositAmountUsd);
      assert legs.0 == deltaX;
      assert legs.1 == deltaY;
      assert legs.2 == deltaL;
    }

    /** The clamp the split applies to each leg in turn, in place on the leg. */
    static method ClampToBudget(amount: real, unitPrice: real, budget: real) returns (leg: real)
      requires unitPrice != 0.0 || budget >= 0.0
      ensures leg == ClampLeg(amount, unitPrice, budget)
    {
      leg := amount;
      if leg * unitPrice < 0.0 {
        leg := 0.0;
      }
      if leg * unitPrice > budget {
        leg := budget / unitPrice;
      }
    }

    /**
     * `get_volume_24h_avg`: the mean USD volume of the most recent `days`
     * rows, `days` first lowered to the row count. pandas' `head` keeps all
     * but the last |days| rows for a negative `days`; an empty selection has
     * no mean.
     */
    method GetVolume24hAvg(days: int) returns (avgVolume: real)
      requires Valid()
      requires HeadCount(|poolDayData|, days) > 0
      ensures days >= 0 ==>
                avgVolume == Mean(Volumes(poolDayData[..if days < |poolDayData| then days else |poolDayData|]))
      ensures days < 0 ==> avgVolume == Mean(Volumes(poolDayData[..|poolDayData| + days]))
      ensures var selected := Volumes(poolDayData[..HeadCount(|poolDayData|, days)]);
              |selected| > 0 && MinOf(selected) <= avgVolume <= MaxOf(selected)
    {
      var n := days;
      if |poolDayData| < n {
        n := |poolDayData|;
      }
      var volumeData := Volumes(poolDayData[..HeadCount(|poolDayData|, n)]);
      avgVolume := Mean(volumeData);
      MeanWithinRange(volumeData);
    }

    /**
     * `get_liquidity_from_tick`: walks the sorted tick rows adding each
     * row's `liquidityNet`, and stops after the first row i whose pair
     * (i, i+1) brackets `tick`. The last row is never added, and with fewer
     * than two rows nothing is.
     */
    method GetLiquidityFromTick(tick: int) returns (liquidity: real)
      ensures liquidity == WalkLiquidity(poolTicksData, tick)
      ensures |poolTicksData| < 2 ==> liquidity == 0.0
      ensures |poolTicksData| >= 2 ==>
                var k := StopIndex(poolTicksData, tick, 0);
                liquidity == NetSum(poolTicksData[..k + 1])
                && (Brackets(poolTicksData, k, tick) || k + 2 == |poolTicksData|)
                && forall j :: 0 <= j < k ==> !Brackets(poolTicksData, j, tick)
    {
      liquidity := 0.0;
      var i := 0;
      while i < |poolTicksData| - 1
        invariant 0 <= i <= |poolTicksData|
        invariant i > 0 ==> i < |poolTicksData|
        invariant liquidity == NetSum(poolTicksData[..i])
        invariant forall j :: 0 <= j < i ==> !Brackets(poolTicksData, j, tick)
      {
        assert poolTicksData[..i + 1][..i] == poolTicksData[..i];
        liquidity := liquidity + poolTicksData[i].liquidityNet;
        var lowerTick := poolTicksData[i].tickIdx;
        var upperTick := poolTicksData[i + 1].tickIdx;
        if lowerTick <= tick <= upperTick {
          assert Brackets(poolTicksData, i, tick);
          assert StopIndex(poolTicksData, tick, 0) == i;
          return;
        }
        i := i + 1;
      }
      if |poolTicksData| >= 2 {
        assert StopIndex(poolTicksData, tick, 0) == |poolTicksData| - 2;
      } else {
        assert poolTicksData[..0] == [];
      }
    }

    /**
     * The corrected walk: adds the `liquidityNet` of every row at or below
     * `tick` and stops at the first row above it, which on sorted rows is
     * the liquidity in range at `tick`.
     */
    method GetActiveLiquidity(tick: int) returns (liquidity: real)
      requires Valid()
      ensures liquidity == ActiveLiquidity(poolTicksData, tick)
    {
      liquidity := 0.0;
      var i := 0;
      while i < |poolTicksData| && poolTicksData[i].tickIdx <= tick
        invariant 0 <= i <= |poolTicksData|
        invariant liquidity == NetSum(poolTicksData[..i])
        invariant forall j :: 0 <= j < i ==> poolTicksData[j].tickIdx <= tick
      {
        assert poolTicksData[..i + 1][..i] == poolTicksData[..i];
        liquidity := liquidity + poolTicksData[i].liquidityNet;
        i := i + 1;
      }
      ActiveLiquidityIsPrefixSum(poolTicksData, tick, i);
    }

    /**
     * `estimate_fee`: the position's pro-rata share of the fees on
     * `volume24h`, its share being liquidityDelta / (liquidity + liquidityDelta).
     */
    function EstimateFee(liquidityDelta: real, liquidity: real, volume24h: real): (fee: real)
      requires liquidity + liquidityDelta != 0.0
      ensures fee * (liquidity + liquidityDelta) == feeTier * volume24h * liquidityDelta
    {
      var liquidityPercentage := liquidityDelta / (liquidity + liquidityDelta);
      feeTier * volume24h * liquidityPercentage
    }
  }

  /**
   * Strictly inside a range of positive prices, the liquidity
   * `calculate_position_liquidity` returns needs no more of either token
   * than was offered: the position can be funded from the deposit.
   */
  lemma PositionLiquidityFitsDeposit(c: UniswapV3Calculator, amount0: real, amount1: real,
                                     priceLower: real, priceUpper: real, price: real,
                                     sqrtRatioLower: real, sqrtRatioUpper: real, sqrtRatio: real)
    requires IsSqrt(PriceRatio(price, c.token0Decimal, c.token1Decimal), sqrtRatio)
    requires IsSqrt(PriceRatio(priceLower, c.token0Decimal, c.token1Decimal), sqrtRatioLower)
    requires IsSqrt(PriceRatio(priceUpper, c.token0Decimal, c.token1Decimal), sqrtRatioUpper)
    requires 0.0 < priceLower < price < priceUpper
    ensures var liquidity := c.CalculatePositionLiquidity(amount0, amount1, priceLower, priceUpper, price,
                                                          sqrtRatioLower, sqrtRatioUpper, sqrtRatio);
            var s := SqrtPriceX96(price, c.token0Decimal, c.token1Decimal, sqrtRatio);
            var sa := SqrtPriceX96(priceLower, c.token0Decimal, c.token1Decimal, sqrtRatioLower);
            var sb := SqrtPriceX96(priceUpper, c.token0Decimal, c.token1Decimal, sqrtRatioUpper);
            && Amount0ForLiquidity(s, sb, liquidity) <= ExpandDecimals(amount0, c.token1Decimal)
            && Amount1ForLiquidity(sa, s, liquidity) <= ExpandDecimals(amount1, c.token0Decimal)
  {
    var d0, d1 := c.token0Decimal, c.token1Decimal;
    var s := SqrtPriceX96(price, d0, d1, sqrtRatio);
    var sa := SqrtPriceX96(priceLower, d0, d1, sqrtRatioLower);
    var sb := SqrtPriceX96(priceUpper, d0, d1, sqrtRatioUpper);
    SqrtPriceX96Positive(priceLower, d0, d1, sqrtRatioLower);
    SqrtPriceX96Monotone(priceLower, price, d0, d1, sqrtRatioLower, sqrtRatio);
    SqrtPriceX96Monotone(price, priceUpper, d0, d1, sqrtRatio, sqrtRatioUpper);
    var liquidity := c.CalculatePositionLiquidity(amount0, amount1, priceLower, priceUpper, price,
                                                  sqrtRatioLower, sqrtRatioUpper, sqrtRatio);
    MinLiquidityFitsBothAmounts(sa, s, sb, ExpandDecimals(amount0, d1), ExpandDecimals(amount1, d0), liquidity);
  }

  /**
   * For positive prices and positive amounts over a proper range, the
   * position's liquidity is positive in each of the three regimes.
   */
  lemma PositionLiquidityPositive(c: UniswapV3Calculator, amount0: real, amount1: real,
                                  priceLower: real, priceUpper: real, price: real,
                                  sqrtRatioLower: real, sqrtRatioUpper: real, sqrtRatio: real)
    requires IsSqrt(PriceRatio(price, c.token0Decimal, c.token1Decimal), sqrtRatio)
    requires IsSqrt(PriceRatio(priceLower, c.token0Decimal, c.token1Decimal), sqrtRatioLower)
    requires IsSqrt(PriceRatio(priceUpper, c.token0Decimal, c.token1Decimal), sqrtRatioUpper)
    requires 0.0 < priceLower < priceUpper && price > 0.0
    requires amount0 > 0.0 && amount1 > 0.0
    ensures c.CalculatePositionLiquidity(amount0, amount1, priceLower, priceUpper, price,
                                         sqrtRatioLower, sqrtRatioUpper, sqrtRatio) > 0.0
  {
    var d0, d1 := c.token0Decimal, c.token1Decimal;
    var s := SqrtPriceX96(price, d0, d1, sqrtRatio);
    var sa := SqrtPriceX96(priceLower, d0, d1, sqrtRatioLower);
    var sb := SqrtPriceX96(priceUpper, d0, d1, sqrtRatioUpper);
    var amt0, amt1 := ExpandDecimals(amount0, d1), ExpandDecimals(amount1, d0);
    SqrtPriceX96Positive(priceLower, d0, d1, sqrtRatioLower);
    SqrtPriceX96Positive(price, d0, d1, sqrtRatio);
    SqrtPriceX96Monotone(priceLower, priceUpper, d0, d1, sqrtRatioLower, sqrtRatioUpper);
    SqrtPriceX96Monotone(priceLower, price, d0, d1, sqrtRatioLower, sqrtRatio);
    SqrtPriceX96Monotone(price, priceUpper, d0, d1, sqrtRatio, sqrtRatioUpper);
    if price <= priceLower {
      LiquidityForAmountPositive(sa, sb, amt0);
    } else if priceUpper <= price {
      LiquidityForAmountPositive(sa, sb, amt1);
    } else {
      LiquidityForAmountPositive(s, sb, amt0);
      LiquidityForAmountPositive(sa, s, amt1);
    }
  }

  /**
   * With a positive share (liquidityDelta > 0 over a non-negative pool
   * liquidity) of a non-negative volume at a non-negative fee tier, the fee
   * lies between nothing and the whole day's fees; a zero share earns nothing.
   */
  lemma EstimateFeeBounds(c: UniswapV3Calculator, liquidityDelta: real, liquidity: real, volume24h: real)
    requires c.feeTier >= 0.0 && volume24h >= 0.0 && liquidity >= 0.0 && liquidityDelta >= 0.0
    requires liquidity + liquidityDelta > 0.0
    ensures 0.0 <= c.EstimateFee(liquidityDelta, liquidity, volume24h) <= c.feeTier * volume24h
    ensures liquidityDelta == 0.0 ==> c.EstimateFee(liquidityDelta, liquidity, volume24h) == 0.0
  {
    var total := c.feeTier * volume24h;
    var share := liquidityDelta / (liquidity + liquidityDelta);
    DivMonotone(0.0, liquidityDelta, liquidity + liquidityDelta);
    DivMonotone(liquidityDelta, liquidity + liquidityDelta, liquidity + liquidityDelta);
    assert 0.0 <= share <= 1.0;
    FeeShareBounds(total, share);
  }

  lemma FeeShareBounds(total: real, share: real)
    requires total >= 0.0 && 0.0 <= share <= 1.0
    ensures 0.0 <= total * share <= total
  {
    if total > 0.0 {
      MulMonotone(share, 1.0, total);
    }
  }

  /** The fees of a position and of the rest of the pool add up to the whole day's fees. */
  lemma EstimateFeeShares(c: UniswapV3Calculator, liquidityDelta: real, liquidity: real, volume24h: real)
    requires liquidity + liquidityDelta != 0.0
    ensures c.EstimateFee(liquidityDelta, liquidity, volume24h) + c.EstimateFee(liquidity, liquidityDelta, volume24h)
            == c.feeTier * volume24h
  {
    var t := liquidity + liquidityDelta;
    assert liquidityDelta / t + liquidity / t == 1.0;
  }

  /** A position holding 100 of 1000 units of liquidity in a 0.3% pool trading 10000 USD earns 3 USD. */
  lemma EstimateFeeExample(c: UniswapV3Calculator)
    requires c.feeTier == 0.003
    ensures c.EstimateFee(100.0, 900.0, 10000.0) == 3.0
  {
  }
}
