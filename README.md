# Uniswap V3 position calculator, modelled in Dafny

This project models `UniswapV3Calculator`, a calculator for Uniswap V3 liquidity positions. It works over two snapshots of one pool:

- the daily rows, each holding a closing price and a USD volume, with the most recent day first;
- the initialized ticks, each holding an integer tick index and a signed `liquidityNet`.

The calculator:

- converts human prices to the protocol's Q96 square-root prices (sqrt(price · 10^d0 / 10^d1) · 2^96);
- computes the liquidity a deposit of two token amounts provides over a price range, using the three regimes of the protocol's `getLiquidityForAmounts`;
- splits a USD deposit into two token legs, clamping each leg to the deposit;
- averages the most recent daily volumes;
- walks the sorted ticks, adding up `liquidityNet`;
- estimates a position's pro-rata share of the day's fees.

Files, one module each:

- `fixed_point.dfy` (`FixedPoint`):
  - powers of ten and `Q96`;
  - decimal expansion and `MulDiv`;
  - the square-root price;
  - the two liquidity-for-amount formulas and their inverses (the protocol's amount-for-liquidity).
- `pool_data.dfy` (`PoolData`):
  - the row datatypes;
  - the tick sort (sorted and a permutation);
  - pandas' `head` and `mean`;
  - the specification of the tick walk;
  - the active liquidity at a tick.
- `deposit_split.dfy` (`DepositSplit`): the closed-form split of a USD deposit and its per-leg clamp, and the split with the price first moved into the range.
- `calculator.dfy` (`Calculator`):
  - the class `UniswapV3Calculator`. Its fields are `const`: the constructor sets them and every operation only reads them;
  - the lemmas about the class's operations.

How the model treats numbers and failures:

- Arithmetic is exact, over `real`.
- Square roots are not computed. Each operation that takes one (`Decimal.sqrt`, `math.sqrt`) receives the root as an extra parameter, together with the precondition `IsSqrt(x, r)`, meaning r >= 0 and r·r == x. `FixedPoint.SqrtUnique` shows that the root is determined by x, so the extra parameter adds no freedom.
- Where the original divides by zero, takes the mean of nothing or reads a missing row, the model has a precondition that excludes the case.

In `get_liquidity_from_tick` the `float('inf')` upper tick (line 142) is never reached. The loop runs `i` only up to `len - 2`, so `i + 1` is always a valid row. The model has no such branch.

The code validates neither `fee_tier` nor the decimal precisions, and it raises no dedicated errors. Its failures are Python's own exceptions or NaN, which the model rules out with preconditions.

## Model

| member | source | states |
|---|---|---|
| `Calculator.UniswapV3Calculator.constructor` | archive/univ3_calculator/uniswapv3_calculator.py:5-24 | The day rows are kept and `current_price` is row 0's close. The decimal precisions are swapped exactly when the pair is toggled. The ticks end up sorted by tick index and are a permutation of the input. |
| `FixedPoint.Q96IsTwoToThe96` | archive/univ3_calculator/uniswapv3_calculator.py:16 | The constant Q96 is 2^96. |
| `FixedPoint.ExpandDecimals` | archive/univ3_calculator/uniswapv3_calculator.py:26-28 | An expanded amount keeps the sign of the amount: positive iff positive, zero iff zero. |
| `FixedPoint.ExpandDecimalsRoundTrip` | archive/univ3_calculator/uniswapv3_calculator.py:26-28 | Dividing an expanded amount by 10^exp gives the amount back. |
| `FixedPoint.MulDiv` | archive/univ3_calculator/uniswapv3_calculator.py:30-32 | The result times the divisor equals the product a·b. |
| `FixedPoint.SqrtUnique` | archive/univ3_calculator/uniswapv3_calculator.py:39 | A non-negative square root is unique, so passing the root as a parameter determines it. |
| `FixedPoint.SqrtPriceX96` | archive/univ3_calculator/uniswapv3_calculator.py:34-40 | The square-root price is non-negative, and (result / Q96)^2 = price · 10^token0Decimal / 10^token1Decimal. |
| `FixedPoint.SqrtPriceX96RoundTrip` | archive/univ3_calculator/uniswapv3_calculator.py:34-40 | Squaring, unscaling by 2^96 and undoing the decimal expansion recovers the price. |
| `FixedPoint.SqrtPriceX96Monotone` | archive/univ3_calculator/uniswapv3_calculator.py:34-40 | p <= q iff sqrtPrice(p) <= sqrtPrice(q), and p < q iff sqrtPrice(p) < sqrtPrice(q). |
| `FixedPoint.SqrtPriceX96Positive` | archive/univ3_calculator/uniswapv3_calculator.py:34-40 | A positive price has a positive square-root price. |
| `FixedPoint.LiquidityForAmount0` | archive/univ3_calculator/uniswapv3_calculator.py:42-45 | liquidity · (sqrtB − sqrtA) · Q96 = amount0 · sqrtB · sqrtA. |
| `FixedPoint.LiquidityForAmount1` | archive/univ3_calculator/uniswapv3_calculator.py:47-49 | liquidity · (sqrtB − sqrtA) = amount1 · Q96. |
| `FixedPoint.LiquidityForAmount0RoundTrip` | archive/univ3_calculator/uniswapv3_calculator.py:42-45 | Over 0 < sqrtA < sqrtB, the protocol's token0 amount for the computed liquidity is exactly amount0. |
| `FixedPoint.LiquidityForAmount1RoundTrip` | archive/univ3_calculator/uniswapv3_calculator.py:47-49 | Over sqrtA < sqrtB, the protocol's token1 amount for the computed liquidity is exactly amount1. |
| `FixedPoint.LiquidityForAmountPositive` | archive/univ3_calculator/uniswapv3_calculator.py:42-49 | For sqrtA < sqrtB and a positive amount, the token1 formula gives positive liquidity, and so does the token0 formula when also 0 < sqrtA. |
| `FixedPoint.LiquidityForAmountLinear` | archive/univ3_calculator/uniswapv3_calculator.py:42-49 | Scaling the amount by k scales both liquidities by k. |
| `FixedPoint.LiquidityForAmountAdditive` | archive/univ3_calculator/uniswapv3_calculator.py:42-49 | The liquidity for a + b is the liquidity for a plus the liquidity for b. |
| `FixedPoint.LiquidityForAmountMonotone` | archive/univ3_calculator/uniswapv3_calculator.py:42-49 | For sqrtA < sqrtB the token1 formula is strictly increasing in the amount, and so is the token0 formula when also 0 < sqrtA. |
| `FixedPoint.Amount0ForLiquidityMonotone` | archive/univ3_calculator/uniswapv3_calculator.py:42-45 | Over a proper range, the token0 a liquidity needs does not decrease as the liquidity grows. |
| `FixedPoint.Amount1ForLiquidityMonotone` | archive/univ3_calculator/uniswapv3_calculator.py:47-49 | Over a proper range, the token1 a liquidity needs does not decrease as the liquidity grows. |
| `FixedPoint.MinLiquidityFitsBothAmounts` | archive/univ3_calculator/uniswapv3_calculator.py:69-72 | Inside the range, a liquidity no larger than either single-token liquidity needs at most amount0 of token0 and at most amount1 of token1. |
| `Calculator.UniswapV3Calculator.CalculatePositionLiquidity` | archive/univ3_calculator/uniswapv3_calculator.py:51-77 | Three regimes, stated on prices. At or below the lower price, the result is the amount0 formula over [lower, upper]. Above the lower price and at or above the upper price, it is the amount1 formula over [lower, upper]. Strictly inside, it is at most both the amount0 formula over [current, upper] and the amount1 formula over [lower, current], and equal to one of them. amount0 is expanded by token1's decimals and amount1 by token0's. |
| `Calculator.PositionLiquidityFitsDeposit` | archive/univ3_calculator/uniswapv3_calculator.py:67-74 | Strictly inside a range of positive prices, the returned liquidity needs no more of either token than was deposited. |
| `Calculator.PositionLiquidityPositive` | archive/univ3_calculator/uniswapv3_calculator.py:67-74 | For positive prices, positive amounts and a proper range, the liquidity is positive in every regime. |
| `DepositSplit.ClampLegBounds` | archive/univ3_calculator/uniswapv3_calculator.py:91-101 | For a positive unit price and a non-negative deposit, a clamped leg is worth between 0 and the deposit. A leg already in that range is kept. A negative leg becomes 0. An over-budget leg is worth exactly the deposit. |
| `DepositSplit.DepositLegsWithinBudget` | archive/univ3_calculator/uniswapv3_calculator.py:88-103 | For any leg factors with a non-zero denominator, positive unit prices and a non-negative deposit, each returned leg's USD value lies in [0, deposit], and deltaL is the unclamped quotient deposit / denominator. |
| `DepositSplit.RawLegsSpendDeposit` | archive/univ3_calculator/uniswapv3_calculator.py:88-97 | Before clamping, the two legs together are worth exactly the deposit. |
| `DepositSplit.DepositLegsSpendDeposit` | archive/univ3_calculator/uniswapv3_calculator.py:88-101 | For any leg factors with a non-zero denominator, positive unit prices and a non-negative deposit, the two clamped legs together are worth exactly the deposit: when one leg is clamped, the other absorbs the remainder. |
| `DepositSplit.DepositBelowRangeDependsOnPrices` | archive/univ3_calculator/uniswapv3_calculator.py:84-101 | Square roots 1, 2, 3 (P = 1 below [4, 9]), deposit 100: unit prices 1 and 1 give (0, 100, −300), all token y with a negative deltaL; unit prices 10 and 1 give (10, 0, 300/17), all token x. |
| `DepositSplit.RangeDepositHoldsOneToken` | archive/univ3_calculator/uniswapv3_calculator.py:84-101 | With the price moved into the range, for positive unit prices and a non-negative deposit: the denominator is positive, the legs are non-negative and worth exactly the deposit, below the range deltaY = 0 and deltaX is worth the whole deposit, above it deltaX = 0 and deltaY is worth the whole deposit. |
| `DepositSplit.RangeFactorsNonNegative` | archive/univ3_calculator/uniswapv3_calculator.py:84-86 | For 0 < Pl <= P <= Pu with Pl < Pu, both leg factors are non-negative, one of them is positive, and sqrtP and sqrtPu are positive. |
| `DepositSplit.ExactWhenFactorsNonNegative` | archive/univ3_calculator/uniswapv3_calculator.py:88-103 | When both leg factors are non-negative and one is positive, and the prices are positive, no clamp fires. The legs are then non-negative and worth exactly the deposit. |
| `DepositSplit.DepositInsideRangeIsExact` | archive/univ3_calculator/uniswapv3_calculator.py:79-103 | For a price inside a proper range of positive prices, with positive unit prices, the denominator is positive. The legs are non-negative and together worth exactly the deposit. |
| `Calculator.UniswapV3Calculator.ClampToBudget` | archive/univ3_calculator/uniswapv3_calculator.py:92-95 | The step-by-step clamp of one leg computes the clamp the split is specified with. |
| `Calculator.UniswapV3Calculator.GetTokensAmountFromDepositAmountUsd` | archive/univ3_calculator/uniswapv3_calculator.py:79-103 | The returned (deltaX, deltaY, deltaL) are the split with leg factors sqrtP − sqrtPl and 1/sqrtP − 1/sqrtPu over the USD prices, swapped when the pair is toggled. With `DepositLegsSpendDeposit` and `DepositLegsWithinBudget`: for positive unit prices and a non-negative deposit the legs are each worth between 0 and the deposit and together exactly the deposit, inside the range or not. |
| `Calculator.UniswapV3Calculator.SplitDeposit` | archive/univ3_calculator/uniswapv3_calculator.py:88-101 | The step-by-step split (deltaL, then deltaY clamped, then deltaX clamped) computes the split `DepositLegs` on the given leg factors and unit prices. |
| `Calculator.UniswapV3Calculator.GetTokensAmountWithinRange` | archive/univ3_calculator/uniswapv3_calculator.py:79-103 | The corrected split: the same steps after moving sqrtP into [sqrtPl, sqrtPu], proved equal to `DepositLegs` on `RangeLegFactors`; `RangeDepositHoldsOneToken` states what that split holds. |
| `PoolData.SortByTickIdx` | archive/univ3_calculator/uniswapv3_calculator.py:24 | The result is sorted by tick index and is a permutation of the input. |
| `PoolData.MeanWithinRange` | archive/univ3_calculator/uniswapv3_calculator.py:129 | The mean lies between the smallest and the largest value. |
| `PoolData.MeanBounds` | archive/univ3_calculator/uniswapv3_calculator.py:129 | A mean of values in [lo, hi] lies in [lo, hi]. |
| `Calculator.UniswapV3Calculator.GetVolume24hAvg` | archive/univ3_calculator/uniswapv3_calculator.py:123-132 | For days >= 0, the result is the mean volume of exactly the first min(days, len) rows. For days < 0, it is the mean of all but the last abs(days) rows. It lies between the least and the greatest volume averaged. |
| `PoolData.StopIndex` | archive/univ3_calculator/uniswapv3_calculator.py:138-145 | The walk stops at the first pair (k, k+1) with tickIdx[k] <= tick <= tickIdx[k+1], or at the last pair when none brackets the tick. |
| `PoolData.WalkLength` | archive/univ3_calculator/uniswapv3_calculator.py:138 | With fewer than two rows nothing is added. Otherwise between 1 and len − 1 rows are added, so the last row never is. |
| `Calculator.UniswapV3Calculator.GetLiquidityFromTick` | archive/univ3_calculator/uniswapv3_calculator.py:134-147 | The result is 0 for fewer than two rows. Otherwise it is the sum of liquidityNet over rows 0..k, where k is the first bracketing pair (both ends inclusive), or len − 2 when no pair brackets the tick. |
| `PoolData.WalkStopsInBracket` | archive/univ3_calculator/uniswapv3_calculator.py:138-145 | On strictly ordered ticks, a query strictly above row k's index (or at row 0's) and at most row k+1's index sums rows 0..k. Row k+1 is not added, even when the query equals its index. |
| `PoolData.WalkOutsideSpan` | archive/univ3_calculator/uniswapv3_calculator.py:138-145 | A query outside the ticks' span sums every row but the last. |
| `PoolData.WalkOfShortList` | archive/univ3_calculator/uniswapv3_calculator.py:136-138 | With fewer than two rows the walk returns 0. |
| `PoolData.ActiveLiquidityIsPrefixSum` | archive/univ3_calculator/uniswapv3_calculator.py:134-147 | On rows split into those at or below the tick (first n) and those above it, the active liquidity is the sum of the first n rows' liquidityNet. |
| `PoolData.ActiveLiquidityOutsideSpan` | archive/univ3_calculator/uniswapv3_calculator.py:134-147 | On sorted rows the active liquidity is 0 below the lowest tick and the sum of all rows at or above the highest. |
| `PoolData.WalkAgreesInsideBracket` | archive/univ3_calculator/uniswapv3_calculator.py:138-145 | For a query strictly between two consecutive strictly ordered ticks (or at the lowest), the walk equals the active liquidity. |
| `PoolData.WalkDisagreesAtEdges` | archive/univ3_calculator/uniswapv3_calculator.py:138-145 | Ticks (-10, +5), (0, +3), (10, −8). Below the span the walk gives 8 where the active liquidity is 0. At tick 0 it gives 5 where the active liquidity is 8. Above the span it gives 8 where the active liquidity is 0. |
| `Calculator.UniswapV3Calculator.GetActiveLiquidity` | archive/univ3_calculator/uniswapv3_calculator.py:134-147 | The corrected walk: on the sorted ticks it returns the active liquidity at the tick, the sum of liquidityNet over every row at or below it. |
| `Calculator.UniswapV3Calculator.EstimateFee` | archive/univ3_calculator/uniswapv3_calculator.py:149-152 | fee · (liquidity + liquidityDelta) = feeTier · volume · liquidityDelta, the position's pro-rata share of the day's fees. |
| `Calculator.EstimateFeeBounds` | archive/univ3_calculator/uniswapv3_calculator.py:149-152 | For non-negative feeTier, volume, liquidity and delta with a positive total, the fee lies in [0, feeTier·volume], and it is 0 when delta is 0. |
| `Calculator.EstimateFeeShares` | archive/univ3_calculator/uniswapv3_calculator.py:149-152 | The position's fee and the rest of the pool's fee add up to feeTier·volume. |
| `Calculator.EstimateFeeExample` | archive/univ3_calculator/uniswapv3_calculator.py:149-152 | With delta 100, liquidity 900, volume 10000 and fee tier 0.003, the fee is 3. |

## Left out

- `get_tick_from_price` (lines 105-121): it is a logarithm of floats truncated by `int()`, which has no exact statement over the reals.
- Rounding is not modelled; all arithmetic is exact. This covers:
  - the `Decimal` 28-digit context (lines 16-49). It already rounds at line 16: 2^96 has 29 significant digits, so `Decimal(2) ** 96` is 79228162514264337593543950340 there, not 2^96. `FixedPoint.Q96` is the exact 2^96 the formulas intend;
  - the conversions to binary floats at lines 19, 77, 128 (`.astype(float)`) and 139, and the float arithmetic of the deposit split (square roots, products, divisions and comparisons, lines 84-101) and of `estimate_fee` (lines 151-152).
- The square roots (`Decimal.sqrt` at line 39 and `math.sqrt` at lines 84-86) are parameters constrained by `IsSqrt`. They are not computed.
  - A negative radicand has no such root, so the `ValueError` or `InvalidOperation` it raises is excluded by the precondition.
- The `print` diagnostics (lines 20-21, 76 and 131) are logging only.
- pandas plumbing is replaced by values:
  - `.copy()` (lines 6-7) is the value semantics of `seq`;
  - `.iloc` is indexing;
  - `.astype(float)` (line 128) is the identity, which holds only because the model's numbers are exact reals.
- Failures the original surfaces as exceptions, NaN or infinity are preconditions instead:
  - an empty day snapshot or a zero close at construction;
  - equal range bounds in `calculate_position_liquidity`;
  - a zero `sqrt_P`, zero `sqrt_Pu` or zero denominator in the deposit split;
  - a zero unit USD price with a negative deposit in the deposit split, where the clamp at line 95 or 101 divides by that price;
  - an empty volume selection;
  - a zero total liquidity in `estimate_fee`.
- The default arguments `is_pair_toggled=False` and `days=7` are not modelled. Callers pass every argument.
- Calculator.UniswapV3Calculator.constructor: token decimals are `nat`. The original also accepts negative integers, since `Decimal(10) ** exp` allows them.
- PoolData.SortByTickIdx: states "sorted and a permutation". It does not state the order pandas' default quicksort gives rows with equal tick indices.
- Calculator.UniswapV3Calculator.GetLiquidityFromTick: tick indices are integers. The `int()` conversion of the `tickIdx` column (line 141) is taken as the identity, and the query `tick` is an `int`. Line 144 would compare any number, such as a float between two ticks; `get_tick_from_price`, the natural source of the query, returns an `int`.
- PoolData.SortByTickIdx: `tickIdx` is taken to be numeric when line 24 sorts on it. The `int()` at line 141 suggests the column may hold text, and `sort_values` on text orders as strings ("10" before "9"); that order is not modelled.

## Findings

| source | as written | input that shows it | evidently intended | confidence | as-written member | corrected member |
|---|---|---|---|---|---|---|
| archive/univ3_calculator/uniswapv3_calculator.py:138-145 | The walk stops at the first pair with both ends inclusive and otherwise adds every row but the last. A query below the lowest tick therefore reports nearly all liquidity. A query equal to an inner tick's index misses that tick's `liquidityNet`. | ticks (-10, +5), (0, +3), (10, −8): tick −20 gives 8, tick 0 gives 5, tick 20 gives 8 | The liquidity in range at the tick: the sum of `liquidityNet` over ticks at or below it. That is 0, 8 and 0 for these inputs. | medium, not executed | `PoolData.WalkDisagreesAtEdges` (about `Calculator.UniswapV3Calculator.GetLiquidityFromTick`) | `Calculator.UniswapV3Calculator.GetActiveLiquidity` |
| archive/univ3_calculator/uniswapv3_calculator.py:84-101 | Below the range the denominator can be negative, and the split then gives the whole deposit to token y with a negative deltaL. With a positive denominator the same range gives it to token x. Which token a below-range deposit buys depends on the unit prices. | square roots 1, 2, 3 (P = 1, range [4, 9]), deposit 100: unit prices 1 and 1 give (0, 100, −300); unit prices 10 and 1 give (10, 0, 300/17) | A position below its range holds token x only, and one above it token y only: the clamps are there for those out-of-range cases. Moving sqrtP into [sqrtPl, sqrtPu] first gives that, with a non-negative deltaL. | medium, not executed | `DepositSplit.DepositBelowRangeDependsOnPrices` (about `Calculator.UniswapV3Calculator.GetTokensAmountFromDepositAmountUsd`) | `Calculator.UniswapV3Calculator.GetTokensAmountWithinRange` |
