/**
 * The calculator's two snapshots and the list computations over them: the
 * sort of the tick rows by tick index, the mean of the most recent daily
 * volumes and the cumulative sum of `liquidityNet` the tick walk produces.
 *
 * The original holds both snapshots as pandas frames; here a frame is a
 * `seq` of records, and the pandas operations the calculator uses (`head`,
 * `mean`, `sort_values`) are functions with the contracts pandas documents.
 */
module PoolData {

  /** One day of pool history: closing price (token0 in token1) and traded volume in USD. */
  datatype DayRow = DayRow(close: real, volumeUsd: real)

  /** One initialized tick: its index and the signed liquidity added when the price crosses it upwards. */
  datatype TickRow = TickRow(tickIdx: int, liquidityNet: real)

  // ---------------------------------------------------------------- sorting

  predicate SortedByTickIdx(ticks: seq<TickRow>) {
    forall i, j :: 0 <= i < j < |ticks| ==> ticks[i].tickIdx <= ticks[j].tickIdx
  }

  /** No two rows share a tick index (what a pool's initialized ticks are). */
  predicate StrictlySortedByTickIdx(ticks: seq<TickRow>) {
    forall i, j :: 0 <= i < j < |ticks| ==> ticks[i].tickIdx < ticks[j].tickIdx
  }

  /** Every row's tick index is at least `lo`. */
  predicate AllAtLeast(ticks: seq<TickRow>, lo: int) {
    forall i :: 0 <= i < |ticks| ==> lo <= ticks[i].tickIdx
  }

  lemma PrependSorted(x: TickRow, s: seq<TickRow>)
    requires SortedByTickIdx(s) && AllAtLeast(s, x.tickIdx)
    ensures SortedByTickIdx([x] + s)
  {
  }

  /** Insertion of one row into rows already in tick order. */
  function Insert(t: TickRow, sorted: seq<TickRow>): (r: seq<TickRow>)
    requires SortedByTickIdx(sorted)
    ensures SortedByTickIdx(r)
    ensures multiset(r) == multiset(sorted) + multiset{t}
    ensures forall lo :: AllAtLeast(sorted, lo) && lo <= t.tickIdx ==> AllAtLeast(r, lo)
  {
    if sorted == [] || t.tickIdx <= sorted[0].tickIdx then
      PrependSorted(t, sorted);
      [t] + sorted
    else
      var rest := Insert(t, sorted[1..]);
      assert sorted == [sorted[0]] + sorted[1..];
      assert AllAtLeast(sorted[1..], sorted[0].tickIdx);
      PrependSorted(sorted[0], rest);
      [sorted[0]] + rest
  }

  /** `sort_values('tickIdx')`: the rows in ascending tick order, the same rows as before. */
  function SortByTickIdx(ticks: seq<TickRow>): (r: seq<TickRow>)
    ensures SortedByTickIdx(r)
    ensures multiset(r) == multiset(ticks)
  {
    if ticks == [] then []
    else
      assert ticks == [ticks[0]] + ticks[1..];
      Insert(ticks[0], SortByTickIdx(ticks[1..]))
  }

  // ---------------------------------------------------------------- volumes

  /** The `volumeUSD` column of the rows. */
  function Volumes(rows: seq<DayRow>): seq<real> {
    seq(|rows|, i requires 0 <= i < |rows| => rows[i].volumeUsd)
  }

  /** How many rows pandas' `head(n)` keeps of a frame of `len` rows (all but the last |n| when n < 0). */
  function HeadCount(len: nat, n: int): (count: nat)
    ensures count <= len
  {
    if n >= 0 then (if n < len then n else len)
    else if len + n > 0 then len + n else 0
  }

  function Sum(xs: seq<real>): real {
    if xs == [] then 0.0 else Sum(xs[..|xs| - 1]) + xs[|xs| - 1]
  }

  /** pandas' `mean()`: the arithmetic mean of a non-empty column. */
  function Mean(xs: seq<real>): real
    requires |xs| > 0
  {
    Sum(xs) / |xs| as real
  }

  function MinOf(xs: seq<real>): (m: real)
    requires |xs| > 0
    ensures m in xs
    ensures forall i :: 0 <= i < |xs| ==> m <= xs[i]
  {
    if |xs| == 1 then xs[0]
    else
      var m := MinOf(xs[1..]);
      assert forall i :: 1 <= i < |xs| ==> xs[i] == xs[1..][i - 1];
      if xs[0] <= m then xs[0] else m
  }

  function MaxOf(xs: seq<real>): (m: real)
    requires |xs| > 0
    ensures m in xs
    ensures forall i :: 0 <= i < |xs| ==> xs[i] <= m
  {
    if |xs| == 1 then xs[0]
    else
      var m := MaxOf(xs[1..]);
      assert forall i :: 1 <= i < |xs| ==> xs[i] == xs[1..][i - 1];
      if m <= xs[0] then xs[0] else m
  }

  /** A sum of values that all lie in [lo, hi] lies between n*lo and n*hi. */
  lemma {:induction false} SumBounds(xs: seq<real>, lo: real, hi: real)
    requires forall i :: 0 <= i < |xs| ==> lo <= xs[i] <= hi
    ensures |xs| as real * lo <= Sum(xs) <= |xs| as real * hi
  {
    if xs != [] {
      var init := xs[..|xs| - 1];
      assert forall i :: 0 <= i < |init| ==> init[i] == xs[i];
      SumBounds(init, lo, hi);
      assert |xs| as real * lo == |init| as real * lo + lo;
      assert |xs| as real * hi == |init| as real * hi + hi;
    }
  }

  /** The mean lies between the smallest and the largest value averaged. */
  lemma MeanWithinRange(xs: seq<real>)
    requires |xs| > 0
    ensures MinOf(xs) <= Mean(xs) <= MaxOf(xs)
  {
    MeanBounds(xs, MinOf(xs), MaxOf(xs));
  }

  /** A mean of values that all lie in [lo, hi] lies in [lo, hi]. */
  lemma MeanBounds(xs: seq<real>, lo: real, hi: real)
    requires |xs| > 0
    requires forall i :: 0 <= i < |xs| ==> lo <= xs[i] <= hi
    ensures lo <= Mean(xs) <= hi
  {
    SumBounds(xs, lo, hi);
    QuotientBounds(Sum(xs), |xs| as real, lo, hi);
  }

  lemma QuotientBounds(s: real, n: real, lo: real, hi: real)
    requires n > 0.0 && n * lo <= s <= n * hi
    ensures lo <= s / n <= hi
  {
    assert s / n - lo == (s - n * lo) / n;
    assert hi - s / n == (n * hi - s) / n;
  }

  // ---------------------------------------------------------------- the tick walk

  /** Rows k and k+1 bracket `tick`, both ends inclusive. */
  predicate Brackets(ticks: seq<TickRow>, k: nat, tick: int)
    requires k + 1 < |ticks|
  {
    ticks[k].tickIdx <= tick <= ticks[k + 1].tickIdx
  }

  /**
   * Where the walk stops when it starts at row `from`: the first bracketing
   * pair at or after `from`, or the last pair when no pair brackets `tick`.
   */
  function StopIndex(ticks: seq<TickRow>, tick: int, from: nat): (k: nat)
    requires from + 1 < |ticks|
    ensures from <= k && k + 1 < |ticks|
    ensures Brackets(ticks, k, tick) || k + 2 == |ticks|
    ensures forall j :: from <= j < k ==> !Brackets(ticks, j, tick)
    decreases |ticks| - from
  {
    if Brackets(ticks, from, tick) || from + 2 == |ticks| then from
    else StopIndex(ticks, tick, from + 1)
  }

  /** How many leading rows' `liquidityNet` the walk adds up: none for fewer than two rows. */
  function WalkLength(ticks: seq<TickRow>, tick: int): (n: nat)
    ensures |ticks| < 2 ==> n == 0
    ensures |ticks| >= 2 ==> 1 <= n < |ticks|
  {
    if |ticks| < 2 then 0 else StopIndex(ticks, tick, 0) + 1
  }

  /** The sum of the rows' `liquidityNet`. */
  function NetSum(ticks: seq<TickRow>): real {
    if ticks == [] then 0.0 else NetSum(ticks[..|ticks| - 1]) + ticks[|ticks| - 1].liquidityNet
  }

  /** The walk's result for a query tick. */
  function WalkLiquidity(ticks: seq<TickRow>, tick: int): real {
    NetSum(ticks[..WalkLength(ticks, tick)])
  }

  /**
   * On strictly ordered ticks, a query strictly above row k's index (or at
   * row 0's) and at most row k+1's index stops the walk after row k: the
   * walk adds rows 0..k and not row k+1, even when the query equals row
   * k+1's index.
   */
  lemma WalkStopsInBracket(ticks: seq<TickRow>, tick: int, k: nat)
    requires StrictlySortedByTickIdx(ticks)
    requires k + 1 < |ticks|
    requires ticks[k].tickIdx < tick || (k == 0 && ticks[0].tickIdx <= tick)
    requires tick <= ticks[k + 1].tickIdx
    ensures WalkLength(ticks, tick) == k + 1
    ensures WalkLiquidity(ticks, tick) == NetSum(ticks[..k + 1])
  {
    assert Brackets(ticks, k, tick);
    forall j | 0 <= j < k
      ensures !Brackets(ticks, j, tick)
    {
      assert ticks[j + 1].tickIdx <= ticks[k].tickIdx;
    }
  }

  /** A query outside the ticks' span finds no bracket: the walk adds every row but the last. */
  lemma WalkOutsideSpan(ticks: seq<TickRow>, tick: int)
    requires SortedByTickIdx(ticks)
    requires |ticks| >= 2
    requires tick < ticks[0].tickIdx || ticks[|ticks| - 1].tickIdx < tick
    ensures WalkLength(ticks, tick) == |ticks| - 1
    ensures WalkLiquidity(ticks, tick) == NetSum(ticks[..|ticks| - 1])
  {
    forall j | 0 <= j && j + 1 < |ticks|
      ensures !Brackets(ticks, j, tick)
    {
      assert ticks[0].tickIdx <= ticks[j].tickIdx;
      assert ticks[j + 1].tickIdx <= ticks[|ticks| - 1].tickIdx;
    }
  }

  /** With fewer than two rows the walk adds nothing. */
  lemma WalkOfShortList(ticks: seq<TickRow>, tick: int)
    requires |ticks| < 2
    ensures WalkLiquidity(ticks, tick) == 0.0
  {
    assert ticks[..WalkLength(ticks, tick)] == [];
  }

  // ---------------------------------------------------------------- active liquidity

  /**
   * The liquidity in range at `tick` as the protocol keeps it: the sum of
   * `liquidityNet` over every initialized tick at or below `tick`.
   */
  function ActiveLiquidity(ticks: seq<TickRow>, tick: int): real {
    if ticks == [] then 0.0
    else
      var last := ticks[|ticks| - 1];
      ActiveLiquidity(ticks[..|ticks| - 1], tick) + (if last.tickIdx <= tick then last.liquidityNet else 0.0)
  }

  /**
   * On sorted ticks the active liquidity is a prefix sum: the first n rows
   * are the ones at or below `tick`.
   */
  lemma {:induction false} ActiveLiquidityIsPrefixSum(ticks: seq<TickRow>, tick: int, n: nat)
    requires n <= |ticks|
    requires forall j :: 0 <= j < n ==> ticks[j].tickIdx <= tick
    requires forall j :: n <= j < |ticks| ==> tick < ticks[j].tickIdx
    ensures ActiveLiquidity(ticks, tick) == NetSum(ticks[..n])
    decreases |ticks|
  {
    if ticks != [] {
      var init := ticks[..|ticks| - 1];
      if n == |ticks| {
        ActiveLiquidityIsPrefixSum(init, tick, n - 1);
        assert ticks[..n] == ticks;
        assert init[..n - 1] == init;
      } else {
        ActiveLiquidityIsPrefixSum(init, tick, n);
        assert init[..n] == ticks[..n];
      }
    }
  }

  /**
   * On sorted ticks nothing is in range below the lowest tick, and at or
   * above the highest every tick's `liquidityNet` counts.
   */
  lemma ActiveLiquidityOutsideSpan(ticks: seq<TickRow>, tick: int)
    requires SortedByTickIdx(ticks) && |ticks| > 0
    ensures tick < ticks[0].tickIdx ==> ActiveLiquidity(ticks, tick) == 0.0
    ensures ticks[|ticks| - 1].tickIdx <= tick ==> ActiveLiquidity(ticks, tick) == NetSum(ticks)
  {
    if tick < ticks[0].tickIdx {
      ActiveLiquidityIsPrefixSum(ticks, tick, 0);
      assert ticks[..0] == [];
    }
    if ticks[|ticks| - 1].tickIdx <= tick {
      ActiveLiquidityIsPrefixSum(ticks, tick, |ticks|);
      assert ticks[..|ticks|] == ticks;
    }
  }

  /**
   * Where the walk and the active liquidity agree: a query strictly between
   * two consecutive strictly ordered ticks (or at the lowest one) and below
   * the next one.
   */
  lemma WalkAgreesInsideBracket(ticks: seq<TickRow>, tick: int, k: nat)
    requires StrictlySortedByTickIdx(ticks)
    requires k + 1 < |ticks|
    requires ticks[k].tickIdx < tick || (k == 0 && ticks[0].tickIdx <= tick)
    requires tick < ticks[k + 1].tickIdx
    ensures WalkLiquidity(ticks, tick) == ActiveLiquidity(ticks, tick)
  {
    WalkStopsInBracket(ticks, tick, k);
    forall j | 0 <= j < k + 1
      ensures ticks[j].tickIdx <= tick
    {
      if j < k {
        assert ticks[j].tickIdx < ticks[k].tickIdx;
      }
    }
    forall j | k + 1 <= j < |ticks|
      ensures tick < ticks[j].tickIdx
    {
      if j > k + 1 {
        assert ticks[k + 1].tickIdx < ticks[j].tickIdx;
      }
    }
    ActiveLiquidityIsPrefixSum(ticks, tick, k + 1);
  }

  /**
   * Where they do not: three ticks carrying +5, +3 and -8. Below the lowest
   * tick the walk reports 8 where nothing is in range, at the middle tick it
   * reports 5 where 8 is in range, and above the highest it reports 8 where
   * nothing is.
   */
  lemma WalkDisagreesAtEdges()
    ensures var ticks := [TickRow(-10, 5.0), TickRow(0, 3.0), TickRow(10, -8.0)];
            && WalkLiquidity(ticks, -20) == 8.0 && ActiveLiquidity(ticks, -20) == 0.0
            && WalkLiquidity(ticks, 0) == 5.0 && ActiveLiquidity(ticks, 0) == 8.0
            && WalkLiquidity(ticks, 20) == 8.0 && ActiveLiquidity(ticks, 20) == 0.0
  {
    var ticks := [TickRow(-10, 5.0), TickRow(0, 3.0), TickRow(10, -8.0)];
    assert ticks[..2] == [TickRow(-10, 5.0), TickRow(0, 3.0)];
    assert ticks[..1] == [TickRow(-10, 5.0)];
    assert ticks[..2][..1] == ticks[..1];
    assert ticks[..1][..0] == [];
    assert ActiveLiquidity(ticks[..1], -20) == 0.0;
    assert ActiveLiquidity(ticks[..2], -20) == 0.0;
    assert ActiveLiquidity(ticks[..1], 0) == 5.0;
    assert ActiveLiquidity(ticks[..2], 0) == 8.0;
    assert ActiveLiquidity(ticks[..1], 20) == 5.0;
    assert ActiveLiquidity(ticks[..2], 20) == 8.0;
    assert StopIndex(ticks, -20, 0) == 1;
    assert StopIndex(ticks, 0, 0) == 0;
    assert StopIndex(ticks, 20, 0) == 1;
    assert NetSum(ticks[..1]) == 5.0;
    assert NetSum(ticks[..2]) == 8.0;
    assert WalkLength(ticks, -20) == 2;
    assert WalkLiquidity(ticks, -20) == 8.0;
    assert ActiveLiquidity(ticks, -20) == 0.0;
  }
}
