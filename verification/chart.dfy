/**
 * The 7-day chart of the details tab: the fetched price history, or a
 * synthetic series around the current price when the history is unavailable.
 * The clock and the random source are inputs.
 */
module Chart {
  import opened Wrappers
  import opened Coins

  /** An x-axis label: a calendar day `days` before today, or the day of a sample's timestamp. */
  datatype Label = DaysAgo(days: nat) | SampleTime(timestamp: int)

  /** One `[timestamp, price]` pair of the history endpoint. */
  datatype PriceSample = PriceSample(timestamp: int, price: real)

  /** How the history fetch ends: a parsed body (whose `prices` may be absent), a non-ok response, or an error. */
  datatype ChartFetch = ChartFetched(prices: Option<seq<PriceSample>>) | ChartNotOk | ChartNetworkError

  /** What the chart plots, and whether it is the synthetic series. */
  datatype Series = Series(labels: seq<Label>, values: seq<real>, simulated: bool)

  const FallbackPoints := 7

  /** A value `Math.random()` can return. */
  predicate IsRandomSample(u: real) {
    0.0 <= u < 1.0
  }

  function Max(a: real, b: real): real {
    if a >= b then a else b
  }

  /**
   * One synthetic point: the price moved by a noise of `(u * 0.2 - 0.1) * price`,
   * never below 0; for a non-negative price it lies within 10% of the price.
   */
  function FallbackValue(price: real, u: real): (r: real)
    ensures r >= 0.0
    ensures price >= 0.0 && IsRandomSample(u) ==> 0.9 * price <= r <= 1.1 * price
  {
    NoiseWithinTenPercent(price, u);
    Max(price + (u * 0.2 - 0.1) * price, 0.0)
  }

  /** A draw in [0, 1) moves a non-negative price by at most 10% either way. */
  lemma NoiseWithinTenPercent(price: real, u: real)
    ensures price >= 0.0 && IsRandomSample(u) ==>
      -0.1 * price <= (u * 0.2 - 0.1) * price <= 0.1 * price
  {
    if price >= 0.0 && IsRandomSample(u) {
      assert 0.0 <= u * price <= price by {
        assert (1.0 - u) * price >= 0.0;
      }
    }
  }

  /**
   * `generateFallbackSeries`: one point per day for the last seven days,
   * oldest first; `random` holds the seven `Math.random()` draws in order. A
   * missing price behaves as 0 (JavaScript's `null` in arithmetic).
   */
  method GenerateFallbackSeries(currentPrice: Option<real>, random: seq<real>) returns (labels: seq<Label>, values: seq<real>)
    requires |random| == FallbackPoints
    requires forall k :: 0 <= k < |random| ==> IsRandomSample(random[k])
    ensures |labels| == FallbackPoints && |values| == FallbackPoints
    ensures forall k :: 0 <= k < FallbackPoints ==> labels[k] == DaysAgo(FallbackPoints - 1 - k)
    ensures forall k :: 0 <= k < FallbackPoints ==> values[k] == FallbackValue(currentPrice.GetOr(0.0), random[k])
    ensures forall k :: 0 <= k < FallbackPoints ==> values[k] >= 0.0
    ensures currentPrice.GetOr(0.0) >= 0.0 ==> forall k :: 0 <= k < FallbackPoints ==>
      0.9 * currentPrice.GetOr(0.0) <= values[k] <= 1.1 * currentPrice.GetOr(0.0)
  {
    var price := currentPrice.GetOr(0.0);
    labels, values := [], [];
    var i := FallbackPoints - 1;
    while i >= 0
      invariant -1 <= i < FallbackPoints
      invariant |labels| == |values| == FallbackPoints - 1 - i
      invariant forall k :: 0 <= k < |labels| ==> labels[k] == DaysAgo(FallbackPoints - 1 - k)
      invariant forall k :: 0 <= k < |values| ==> values[k] == FallbackValue(price, random[k])
      invariant forall k :: 0 <= k < |values| ==> values[k] >= 0.0
      invariant price >= 0.0 ==> forall k :: 0 <= k < |values| ==> 0.9 * price <= values[k] <= 1.1 * price
    {
      var u := random[FallbackPoints - 1 - i];
      labels := labels + [DaysAgo(i)];
      values := values + [FallbackValue(price, u)];
      i := i - 1;
    }
  }

  /**
   * `loadCoinChart` without the drawing: the fetched samples when the fetch
   * succeeded with a non-empty `prices` list, the synthetic series otherwise.
   */
  method LoadCoinChart(coin: Coin, outcome: ChartFetch, random: seq<real>) returns (series: Series)
    requires |random| == FallbackPoints
    requires forall k :: 0 <= k < |random| ==> IsRandomSample(random[k])
    ensures series.simulated <==> !(outcome.ChartFetched? && outcome.prices.Some? && |outcome.prices.value| > 0)
    ensures !series.simulated ==>
      var prices := outcome.prices.value;
      && |series.labels| == |prices| && |series.values| == |prices|
      && (forall k :: 0 <= k < |prices| ==> series.labels[k] == SampleTime(prices[k].timestamp))
      && (forall k :: 0 <= k < |prices| ==> series.values[k] == prices[k].price)
    ensures series.simulated ==>
      && |series.labels| == FallbackPoints && |series.values| == FallbackPoints
      && (forall k :: 0 <= k < FallbackPoints ==> series.labels[k] == DaysAgo(FallbackPoints - 1 - k))
      && (forall k :: 0 <= k < FallbackPoints ==> series.values[k] == FallbackValue(coin.currentPrice.GetOr(0.0), random[k]))
      && (forall k :: 0 <= k < FallbackPoints ==> series.values[k] >= 0.0)
    ensures series.simulated && coin.currentPrice.GetOr(0.0) >= 0.0 ==>
      forall k :: 0 <= k < FallbackPoints ==>
        0.9 * coin.currentPrice.GetOr(0.0) <= series.values[k] <= 1.1 * coin.currentPrice.GetOr(0.0)
  {
    var prices: seq<PriceSample> := [];
    var ok := false;
    if outcome.ChartFetched? {
      prices := outcome.prices.GetOr([]);
      ok := |prices| > 0;
    }
    if ok {
      var labels := seq(|prices|, k requires 0 <= k < |prices| => SampleTime(prices[k].timestamp));
      var values := seq(|prices|, k requires 0 <= k < |prices| => prices[k].price);
      series := Series(labels, values, false);
    } else {
      var labels, values := GenerateFallbackSeries(coin.currentPrice, random);
      series := Series(labels, values, true);
    }
  }
}
