/** The endpoint URLs and the optional demo API key appended to them. */
module ApiUrl {

  const KeyParam := "x_cg_demo_api_key="

  /** The key the dashboard ships with: none. */
  const ConfiguredKey := ""

  const MarketsPath := "https://api.coingecko.com/api/v3/coins/markets"
  const MarketsQuery := ['?'] + "vs_currency=usd&order=market_cap_desc&per_page=100&page=1&sparkline=false&price_change_percentage=24h"
  const MarketsUrl := MarketsPath + MarketsQuery

  const ChartQuery := ['?'] + "vs_currency=usd&days=7"

  function MarketChartPath(id: string): string {
    "https://api.coingecko.com/api/v3/coins/" + id + "/market_chart"
  }

  function MarketChartBase(id: string): string {
    MarketChartPath(id) + ChartQuery
  }

  /**
   * Appends `x_cg_demo_api_key=<key>` as a further query parameter when a key
   * is configured: with `&` if the URL already has a query, with `?` otherwise.
   */
  function WithApiKey(url: string, key: string): (r: string)
    ensures key == [] ==> r == url
    ensures key != [] ==> |r| == |url| + 1 + |KeyParam| + |key|
    ensures key != [] ==> r[..|url|] == url
    ensures key != [] ==> r[|url|] == (if '?' in url then '&' else '?')
    ensures key != [] ==> r[|url| + 1..] == KeyParam + key
  {
    if key == [] then url
    else
      var sep := if '?' in url then "&" else "?";
      url + sep + KeyParam + key
  }

  /** The market-list URL for a given key. */
  function MarketsEndpoint(key: string): string {
    WithApiKey(MarketsUrl, key)
  }

  /** The 7-day history URL of coin `id` for a given key. */
  function MarketChartEndpoint(id: string, key: string): string {
    WithApiKey(MarketChartBase(id), key)
  }

  /** With the shipped (empty) key both endpoints are the bare URLs. */
  lemma ConfiguredEndpoints(id: string)
    ensures MarketsEndpoint(ConfiguredKey) == MarketsUrl
    ensures MarketChartEndpoint(id, ConfiguredKey) == MarketChartBase(id)
  {
  }

  /** Both endpoints already carry a query, so a configured key is always joined with `&`. */
  lemma KeyJoinedWithAmpersand(id: string, key: string)
    requires key != []
    ensures MarketsEndpoint(key) == MarketsUrl + "&" + KeyParam + key
    ensures MarketChartEndpoint(id, key) == MarketChartBase(id) + "&" + KeyParam + key
  {
    assert MarketsUrl[|MarketsPath|] == MarketsQuery[0] == '?';
    assert MarketChartBase(id)[|MarketChartPath(id)|] == ChartQuery[0] == '?';
  }

  /**
   * Keying an already keyed URL never starts a second query: the URL the
   * first call returns has a `?`, so the second key is joined with `&`.
   */
  lemma {:induction false} KeyedUrlHasQuery(url: string, key: string, key2: string)
    requires key != [] && key2 != []
    ensures '?' in WithApiKey(url, key)
    ensures WithApiKey(WithApiKey(url, key), key2) == WithApiKey(url, key) + "&" + KeyParam + key2
  {
    var r := WithApiKey(url, key);
    if '?' in url {
      var i :| 0 <= i < |url| && url[i] == '?';
      assert r[i] == r[..|url|][i];
    } else {
      assert r[|url|] == '?';
    }
  }
}
