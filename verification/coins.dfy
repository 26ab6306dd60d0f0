/**
 * The coin record of the market-list endpoint, and the lookup of one of its
 * attributes by JSON name (the `a[key]` that the table sort performs).
 */
module Coins {
  import opened Wrappers

  /** One entry of a snapshot. Numeric attributes may be JSON `null`. */
  datatype Coin = Coin(
    id: string,
    name: string,
    symbol: string,
    image: string,
    currentPrice: Option<real>,
    marketCapRank: Option<nat>,
    marketCap: Option<real>,
    totalVolume: Option<real>,
    priceChange24h: Option<real>)

  /** A present attribute value: a JSON string or a JSON number. */
  datatype Value = Text(s: string) | Num(x: real)

  /** The attributes a column header can name; Unknown stands for any other name. */
  datatype Attribute =
    | Id | Name | Symbol | Image
    | CurrentPrice | MarketCapRank | MarketCap | TotalVolume | PriceChange24h
    | Unknown
  {
    predicate IsText() {
      this == Id || this == Name || this == Symbol || this == Image
    }
  }

  /** The JSON name of a known attribute. */
  function JsonName(a: Attribute): string
    requires a != Unknown
  {
    match a
    case Id => "id"
    case Name => "name"
    case Symbol => "symbol"
    case Image => "image"
    case CurrentPrice => "current_price"
    case MarketCapRank => "market_cap_rank"
    case MarketCap => "market_cap"
    case TotalVolume => "total_volume"
    case PriceChange24h => "price_change_percentage_24h"
  }

  /** The attribute a JSON name denotes. */
  function AttributeOf(key: string): (a: Attribute)
    ensures a != Unknown ==> JsonName(a) == key
  {
    if key == "id" then Id
    else if key == "name" then Name
    else if key == "symbol" then Symbol
    else if key == "image" then Image
    else if key == "current_price" then CurrentPrice
    else if key == "market_cap_rank" then MarketCapRank
    else if key == "market_cap" then MarketCap
    else if key == "total_volume" then TotalVolume
    else if key == "price_change_percentage_24h" then PriceChange24h
    else Unknown
  }

  /** Names and attributes correspond one to one. */
  lemma AttributeOfJsonName(a: Attribute)
    requires a != Unknown
    ensures AttributeOf(JsonName(a)) == a
  {
    match a
    case Id =>
    case Name =>
    case Symbol =>
    case Image =>
    case CurrentPrice =>
    case MarketCapRank =>
    case MarketCap =>
    case TotalVolume =>
    case PriceChange24h =>
  }

  function NumAttr(x: Option<real>): Option<Value> {
    match x
    case Some(v) => Some(Num(v))
    case None => None
  }

  /**
   * `coin[key]`: None stands for `null` and for names the record does not
   * carry (`undefined`). Whether a value is a string or a number depends on
   * the attribute alone, so one sort never compares a string with a number.
   */
  function Field(c: Coin, a: Attribute): (r: Option<Value>)
    ensures a.IsText() <==> r.Some? && r.value.Text?
    ensures r.Some? && r.value.Num? ==> !a.IsText() && a != Unknown
    ensures a == Unknown ==> r.None?
  {
    match a
    case Id => Some(Text(c.id))
    case Name => Some(Text(c.name))
    case Symbol => Some(Text(c.symbol))
    case Image => Some(Text(c.image))
    case CurrentPrice => NumAttr(c.currentPrice)
    case MarketCapRank => (match c.marketCapRank case Some(n) => Some(Num(n as real)) case None => None)
    case MarketCap => NumAttr(c.marketCap)
    case TotalVolume => NumAttr(c.totalVolume)
    case PriceChange24h => NumAttr(c.priceChange24h)
    case Unknown => None
  }
}
