/** The values the trading bot receives from the exchange and the orders it emits. */
module Types {

  /** Python's `None` or a value. */
  datatype Option<T> = None | Some(value: T)

  /** A market code such as "KRW-BTC". */
  type Market = string

  /** One entry of the account's balance list. A numeric field is None when
      `float(...)` of the exchange's text would raise. */
  datatype Balance = Balance(currency: string, balance: Option<real>, avgBuyPrice: Option<real>)

  /** One OHLC bar of the daily candle series. */
  datatype Bar = Bar(open: real, high: real, low: real)

  /** One entry of the exchange's ticker snapshot. */
  datatype Ticker = Ticker(market: Market, accTradePrice24h: real)

  /** A wall-clock reading (hour, minute, second of the local day). */
  datatype Clock = Clock(hour: nat, minute: nat, second: nat)

  /** A market order: sell a volume of a coin, or spend an amount of KRW on a coin. */
  datatype Order = Sell(market: Market, volume: real) | Buy(market: Market, krw: real)

  /** Python's truth value of an optional float: present and non-zero. */
  predicate Truthy(x: Option<real>) {
    x.Some? && x.value != 0.0
  }

  /** `dict.get(k)` on a map of target prices. */
  function Get(m: map<Market, real>, k: Market): (r: Option<real>)
    ensures r.Some? <==> k in m
    ensures r.Some? ==> r.value == m[k]
  {
    if k in m then Some(m[k]) else None
  }
}
