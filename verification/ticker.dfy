/** The records the ticker endpoint delivers, and what a ticker response turns into. */
module Ticker {

  /**
   * One entry of a ticker snapshot. Prices and percentages are kept as the
   * decimal strings the endpoint sends; the core never computes with them.
   */
  datatype Coin = Coin(
    id: string,
    name: string,
    symbol: string,
    priceUsd: string,
    priceBtc: string,
    percentChange1h: string,
    percentChange24h: string,
    percentChange7d: string)

  /**
   * What the ticker stream hands the reducer: either a list of records, or
   * any other value, which is shown as a message. The initial "Loading..."
   * placeholder is `NotList`. The failure message a failed request was meant
   * to produce is `NotList` too, as an arbitrary string. As written, that
   * branch reads an undeclared identifier and throws before any reducer runs.
   */
  datatype TickerValue = NotList(text: string) | List(records: seq<Coin>)

  /** The value the ticker stream starts with, before any response arrives. */
  const LoadingText := "Loading..."
}
