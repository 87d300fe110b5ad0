/** The coin identity rule of the watch list: which entries and records a typed token names. */
module Matching {
  import opened Wrappers
  import opened Strings
  import opened Ticker
  import Seqs

  /** The map key is present, non-empty and equal to the token ignoring case. */
  predicate KeyNames(search: string, key: Option<string>) {
    key.Some? && key.value != "" && EqualsIgnoreCase(key.value, search)
  }

  /** The record is present, has a non-empty id, and its id, name or symbol equals the token ignoring case. */
  predicate RecordNames(search: string, coin: Option<Coin>) {
    && coin.Some?
    && coin.value.id != ""
    && (|| EqualsIgnoreCase(coin.value.id, search)
        || EqualsIgnoreCase(coin.value.name, search)
        || EqualsIgnoreCase(coin.value.symbol, search))
  }

  /**
   * `matchCoin(search, coin, key)`: the key is tried first, then the record's
   * id, name and symbol; an absent or id-less record matches only via the key.
   */
  function MatchCoin(search: string, coin: Option<Coin>, key: Option<string>): (r: bool)
    ensures r <==> KeyNames(search, key) || RecordNames(search, coin)
  {
    var lowerSearch := Lower(search);
    if key.Some? && key.value != "" && Lower(key.value) == lowerSearch then true
    else if coin.None? || coin.value.id == "" then false
    else if Lower(coin.value.id) == lowerSearch then true
    else if Lower(coin.value.name) == lowerSearch then true
    else if Lower(coin.value.symbol) == lowerSearch then true
    else false
  }

  /** Matching looks at the token only through its lower-case form. */
  lemma MatchIgnoresCase(search: string, search': string, coin: Option<Coin>, key: Option<string>)
    requires EqualsIgnoreCase(search, search')
    ensures MatchCoin(search, coin, key) == MatchCoin(search', coin, key)
  {
  }

  /** A record with a non-empty id is named by its own id, name and symbol. */
  lemma RecordNamedByItsFields(c: Coin, key: Option<string>)
    requires c.id != ""
    ensures MatchCoin(c.id, Some(c), key)
    ensures MatchCoin(c.name, Some(c), key)
    ensures MatchCoin(c.symbol, Some(c), key)
  {
  }

  /** `ticker.find(item => matchCoin(search, item))`: the first ticker record the token names. */
  function FindCoin(ticker: seq<Coin>, search: string): (r: Option<Coin>)
    ensures r.None? <==> forall i :: 0 <= i < |ticker| ==> !RecordNames(search, Some(ticker[i]))
    ensures r.Some? ==> exists i :: 0 <= i < |ticker| && ticker[i] == r.value
                                    && RecordNames(search, Some(ticker[i]))
                                    && forall j :: 0 <= j < i ==> !RecordNames(search, Some(ticker[j]))
  {
    Seqs.Find(ticker, (c: Coin) => MatchCoin(search, Some(c), None))
  }

  /** A found record always carries a non-empty id, which therefore makes a usable map key. */
  lemma FoundHasId(ticker: seq<Coin>, search: string)
    requires FindCoin(ticker, search).Some?
    ensures FindCoin(ticker, search).value.id != ""
    ensures MatchCoin(search, FindCoin(ticker, search), None)
  {
  }

  /** `coins.some((item, key) => matchCoin(search, item, key))`: some watch entry is named by the token. */
  predicate Watched(coins: seq<(string, Option<Coin>)>, search: string) {
    exists i :: 0 <= i < |coins| && MatchCoin(search, coins[i].1, Some(coins[i].0))
  }
}
