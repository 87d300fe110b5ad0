/**
 * The state-reduction core of the watch-list app: an immutable state value
 * and the pure transformers the merged action stream folds over it.
 */
module Watcher {
  import opened Wrappers
  import opened Ticker
  import opened Matching
  import opened OrderedMap
  import Intent

  /** The watch list: coin key to the ticker record it resolved to (None while unresolved). */
  type Coins = seq<(string, Option<Coin>)>

  datatype State = State(
    coins: Coins,
    ticker: seq<Coin>,
    message: Option<string>,
    loading: bool,
    searchText: string)

  /** The seed of the fold: nothing watched, no ticker, no message, not loading, empty search. */
  const Initial := State([], [], None, false, "")

  /** The fields every transformer except the ticker update leaves alone. */
  predicate SameFeed(s: State, s': State) {
    s'.ticker == s.ticker && s'.message == s.message && s'.loading == s.loading
  }

  /** Keys are only ever added at the end: `s` lists a prefix of the keys of `s'`. */
  predicate KeysExtend(s: State, s': State) {
    |s.coins| <= |s'.coins| && Keys(s'.coins)[..|s.coins|] == Keys(s.coins)
  }

  /** The key an unwatched token is filed under: the id of the record it names, else the token. */
  function AddKey(found: Option<Coin>, token: string): string {
    if found.Some? then found.value.id else token
  }

  /**
   * `addCoin(token)`: no-op when an entry already matches the token; otherwise
   * set the key of the first ticker record the token names (or the token
   * itself, unresolved), and clear the search text.
   */
  function AddCoin(token: string, s: State): (r: State)
    ensures Watched(s.coins, token) ==> r == s
    ensures !Watched(s.coins, token) ==> r.searchText == ""
    ensures SameFeed(s, r)
    ensures KeysExtend(s, r) && |r.coins| <= |s.coins| + 1
    ensures DistinctKeys(s.coins) ==> DistinctKeys(r.coins)
  {
    if Watched(s.coins, token) then s
    else
      var found := FindCoin(s.ticker, token);
      s.(coins := Set(s.coins, AddKey(found, token), found), searchText := "")
  }

  /**
   * What an add does to an unwatched token: exactly one key is set, to the
   * first record the token names; every other key reads as before, and a new
   * key goes at the end.
   */
  lemma AddCoinEffect(token: string, s: State)
    requires !Watched(s.coins, token)
    ensures var found := FindCoin(s.ticker, token);
            var key := AddKey(found, token);
            var r := AddCoin(token, s);
            && Get(r.coins, key) == Some(found)
            && (forall k :: k != key ==> Get(r.coins, k) == Get(s.coins, k))
            && Keys(r.coins) == (if HasKey(s.coins, key) then Keys(s.coins) else Keys(s.coins) + [key])
  {
    var found := FindCoin(s.ticker, token);
    var key := AddKey(found, token);
    assert AddCoin(token, s).coins == Set(s.coins, key, found);
    GetAfterSet(s.coins, key, found);
  }

  /** `filter((coin, id) => id !== token)` on the watch list; a null token removes nothing. */
  function RemoveCoin(token: Option<string>, s: State): (r: State)
    ensures token.None? ==> r == s
    ensures token.Some? ==> !HasKey(r.coins, token.value)
    ensures token.Some? && !HasKey(s.coins, token.value) ==> r == s
    ensures DistinctKeys(s.coins) && token.Some? && HasKey(s.coins, token.value) ==>
              var i := IndexOf(s.coins, token.value);
              r.coins == s.coins[..i] + s.coins[i + 1..]
    ensures DistinctKeys(s.coins) ==> DistinctKeys(r.coins)
    ensures SameFeed(s, r) && r.searchText == s.searchText
  {
    if token.None? then s
    else
      RemoveShape(s.coins, token.value);
      s.(coins := Remove(s.coins, token.value))
  }

  /**
   * The ticker reducer. A non-list value becomes the message and sets
   * `loading`; a list re-resolves every watched key against it, clears the
   * message and `loading`, and replaces the ticker.
   */
  function TickerUpdate(value: TickerValue, s: State): (r: State)
    ensures value.NotList? ==>
              && r.coins == s.coins && r.ticker == s.ticker
              && r.message == Some(value.text) && r.loading
    ensures value.List? ==>
              && Keys(r.coins) == Keys(s.coins)
              && (forall i :: 0 <= i < |r.coins| ==> r.coins[i].1 == FindCoin(value.records, r.coins[i].0))
              && r.ticker == value.records
              && r.message.None? && !r.loading
    ensures r.searchText == s.searchText
  {
    match value
    case NotList(text) =>
      s.(message := Some(text), loading := true)
    case List(records) =>
      s.(message := None,
         coins := MapValues(s.coins, (k: string) => FindCoin(records, k)),
         ticker := records,
         loading := false)
  }

  /** Left fold of `addCoin` over a list of tokens, first token first. */
  function AddAll(tokens: seq<string>, s: State): (r: State)
    ensures SameFeed(s, r)
    ensures KeysExtend(s, r) && |r.coins| <= |s.coins| + |tokens|
    ensures DistinctKeys(s.coins) ==> DistinctKeys(r.coins)
  {
    if |tokens| == 0 then s
    else
      var r := AddAll(tokens[1..], AddCoin(tokens[0], s));
      assert Keys(r.coins)[..|s.coins|] == Keys(r.coins)[..|AddCoin(tokens[0], s).coins|][..|s.coins|];
      r
  }

  /** The stored-ids reducer: identity on an empty list, else `addCoin` for each id in order. */
  function StoredCoinIds(ids: seq<string>, s: State): (r: State)
    ensures |ids| == 0 ==> r == s
    ensures SameFeed(s, r)
    ensures KeysExtend(s, r) && |r.coins| <= |s.coins| + |ids|
    ensures DistinctKeys(s.coins) ==> DistinctKeys(r.coins)
  {
    if |ids| <= 0 then s
    else AddAll(ids, s)
  }

  /** The input-text reducer: record the search text, returning the same state when it is unchanged. */
  function InputText(text: string, s: State): (r: State)
    ensures r.searchText == text
    ensures r.coins == s.coins && SameFeed(s, r)
    ensures s.searchText == text ==> r == s
  {
    if s.searchText == text then s
    else s.(searchText := text)
  }

  /** One event of the merged reducer stream. */
  datatype Action =
    | InputChanged(text: string)
    | AddRequested(token: string)
    | RemoveClicked(className: string)
    | TickerArrived(value: TickerValue)
    | StoredIdsLoaded(ids: seq<string>)

  /** The transformer an action stands for, applied to a state. */
  function Apply(s: State, a: Action): State {
    match a
    case InputChanged(text) => InputText(text, s)
    case AddRequested(token) => AddCoin(token, s)
    case RemoveClicked(className) => RemoveCoin(Intent.ClickedId(className), s)
    case TickerArrived(value) => TickerUpdate(value, s)
    case StoredIdsLoaded(ids) => StoredCoinIds(ids, s)
  }

  /** `reducer$.fold((state, reducer) => reducer(state), s)` over a finite stream. */
  function Run(s: State, actions: seq<Action>): (r: State)
    ensures DistinctKeys(s.coins) ==> DistinctKeys(r.coins)
    decreases |actions|
  {
    if |actions| == 0 then s
    else Run(Apply(s, actions[0]), actions[1..])
  }
}
