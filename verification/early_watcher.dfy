/**
 * The earlier reducer of the app: the same fold over an ordered coin map,
 * with exact-id matching and no loading flag or search text.
 */
module EarlyWatcher {
  import opened Wrappers
  import opened Ticker
  import opened OrderedMap
  import Seqs

  /**
   * Coin key to the stored record. Values are `Immutable.Map(record)`: None
   * stands for the empty map built when no ticker record had the id.
   */
  type Coins = seq<(string, Option<Coin>)>

  datatype State = State(coins: Coins, ticker: seq<Coin>, message: Option<string>)

  /** The seed of the fold: nothing watched, no ticker, no message. */
  const Initial := State([], [], None)

  /** `ticker.find(item => item.id === id)`. */
  function FindById(ticker: seq<Coin>, id: string): (r: Option<Coin>)
    ensures r.Some? ==> r.value.id == id
    ensures r.Some? ==> exists i :: 0 <= i < |ticker| && ticker[i] == r.value
                                    && forall j :: 0 <= j < i ==> ticker[j].id != id
    ensures r.None? <==> forall i :: 0 <= i < |ticker| ==> ticker[i].id != id
  {
    Seqs.Find(ticker, (c: Coin) => c.id == id)
  }

  /**
   * The add reducer: no-op when the token is already a key (exact string
   * equality); otherwise file the token with the ticker record of that id.
   */
  function AddCoin(token: string, s: State): (r: State)
    ensures HasKey(s.coins, token) ==> r == s
    ensures !HasKey(s.coins, token) ==> r.coins == s.coins + [(token, FindById(s.ticker, token))]
    ensures r.ticker == s.ticker && r.message == s.message
    ensures DistinctKeys(s.coins) ==> DistinctKeys(r.coins)
  {
    if HasKey(s.coins, token) then s
    else
      var found := FindById(s.ticker, token);
      s.(coins := Set(s.coins, if found.Some? then found.value.id else token, found))
  }

  /** The remove reducer: keep exactly the entries whose key differs from the token. */
  function RemoveCoin(token: string, s: State): (r: State)
    ensures !HasKey(r.coins, token)
    ensures !HasKey(s.coins, token) ==> r == s
    ensures DistinctKeys(s.coins) && HasKey(s.coins, token) ==>
              var i := IndexOf(s.coins, token);
              r.coins == s.coins[..i] + s.coins[i + 1..]
    ensures DistinctKeys(s.coins) ==> DistinctKeys(r.coins)
    ensures r.ticker == s.ticker && r.message == s.message
  {
    RemoveShape(s.coins, token);
    s.(coins := Remove(s.coins, token))
  }

  /**
   * The ticker reducer. A non-list value only becomes the message; a list
   * re-resolves every key by exact id, clears the message and replaces the ticker.
   */
  function TickerUpdate(value: TickerValue, s: State): (r: State)
    ensures value.NotList? ==> r == s.(message := Some(value.text))
    ensures value.List? ==>
              && Keys(r.coins) == Keys(s.coins)
              && (forall i :: 0 <= i < |r.coins| ==> r.coins[i].1 == FindById(value.records, r.coins[i].0))
              && r.ticker == value.records && r.message.None?
  {
    match value
    case NotList(text) => s.(message := Some(text))
    case List(records) =>
      s.(message := None,
         coins := MapValues(s.coins, (k: string) => FindById(records, k)),
         ticker := records)
  }

  /**
   * After a list ticker value, a key reads as the first record with exactly
   * that id, and as unresolved exactly when no record has it.
   */
  lemma TickerResolves(records: seq<Coin>, s: State, k: string)
    requires DistinctKeys(s.coins) && HasKey(s.coins, k)
    ensures var r := TickerUpdate(List(records), s);
            && Get(r.coins, k) == Some(FindById(records, k))
            && (Get(r.coins, k) == Some(None) <==> forall j :: 0 <= j < |records| ==> records[j].id != k)
  {
    var r := TickerUpdate(List(records), s);
    var i := IndexOf(s.coins, k);
    assert Keys(r.coins)[i] == Keys(s.coins)[i];
    assert forall x, y :: 0 <= x < y < |r.coins| ==> r.coins[x].0 != r.coins[y].0 by {
      forall x, y | 0 <= x < y < |r.coins| ensures r.coins[x].0 != r.coins[y].0 {
        assert Keys(r.coins)[x] == Keys(s.coins)[x] && Keys(r.coins)[y] == Keys(s.coins)[y];
      }
    }
    GetAt(r.coins, i);
  }

  /** Applying the same ticker list twice is the same as applying it once. */
  lemma TickerIdempotent(records: seq<Coin>, s: State)
    ensures TickerUpdate(List(records), TickerUpdate(List(records), s)) == TickerUpdate(List(records), s)
  {
    var r := TickerUpdate(List(records), s);
    var r2 := TickerUpdate(List(records), r);
    assert |Keys(r2.coins)| == |Keys(r.coins)|;
    forall i | 0 <= i < |r.coins| ensures r2.coins[i] == r.coins[i] {
      assert Keys(r2.coins)[i] == Keys(r.coins)[i];
    }
  }

  /** One event of the merged reducer stream. */
  datatype Action = AddRequested(token: string) | RemoveRequested(token: string) | TickerArrived(value: TickerValue)

  function Apply(s: State, a: Action): State {
    match a
    case AddRequested(token) => AddCoin(token, s)
    case RemoveRequested(token) => RemoveCoin(token, s)
    case TickerArrived(value) => TickerUpdate(value, s)
  }

  /** `reducer$.fold((state, reducer) => reducer(state), s)` over a finite stream. */
  function Run(s: State, actions: seq<Action>): (r: State)
    ensures DistinctKeys(s.coins) ==> DistinctKeys(r.coins)
    decreases |actions|
  {
    if |actions| == 0 then s
    else Run(Apply(s, actions[0]), actions[1..])
  }

  /** The add actions the add stream starts with, before any key press. */
  const SeedActions := [AddRequested("bitcoin"), AddRequested("ethereum")]

  /** One add action per token, in order. */
  function AddRequests(tokens: seq<string>): (acts: seq<Action>)
    ensures |acts| == |tokens|
    ensures forall i :: 0 <= i < |tokens| ==> acts[i] == AddRequested(tokens[i])
  {
    seq(|tokens|, i requires 0 <= i < |tokens| => AddRequested(tokens[i]))
  }

  /** Distinct tokens none of which is a key yet. */
  predicate FreshKeys(coins: Coins, tokens: seq<string>) {
    && (forall i, j :: 0 <= i < j < |tokens| ==> tokens[i] != tokens[j])
    && (forall i :: 0 <= i < |tokens| ==> !HasKey(coins, tokens[i]))
  }

  /** Adding the first fresh token appends it and leaves the rest fresh. */
  lemma FreshKeyStep(tokens: seq<string>, s: State)
    requires |tokens| > 0 && FreshKeys(s.coins, tokens)
    ensures Keys(AddCoin(tokens[0], s).coins) == Keys(s.coins) + [tokens[0]]
    ensures FreshKeys(AddCoin(tokens[0], s).coins, tokens[1..])
  {
    var s1 := AddCoin(tokens[0], s);
    assert Keys(s1.coins) == Keys(s.coins) + [tokens[0]];
    forall i | 0 <= i < |tokens[1..]| ensures !HasKey(s1.coins, tokens[1..][i]) {
      assert tokens[1..][i] == tokens[i + 1] != tokens[0];
    }
  }

  /** Adding each token in order, as a plain left fold of the add reducer. */
  function AddAll(tokens: seq<string>, s: State): State {
    if |tokens| == 0 then s else AddAll(tokens[1..], AddCoin(tokens[0], s))
  }

  /** Folding the stream of add actions of a token list is the left fold of the add reducer. */
  lemma {:induction false} RunAddsIsAddAll(tokens: seq<string>, s: State)
    ensures Run(s, AddRequests(tokens)) == AddAll(tokens, s)
    decreases |tokens|
  {
    if |tokens| > 0 {
      assert AddRequests(tokens)[1..] == AddRequests(tokens[1..]);
      RunAddsIsAddAll(tokens[1..], AddCoin(tokens[0], s));
    }
  }

  /** Adding fresh tokens appends them as keys, in order. */
  lemma {:induction false} AddFreshAppends(tokens: seq<string>, s: State)
    requires FreshKeys(s.coins, tokens)
    ensures Keys(AddAll(tokens, s).coins) == Keys(s.coins) + tokens
    decreases |tokens|
  {
    if |tokens| > 0 {
      var s1 := AddCoin(tokens[0], s);
      FreshKeyStep(tokens, s);
      AddFreshAppends(tokens[1..], s1);
      Seqs.AppendHeadTail(Keys(s.coins), tokens);
    }
  }

  /** From the initial state the seed adds leave `bitcoin` then `ethereum` as the keys. */
  lemma SeedKeys()
    ensures Keys(Run(Initial, SeedActions).coins) == ["bitcoin", "ethereum"]
  {
    assert SeedActions == AddRequests(["bitcoin", "ethereum"]);
    RunAddsIsAddAll(["bitcoin", "ethereum"], Initial);
    AddFreshAppends(["bitcoin", "ethereum"], Initial);
  }

  /** An add is a no-op exactly when the token is already a key. */
  lemma AddCoinNoOpIff(token: string, s: State)
    ensures AddCoin(token, s) == s <==> HasKey(s.coins, token)
  {
    if !HasKey(s.coins, token) {
      assert |AddCoin(token, s).coins| == |s.coins| + 1;
    }
  }

  /** The add reducer is idempotent. */
  lemma AddCoinIdempotent(token: string, s: State)
    ensures AddCoin(token, AddCoin(token, s)) == AddCoin(token, s)
  {
    if !HasKey(s.coins, token) {
      assert Keys(AddCoin(token, s).coins) == Keys(s.coins) + [token];
      assert Keys(AddCoin(token, s).coins)[|s.coins|] == token;
    }
  }
}
