/** What the watch list reads from and writes to local storage, and how the two fit together. */
module Persistence {
  import opened Wrappers
  import opened Strings
  import opened Matching
  import opened OrderedMap
  import opened Watcher
  import Ticker

  /** Local-storage key under which the watch list is kept. */
  const StorageKey := "coinIds"

  /** What a fresh or emptied watch list starts from. */
  const DefaultCoinIds := ["bitcoin", "ethereum"]

  /**
   * The stored-id list handed to the reducer: the parsed list, or the default
   * when nothing was stored (`null`) or the list is empty.
   */
  function StoredIdsOrDefault(stored: Option<seq<string>>): (ids: seq<string>)
    ensures |ids| > 0
    ensures stored.Some? && |stored.value| > 0 ==> ids == stored.value
    ensures stored.None? || |stored.value| == 0 ==> ids == DefaultCoinIds
  {
    if stored.None? || |stored.value| <= 0 then DefaultCoinIds
    else stored.value
  }

  /** The storage write for a state: its watch-list keys, in insertion order. */
  datatype StorageRequest = StorageRequest(key: string, ids: seq<string>)

  function PersistRequest(s: State): (req: StorageRequest)
    ensures req.key == StorageKey
    ensures |req.ids| == |s.coins|
    ensures forall i :: 0 <= i < |s.coins| ==> req.ids[i] == s.coins[i].0
    ensures forall k :: k in req.ids <==> HasKey(s.coins, k)
  {
    HasKeyInKeys(s.coins);
    StorageRequest(StorageKey, Keys(s.coins))
  }

  /**
   * What an add does to the storage write: nothing when the token is already
   * watched or its key is already present; otherwise its key is appended.
   */
  lemma PersistAfterAdd(t: string, s: State)
    ensures Watched(s.coins, t) ==> PersistRequest(AddCoin(t, s)) == PersistRequest(s)
    ensures !Watched(s.coins, t) ==>
              var key := AddKey(FindCoin(s.ticker, t), t);
              PersistRequest(AddCoin(t, s)).ids
                == if HasKey(s.coins, key) then PersistRequest(s).ids else PersistRequest(s).ids + [key]
  {
    if !Watched(s.coins, t) {
      AddCoinEffect(t, s);
    }
  }

  /** Tokens no two of which are equal ignoring case, none of them empty. */
  predicate FreshTokens(tokens: seq<string>) {
    && (forall i :: 0 <= i < |tokens| ==> tokens[i] != "")
    && (forall i, j :: 0 <= i < j < |tokens| ==> !EqualsIgnoreCase(tokens[i], tokens[j]))
  }

  predicate NoneWatched(coins: Coins, tokens: seq<string>) {
    forall i :: 0 <= i < |tokens| ==> !Watched(coins, tokens[i])
  }

  predicate NoneListed(ticker: seq<Ticker.Coin>, tokens: seq<string>) {
    forall i :: 0 <= i < |tokens| ==> FindCoin(ticker, tokens[i]).None?
  }

  /** A non-empty token that nothing names is appended as an unresolved entry. */
  lemma AddUnnamedAppends(t: string, s: State)
    requires t != "" && !Watched(s.coins, t) && FindCoin(s.ticker, t).None?
    ensures AddCoin(t, s).coins == s.coins + [(t, None)]
  {
    assert forall i :: 0 <= i < |s.coins| ==> !MatchCoin(t, s.coins[i].1, Some(s.coins[i].0));
    assert !HasKey(s.coins, t);
  }

  /** Appending an unresolved entry for `t` does not make a token watched that differs from `t` beyond case. */
  lemma AppendKeepsUnwatched(coins: Coins, t: string, u: string)
    requires !Watched(coins, u) && !EqualsIgnoreCase(t, u)
    ensures !Watched(coins + [(t, None)], u)
  {
    var c := coins + [(t, None)];
    forall j | 0 <= j < |c| ensures !MatchCoin(u, c[j].1, Some(c[j].0)) {
      if j < |coins| {
        assert c[j] == coins[j];
      }
    }
  }

  /** The preconditions of `AddAllAppendsFresh` carry over from a token list to its tail. */
  lemma FreshStep(tokens: seq<string>, s: State)
    requires |tokens| > 0
    requires FreshTokens(tokens) && NoneWatched(s.coins, tokens) && NoneListed(s.ticker, tokens)
    ensures AddCoin(tokens[0], s).coins == s.coins + [(tokens[0], None)]
    ensures FreshTokens(tokens[1..])
    ensures NoneWatched(AddCoin(tokens[0], s).coins, tokens[1..])
    ensures NoneListed(AddCoin(tokens[0], s).ticker, tokens[1..])
  {
    var t := tokens[0];
    var s1 := AddCoin(t, s);
    AddUnnamedAppends(t, s);
    var rest := tokens[1..];
    assert forall i :: 0 <= i < |rest| ==> rest[i] == tokens[i + 1];
    forall i | 0 <= i < |rest| ensures !Watched(s1.coins, rest[i]) {
      AppendKeepsUnwatched(s.coins, t, rest[i]);
    }
    assert s1.ticker == s.ticker;
  }

  /** Unresolved entries for the given tokens, in order. */
  function Unresolved(tokens: seq<string>): (entries: Coins)
    ensures Keys(entries) == tokens
  {
    seq(|tokens|, i requires 0 <= i < |tokens| => (tokens[i], None))
  }

  /** Each add in the fold appends its token as an unresolved entry. */
  predicate AppendsEach(tokens: seq<string>, s: State)
    decreases |tokens|
  {
    |tokens| > 0 ==>
      && AddCoin(tokens[0], s).coins == s.coins + [(tokens[0], None)]
      && AppendsEach(tokens[1..], AddCoin(tokens[0], s))
  }

  /** Fresh tokens are appended one by one. */
  lemma {:induction false} FreshAppendsEach(tokens: seq<string>, s: State)
    requires FreshTokens(tokens)
    requires NoneWatched(s.coins, tokens)
    requires NoneListed(s.ticker, tokens)
    ensures AppendsEach(tokens, s)
    decreases |tokens|
  {
    if |tokens| > 0 {
      FreshStep(tokens, s);
      FreshAppendsEach(tokens[1..], AddCoin(tokens[0], s));
    }
  }

  /** When every add appends its token, the fold appends all of them. */
  lemma {:induction false} AppendsEachFold(tokens: seq<string>, s: State)
    requires AppendsEach(tokens, s)
    ensures AddAll(tokens, s).coins == s.coins + Unresolved(tokens)
    decreases |tokens|
  {
    if |tokens| > 0 {
      var s1 := AddCoin(tokens[0], s);
      AppendsEachFold(tokens[1..], s1);
      assert Unresolved(tokens) == [(tokens[0], None)] + Unresolved(tokens[1..]);
    }
  }

  /**
   * Adding non-empty, pairwise case-distinct tokens that no entry names and
   * no ticker record names appends exactly those tokens, in order.
   */
  lemma AddAllAppendsFresh(tokens: seq<string>, s: State)
    requires FreshTokens(tokens)
    requires NoneWatched(s.coins, tokens)
    requires NoneListed(s.ticker, tokens)
    ensures AddAll(tokens, s).coins == s.coins + Unresolved(tokens)
  {
    FreshAppendsEach(tokens, s);
    AppendsEachFold(tokens, s);
  }

  /**
   * Without ticker data, restoring a saved list of non-empty, pairwise
   * case-distinct ids into the initial state persists the same list again.
   */
  lemma RestoreRoundTrip(ids: seq<string>)
    requires FreshTokens(ids)
    ensures PersistRequest(StoredCoinIds(ids, Initial)).ids == ids
  {
    AddAllAppendsFresh(ids, Initial);
  }

  /** A fresh session with nothing stored ends up watching the default coins, in order. */
  lemma DefaultRestore()
    ensures PersistRequest(StoredCoinIds(StoredIdsOrDefault(None), Initial)).ids == DefaultCoinIds
  {
    assert !EqualsIgnoreCase(DefaultCoinIds[0], DefaultCoinIds[1]) by {
      assert |Lower(DefaultCoinIds[0])| != |Lower(DefaultCoinIds[1])|;
    }
    RestoreRoundTrip(DefaultCoinIds);
  }
}
