/** Properties of the watch-list reducers, alone and folded over an action stream. */
module WatcherLaws {
  import opened Wrappers
  import opened Strings
  import opened Ticker
  import opened Matching
  import opened OrderedMap
  import opened Watcher
  import Intent

  /** An entry found by key names the token when its key or record does. */
  lemma WatchedByEntry(coins: Coins, token: string, k: string, v: Option<Coin>)
    requires Get(coins, k) == Some(v)
    requires MatchCoin(token, v, Some(k))
    ensures Watched(coins, token)
  {
    var i := IndexOf(coins, k);
    assert coins[i] == (k, v);
  }

  /** Whether a token is watched depends on the token only up to case. */
  lemma WatchedIgnoresCase(coins: Coins, t: string, u: string)
    requires EqualsIgnoreCase(t, u)
    ensures Watched(coins, t) <==> Watched(coins, u)
  {
    forall i | 0 <= i < |coins|
      ensures MatchCoin(t, coins[i].1, Some(coins[i].0)) == MatchCoin(u, coins[i].1, Some(coins[i].0))
    {
      MatchIgnoresCase(t, u, coins[i].1, Some(coins[i].0));
    }
  }

  /** After `addCoin(t)` the entry it filed names `t`, unless `t` is empty and unresolved. */
  lemma AddCoinWatches(token: string, s: State)
    requires token != "" || FindCoin(s.ticker, token).Some?
    ensures Watched(AddCoin(token, s).coins, token)
  {
    if !Watched(s.coins, token) {
      var found := FindCoin(s.ticker, token);
      if found.Some? {
        FoundHasId(s.ticker, token);
      }
      AddCoinEffect(token, s);
      WatchedByEntry(AddCoin(token, s).coins, token, AddKey(found, token), found);
    }
  }

  /**
   * Adding a case variant of a token just added is a no-op; in particular
   * `addCoin(t)` applied twice equals applying it once.
   */
  lemma AddCoinCaseVariant(t: string, u: string, s: State)
    requires EqualsIgnoreCase(t, u)
    ensures AddCoin(u, AddCoin(t, s)) == AddCoin(t, s)
  {
    var r := AddCoin(t, s);
    var found := FindCoin(s.ticker, t);
    if Watched(s.coins, t) {
      WatchedIgnoresCase(s.coins, t, u);
    } else if t != "" || found.Some? {
      AddCoinWatches(t, s);
      WatchedIgnoresCase(r.coins, t, u);
    } else {
      EqualsIgnoreCaseEmpty(u);
      assert u == "" && AddKey(found, t) == "";
      AddCoinEffect(t, s);
      if !Watched(r.coins, u) {
        SetSame(r.coins, "", None);
      }
    }
  }

  /** `addCoin` is idempotent. */
  lemma AddCoinIdempotent(t: string, s: State)
    ensures AddCoin(t, AddCoin(t, s)) == AddCoin(t, s)
  {
    AddCoinCaseVariant(t, t, s);
  }

  /** Removing a key and adding it back leaves an entry that names it. */
  lemma RemoveThenAdd(token: string, s: State)
    requires token != ""
    ensures Watched(AddCoin(token, RemoveCoin(Some(token), s)).coins, token)
  {
    AddCoinWatches(token, RemoveCoin(Some(token), s));
  }

  /** No two records of a ticker snapshot share an id. */
  predicate UniqueIds(ticker: seq<Coin>) {
    forall i, j :: 0 <= i < j < |ticker| ==> ticker[i].id != ticker[j].id
  }

  /**
   * Two non-empty tokens neither of which is watched yet are both watched
   * after adding them, in either order, provided the ticker's ids are unique.
   */
  lemma AddTwoWatchesBoth(a: string, b: string, s: State)
    requires a != "" && b != ""
    requires !Watched(s.coins, a)
    requires UniqueIds(s.ticker)
    ensures Watched(AddCoin(b, AddCoin(a, s)).coins, a)
    ensures Watched(AddCoin(b, AddCoin(a, s)).coins, b)
  {
    var s1 := AddCoin(a, s);
    var fa := FindCoin(s.ticker, a);
    var k1 := AddKey(fa, a);
    if fa.Some? { FoundHasId(s.ticker, a); }
    AddCoinEffect(a, s);
    assert Get(s1.coins, k1) == Some(fa) && MatchCoin(a, fa, Some(k1));
    AddCoinWatches(b, s1);
    if !Watched(s1.coins, b) {
      var s2 := AddCoin(b, s1);
      var fb := FindCoin(s1.ticker, b);
      var k2 := AddKey(fb, b);
      AddCoinEffect(b, s1);
      if k2 == k1 {
        if fa.Some? {
          // the record filed for `a` would already name `b`
          assert false;
        }
        WatchedByEntry(s2.coins, a, k1, fb);
      } else {
        WatchedByEntry(s2.coins, a, k1, fa);
      }
    }
  }

  /**
   * After a list ticker value, every entry holds exactly the first record of
   * the new ticker its key names, and an entry is unresolved only when no
   * record is named by its key.
   */
  lemma TickerResolves(records: seq<Coin>, s: State, k: string)
    requires DistinctKeys(s.coins) && HasKey(s.coins, k)
    ensures var r := TickerUpdate(List(records), s);
            && Get(r.coins, k) == Some(FindCoin(records, k))
            && (Get(r.coins, k) == Some(None) <==> forall j :: 0 <= j < |records| ==> !MatchCoin(k, Some(records[j]), None))
  {
    var r := TickerUpdate(List(records), s);
    var i := IndexOf(s.coins, k);
    assert Keys(r.coins)[i] == Keys(s.coins)[i];
    assert forall x, y :: 0 <= x < y < |r.coins| ==> r.coins[x].0 != r.coins[y].0 by {
      forall x, y | 0 <= x < y < |r.coins| ensures r.coins[x].0 != r.coins[y].0 {
        assert Keys(r.coins)[x] == Keys(s.coins)[x] && Keys(r.coins)[y] == Keys(s.coins)[y];
      }
    }
    GetAt(r.coins, i);
  }

  /** Applying the same ticker list twice is the same as applying it once. */
  lemma TickerIdempotent(records: seq<Coin>, s: State)
    ensures TickerUpdate(List(records), TickerUpdate(List(records), s)) == TickerUpdate(List(records), s)
  {
    var r := TickerUpdate(List(records), s);
    var r2 := TickerUpdate(List(records), r);
    assert |Keys(r2.coins)| == |Keys(r.coins)|;
    forall i | 0 <= i < |r.coins| ensures r2.coins[i] == r.coins[i] {
      assert Keys(r2.coins)[i] == Keys(r.coins)[i];
    }
  }

  /** Every resolved entry holds a record of the current ticker. */
  predicate ResolvedFromTicker(s: State) {
    forall i :: 0 <= i < |s.coins| && s.coins[i].1.Some? ==> s.coins[i].1.value in s.ticker
  }

  /** Each transformer keeps resolved records drawn from the current ticker. */
  lemma {:induction false} ApplyKeepsResolved(s: State, a: Action)
    requires ResolvedFromTicker(s)
    ensures ResolvedFromTicker(Apply(s, a))
  {
    match a
    case InputChanged(_) =>
    case AddRequested(token) => AddKeepsResolved(token, s);
    case RemoveClicked(_) =>
      var r := Apply(s, a);
      assert forall i :: 0 <= i < |r.coins| ==> r.coins[i] in s.coins;
    case TickerArrived(value) =>
      if value.List? {
        var r := Apply(s, a);
        forall i | 0 <= i < |r.coins| && r.coins[i].1.Some?
          ensures r.coins[i].1.value in r.ticker
        {
          var c := r.coins[i].1.value;
          assert r.coins[i].1 == FindCoin(value.records, r.coins[i].0);
        }
      }
    case StoredIdsLoaded(ids) => AddAllKeepsResolved(ids, s);
  }

  lemma AddKeepsResolved(token: string, s: State)
    requires ResolvedFromTicker(s)
    ensures ResolvedFromTicker(AddCoin(token, s))
  {
    if !Watched(s.coins, token) {
      var found := FindCoin(s.ticker, token);
      var key := AddKey(found, token);
      var r := AddCoin(token, s);
      assert r.coins == Set(s.coins, key, found);
      if found.Some? {
        var j :| 0 <= j < |s.ticker| && s.ticker[j] == found.value;
      }
    }
  }

  lemma {:induction false} AddAllKeepsResolved(tokens: seq<string>, s: State)
    requires ResolvedFromTicker(s)
    ensures ResolvedFromTicker(AddAll(tokens, s))
    decreases |tokens|
  {
    if |tokens| > 0 {
      AddKeepsResolved(tokens[0], s);
      AddAllKeepsResolved(tokens[1..], AddCoin(tokens[0], s));
    }
  }

  /**
   * Over any stream of actions, resolved records keep coming from the current
   * ticker, starting from any state where they already do (`Initial` has none).
   */
  lemma {:induction false} RunKeepsResolved(s: State, actions: seq<Action>)
    requires ResolvedFromTicker(s)
    ensures ResolvedFromTicker(Run(s, actions))
    decreases |actions|
  {
    if |actions| > 0 {
      ApplyKeepsResolved(s, actions[0]);
      RunKeepsResolved(Apply(s, actions[0]), actions[1..]);
    }
  }

  /** Folding two streams one after the other is folding their concatenation. */
  lemma {:induction false} RunAppend(s: State, xs: seq<Action>, ys: seq<Action>)
    ensures Run(s, xs + ys) == Run(Run(s, xs), ys)
    decreases |xs|
  {
    if |xs| == 0 {
      assert xs + ys == ys;
    } else {
      assert (xs + ys)[1..] == xs[1..] + ys;
      RunAppend(Apply(s, xs[0]), xs[1..], ys);
    }
  }

  /** One add action per token, in order. */
  function AddActions(tokens: seq<string>): (acts: seq<Action>)
    ensures |acts| == |tokens|
    ensures forall i :: 0 <= i < |tokens| ==> acts[i] == AddRequested(tokens[i])
  {
    seq(|tokens|, i requires 0 <= i < |tokens| => AddRequested(tokens[i]))
  }

  /** Folding the adds of a token list is the same as one add action per token, folded in order. */
  lemma {:induction false} AddAllIsFold(ids: seq<string>, s: State)
    ensures AddAll(ids, s) == Run(s, AddActions(ids))
    decreases |ids|
  {
    if |ids| > 0 {
      assert AddActions(ids)[1..] == AddActions(ids[1..]);
      AddAllIsFold(ids[1..], AddCoin(ids[0], s));
    }
  }

  /** Restoring stored ids is the same as one add action per id, folded in order. */
  lemma StoredIdsIsFold(ids: seq<string>, s: State)
    ensures StoredCoinIds(ids, s) == Run(s, AddActions(ids))
  {
    AddAllIsFold(ids, s);
  }

  /**
   * The ticker stream's first value: from the initial state it shows
   * "Loading..." and sets `loading`, leaving the watch list empty.
   */
  lemma LoadingFirst()
    ensures var r := TickerUpdate(NotList(LoadingText), Initial);
            r.message == Some("Loading...") && r.loading && r.coins == [] && r.ticker == []
  {
  }

  /** Adding one more token at the end of a fold is one more add after it. */
  lemma {:induction false} AddAllSnoc(tokens: seq<string>, t: string, s: State)
    ensures AddAll(tokens + [t], s) == AddCoin(t, AddAll(tokens, s))
    decreases |tokens|
  {
    if |tokens| == 0 {
      assert ([] + [t])[1..] == [];
    } else {
      assert (tokens + [t])[1..] == tokens[1..] + [t];
      AddAllSnoc(tokens[1..], t, AddCoin(tokens[0], s));
    }
  }

  /** A stored list whose last id repeats, up to case, the one before restores like the shorter list. */
  lemma StoredIdsCollapse(ids: seq<string>, u: string, s: State)
    requires |ids| > 0 && EqualsIgnoreCase(ids[|ids| - 1], u)
    ensures StoredCoinIds(ids + [u], s) == StoredCoinIds(ids, s)
  {
    var pre := ids[..|ids| - 1];
    var last := ids[|ids| - 1];
    assert ids == pre + [last];
    AddAllSnoc(pre, last, s);
    AddAllSnoc(ids, u, s);
    AddCoinCaseVariant(last, u, AddAll(pre, s));
  }

  /** Clicking the remove button of a row whose key has no whitespace removes exactly that row. */
  lemma RemoveClickRemovesRow(id: string, s: State)
    requires Intent.NoSpace(id)
    ensures Apply(s, RemoveClicked(Intent.ActionButtonClass(Intent.RemoveAction, id))) == RemoveCoin(Some(id), s)
  {
    Intent.RemoveActionIsClass();
    Intent.RemoveButtonRoundTrip(Intent.RemoveAction, id);
  }

  /**
   * Clicking the remove button of a row keyed `a b` (a key with a space)
   * removes the row keyed `a` instead, and the clicked row stays.
   */
  lemma RemoveClickMissesSpacedRow(a: string, b: string, s: State)
    requires Intent.NoSpace(a)
    requires DistinctKeys(s.coins) && HasKey(s.coins, a + " " + b)
    ensures var r := Apply(s, RemoveClicked(Intent.ActionButtonClass(Intent.RemoveAction, a + " " + b)));
            && r == RemoveCoin(Some(a), s)
            && HasKey(r.coins, a + " " + b)
  {
    var key := a + " " + b;
    Intent.RemoveActionIsClass();
    Intent.SpacedIdReadsFirstWord(Intent.RemoveAction, a, b);
    var r := Apply(s, RemoveClicked(Intent.ActionButtonClass(Intent.RemoveAction, key)));
    assert r.coins == Remove(s.coins, a);
    GetAfterRemoveAt(s.coins, a, key);
    assert Get(s.coins, key).Some?;
  }

  /** A stream of text-input events only ever changes the search text, to the last text typed. */
  lemma {:induction false} InputOnlyChangesSearchText(s: State, actions: seq<Action>)
    requires forall i :: 0 <= i < |actions| ==> actions[i].InputChanged?
    ensures var r := Run(s, actions);
            && r.coins == s.coins && SameFeed(s, r)
            && r.searchText == if |actions| == 0 then s.searchText else actions[|actions| - 1].text
    decreases |actions|
  {
    if |actions| > 0 {
      InputOnlyChangesSearchText(Apply(s, actions[0]), actions[1..]);
    }
  }
}
