# Crypto Watcher state core in Dafny

This project models the state-reduction core of Crypto Watcher, a single-page app that keeps a personal
watch list of cryptocurrencies and refreshes it from a ticker feed. The app folds a merged stream
of pure `state -> state` transformers over one immutable state record. That record holds:

- `coins`: an insertion-ordered map from a coin key to the ticker record it resolved to, or to nothing;
- `ticker`: the last ticker snapshot;
- `message`: a status text, or `null`;
- `loading`: a flag;
- `searchText`: the text in the search box.

Two versions of the reducer are modelled:

- `src/app.jsx`, the current app. Tokens are matched case-insensitively against a key or a
  record's id, name or symbol. The state also has `loading` and `searchText`.
- `crypto-watch/src/app.jsx`, the earlier app. Tokens are matched by exact id. The state has no
  `loading` and no `searchText`.

Modules, leaf to root:

- `Wrappers`: `Option`, which stands in for `null`/`undefined`.
- `Seqs`: `Find`, the first element that satisfies a predicate.
- `Strings`: ASCII lower-casing, case-insensitive equality and `startsWith`.
- `OrderedMap`: Immutable.js `OrderedMap` as a sequence of `(key, value)` pairs. `Set` keeps an
  existing key's position and appends a new key; `Remove` filters by key; `MapValues` recomputes
  each value from its key; `DistinctKeys` is the map invariant.
- `Ticker`: the `Coin` record, with prices kept as opaque strings. `TickerValue` is what the
  ticker stream hands the reducer: a list of records, or any other value, which becomes the message.
- `Matching`: `matchCoin`, the first ticker record a token names, and `Watched` (the `coins.some`
  test).
- `Intent`: the remove button's `className`, its whitespace split into a class list, and
  `getCoinIdFromClass`, which reads the remove token from that list.
- `Watcher`: the reducers of `src/app.jsx`, the `Action` stream they are merged into, and its fold
  `Run`. `Watcher.Initial` is the fold's seed (src/app.jsx:291-297).
- `WatcherLaws`: properties of those reducers, alone and over a folded action stream.
- `Persistence`: the stored-id default, the storage write of the key list, and restore round trips.
- `EarlyWatcher`: the reducers of `crypto-watch/src/app.jsx`, its seed adds and its fold.

Notes on where the model had to choose:

- In the source, a failed ticker request produces no value at all. Its branch reads `statusText`,
  an identifier neither file declares (src/app.jsx:203, crypto-watch/src/app.jsx:130). That read
  throws a `ReferenceError` inside the ticker stream's `map`, before any reducer runs. The
  evident intent is a `"<status>: <reason>"` message, and the model carries that intended failure
  value as an arbitrary string in `TickerValue.NotList`. Any `NotList` text other than
  `"Loading..."` stands for this intended value, not for anything the code as written delivers.
- The current app's initial state has `loading = false`, as the code writes it. The ticker stream
  starts with the value `"Loading..."` (`Ticker.LoadingText`). Once that value is reduced,
  `loading` is true and the message is `"Loading..."`.
- In the earlier app, the stored value is `Immutable.Map(record)`. `None` stands for the empty map
  built when no record has the token as its id.
- A remove click carries the clicked button's `className`. Its class list is that string split on
  ASCII whitespace, and the id is read from the first `id-` class. A key containing a space (a
  typed token no ticker record names is stored verbatim) therefore does not read back: the
  button of row `bitcoin cash` reads as `bitcoin`, so the click removes the row `bitcoin`, if any,
  and leaves the clicked row (`Intent.SpacedIdReadsFirstWord`, `WatcherLaws.RemoveClickMissesSpacedRow`).
- Some laws hold only under conditions. "Adding A then B leaves both watched" needs neither token
  to be watched already and the ticker ids to be unique. "Restoring the saved keys gives the same
  keys back" needs no ticker data and non-empty, pairwise case-distinct keys. Without these
  conditions, an add can overwrite the record through which an earlier token was matched.

## Model

| member | source | states |
|---|---|---|
| Seqs.Find | src/app.jsx:240 | the result is the first element satisfying the predicate, and None exactly when no element does |
| OrderedMap.Set | src/app.jsx:241 | setting an existing key replaces its entry in place; a new key is appended; the key order is kept; distinct keys stay distinct |
| OrderedMap.GetAfterSet | src/app.jsx:241 | after `set(k, v)`, reading `k` gives `v` and reading any other key gives what it gave before |
| OrderedMap.Remove | src/app.jsx:251 | no entry with the key remains; nothing changes when the key is absent; every remaining entry was in the map |
| OrderedMap.RemoveAt | src/app.jsx:251 | on a map with distinct keys, removing a present key takes out exactly its entry and keeps the others in order |
| OrderedMap.GetAfterRemove | src/app.jsx:251 | after removing `k`, reading `k` gives nothing and every other key reads as before |
| OrderedMap.MapValues | src/app.jsx:264-266 | the same keys in the same order, each value recomputed from its key |
| Strings.Lower | src/app.jsx:210 | `toLowerCase` keeps the length, maps each capital letter to the small letter 32 code points above it, keeps every other character, and leaves no capital letter |
| Strings.LowerIdempotent | src/app.jsx:210-223 | lower-casing an already lower-cased string changes nothing |
| Matching.MatchCoin | src/app.jsx:209-227 | a token matches iff the key is non-empty and equal to it ignoring case, or the record is present with a non-empty id and its id, name or symbol equals it ignoring case |
| Matching.MatchIgnoresCase | src/app.jsx:210-225 | two tokens that are equal ignoring case match exactly the same keys and records |
| Matching.RecordNamedByItsFields | src/app.jsx:214-225 | a record with a non-empty id is matched by its own id, name and symbol |
| Matching.FindCoin | src/app.jsx:240 | the result is the first ticker record the token names, and None exactly when no record names it |
| Intent.ClassList | src/app.jsx:51 | the class list of a `className`: every class is non-empty and free of whitespace, and a non-empty `className` without whitespace is its own single class |
| Intent.SpaceSkipped | src/app.jsx:51 | a leading whitespace character of any of the five kinds adds no class |
| Intent.ClassThenSpace | src/app.jsx:51 | a class followed by any whitespace character becomes the first class, and the rest of the string is split the same way |
| Intent.GetCoinIdFromClass | src/app.jsx:50-56 | the result is the text after `id-` in the first class starting with `id-`, and None exactly when no class starts with `id-` |
| Intent.RemoveButtonRoundTrip | src/app.jsx:93 | the `className` rendered on a row's action button, split into classes, reads back as the row's key when the key has no whitespace |
| Intent.SpacedIdReadsFirstWord | src/app.jsx:93 | the button of a key `a b` whose first part `a` has no whitespace reads back as `a`, which differs from the key |
| Watcher.AddCoin | src/app.jsx:230-243 | a token that some entry matches leaves the state unchanged; otherwise the search text is cleared; ticker, message and loading are untouched; keys are only appended, at most one per add, and stay distinct |
| Watcher.AddCoinEffect | src/app.jsx:238-242 | for an unwatched token, exactly one key is set (the found record's id or the token) to the found record; every other key reads as before; a new key is appended and existing keys keep their order |
| Watcher.RemoveCoin | src/app.jsx:249-253 | a null or absent token changes nothing; otherwise exactly the entry with that key is removed and the rest keep their order; other fields are untouched |
| Watcher.TickerUpdate | src/app.jsx:256-270 | a non-list value becomes the message, sets loading, and leaves coins and ticker alone; a list keeps the keys in order, re-resolves each value to the first record its key names, clears the message and loading, and replaces the ticker |
| Watcher.AddAll | src/app.jsx:279 | folding adds keeps ticker, message and loading, only appends keys, adds at most one key per token, and keeps keys distinct |
| Watcher.StoredCoinIds | src/app.jsx:273-280 | the identity on an empty list; otherwise ticker, message and loading are kept, keys are only appended, at most one per id, and stay distinct |
| Watcher.InputText | src/app.jsx:282-287 | only the search text changes, to the typed text; an unchanged text returns the same state |
| Watcher.Run | src/app.jsx:289-297 | folding any action stream keeps the map keys distinct |
| WatcherLaws.AddCoinWatches | src/app.jsx:239-242 | after adding a non-empty token, or one the ticker resolves, some entry matches it |
| WatcherLaws.AddCoinCaseVariant | src/app.jsx:234-242 | adding a token that is equal ignoring case to one just added changes nothing |
| WatcherLaws.AddCoinIdempotent | src/app.jsx:234-237 | adding the same token twice equals adding it once |
| WatcherLaws.RemoveThenAdd | src/app.jsx:249-253 | removing a non-empty key and adding it again leaves an entry that matches it |
| WatcherLaws.AddTwoWatchesBoth | src/app.jsx:230-243 | two unwatched non-empty tokens are both watched after adding them in either order, when ticker ids are unique |
| WatcherLaws.TickerResolves | src/app.jsx:264-266 | after a list update, every key reads as the first new record it names, and is unresolved exactly when no record names it |
| WatcherLaws.TickerIdempotent | src/app.jsx:263-269 | applying the same ticker list twice equals applying it once |
| WatcherLaws.RunKeepsResolved | src/app.jsx:289-297 | over any action stream, every resolved entry holds a record of the current ticker |
| WatcherLaws.RunAppend | src/app.jsx:291 | folding two streams in turn equals folding their concatenation |
| WatcherLaws.StoredIdsIsFold | src/app.jsx:273-280 | restoring stored ids equals folding one add action per id, in order |
| WatcherLaws.StoredIdsCollapse | src/app.jsx:273-280 | a stored list whose last id repeats the one before it, up to case, restores to the same state as the list without the repeat |
| WatcherLaws.LoadingFirst | src/app.jsx:256-260 | the ticker stream's first value, `"Loading..."` (src/app.jsx line 206), reduced from the initial state shows that message and sets loading, with nothing watched |
| WatcherLaws.RemoveClickRemovesRow | src/app.jsx:35 | a click on the remove button of a row whose key has no whitespace is the remove reducer for exactly that key |
| WatcherLaws.RemoveClickMissesSpacedRow | src/app.jsx:35 | a click on the remove button of a row keyed `a b` is the remove reducer for `a`, and the clicked row stays |
| WatcherLaws.InputOnlyChangesSearchText | src/app.jsx:282-287 | a stream of text inputs changes only the search text, which ends as the last text typed |
| Persistence.StoredIdsOrDefault | src/app.jsx:315-322 | a null or empty stored list becomes `["bitcoin", "ethereum"]`; any other list is kept |
| Persistence.PersistRequest | src/app.jsx:330-336 | the storage write goes under `coinIds` and lists exactly the watched keys, one per entry, in insertion order |
| Persistence.PersistAfterAdd | src/app.jsx:230-243 | an add leaves the storage write unchanged when the token is watched or its key is present, and otherwise appends the new key to it |
| Persistence.AddAllAppendsFresh | src/app.jsx:273-280 | adding non-empty, case-distinct tokens that no entry and no ticker record names appends one unresolved entry per token, in order, and changes no existing entry |
| Persistence.RestoreRoundTrip | src/app.jsx:330-336 | without ticker data, restoring a saved key list into the initial state persists the same list |
| Persistence.DefaultRestore | src/app.jsx:315-322 | a session with nothing stored persists `["bitcoin", "ethereum"]` after the restore |
| EarlyWatcher.FindById | crypto-watch/src/app.jsx:145 | the result is the first record whose id is exactly the token, and None exactly when no record has it |
| EarlyWatcher.AddCoin | crypto-watch/src/app.jsx:135-148 | an existing key changes nothing; otherwise exactly the token is appended with the record of that id; message and ticker are untouched |
| EarlyWatcher.AddCoinNoOpIff | crypto-watch/src/app.jsx:139-142 | the add is a no-op exactly when the token is already a key, by exact string equality |
| EarlyWatcher.AddCoinIdempotent | crypto-watch/src/app.jsx:135-148 | adding the same token twice equals adding it once |
| EarlyWatcher.RemoveCoin | crypto-watch/src/app.jsx:150-154 | exactly the entry with that key is removed and the rest keep their order; message and ticker are untouched |
| EarlyWatcher.TickerUpdate | crypto-watch/src/app.jsx:156-170 | a non-list value changes only the message; a list keeps the keys in order, resolves each to the first record with exactly that id (or to nothing when none has it), clears the message and replaces the ticker |
| EarlyWatcher.TickerResolves | crypto-watch/src/app.jsx:163-166 | after a list update, every key reads as the first record with that id, and is unresolved exactly when no record has it |
| EarlyWatcher.TickerIdempotent | crypto-watch/src/app.jsx:156-170 | applying the same ticker list twice equals applying it once |
| EarlyWatcher.Run | crypto-watch/src/app.jsx:172-178 | folding any action stream keeps the map keys distinct |
| EarlyWatcher.RunAddsIsAddAll | crypto-watch/src/app.jsx:172-174 | folding a stream of add actions equals the left fold of the add reducer |
| EarlyWatcher.AddFreshAppends | crypto-watch/src/app.jsx:144-147 | adding distinct tokens that are not keys yet appends them as keys, in order |
| EarlyWatcher.SeedKeys | crypto-watch/src/app.jsx:46-49 | from the initial state, the seed adds leave the keys `bitcoin` then `ethereum` |

## Left out

- Rendering (`renderHeader`, `renderMessage`, `renderActionButton`, `renderCoinTable`, `view`): this is markup, and the table formats floats with `parseFloat`/`toFixed`.
- Stream timing (`debounce`, `startWith`, `combine`, `merge`, `flatten`, and the true/false pulse that gates `addCoinStream`): this is reactive scheduling. The merged reducer stream is modelled as an arbitrary finite sequence of `Action`s folded in order. An add action carries the text the add stream is combined with: in the current app, the input text current at the trigger; in the earlier app, the last debounced non-empty search text, or `''` before any.
- HTTP requests and the 60-second polling: these are I/O. A response reaches the model only as a `TickerValue`.
- The local-storage driver and `JSON.parse`/`JSON.stringify`: these are library calls, and invalid JSON throws instead of defaulting. A stored list reaches the model already parsed, as `Option<seq<string>>`.
- The thrown `ReferenceError` on a failed fetch, and what it does to the stream: a reducer never sees a failure. The model lets a failure reach the reducer as the evidently intended message, an arbitrary string, and does not model its exact text.
- `crypto-watch/src/index.js`: driver wiring only.
- Strings.Lower: Unicode case mapping is left out; `toLowerCase` is modelled on ASCII letters only.
- Record fields that are missing or `null`: fields are strings, and a "falsy" id is the empty string. A non-list ticker value that is not a string (a JSON object) is also carried as a string message.
- The earlier app's remove stream is `xs.empty()`. Its remove reducer is modelled and folded, but nothing in that app produces a remove action.
- WatcherLaws.AddTwoWatchesBoth: weaker than "both present regardless of order" as a general claim. It requires neither token to be watched yet and the ticker ids to be unique, because otherwise the second add can replace the record through which the first token was matched.
- Intent.RemoveButtonRoundTrip: holds only for keys without whitespace. A key with a space is split by the class list, and `Intent.SpacedIdReadsFirstWord` states what it reads back as instead.
- The class list's removal of duplicate classes: it keeps the first occurrence, so it never changes which `id-` class is found first.
- Persistence.RestoreRoundTrip: stated only without ticker data and for non-empty, pairwise case-distinct keys. With ticker data, a restored token can be filed under the id of the record it names.
