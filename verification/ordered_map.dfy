/**
 * Immutable.js `OrderedMap`, as a sequence of (key, value) entries in
 * insertion order. Setting an existing key keeps its position; setting a new
 * key appends it; filtering and mapping keep the order of what remains.
 */
module OrderedMap {
  import opened Wrappers

  /** The keys in iteration (insertion) order: `keySeq().toArray()`. */
  function Keys<K, V>(m: seq<(K, V)>): seq<K> {
    seq(|m|, i requires 0 <= i < |m| => m[i].0)
  }

  /** The map invariant: no key occurs twice. */
  predicate DistinctKeys<K(==), V>(m: seq<(K, V)>) {
    forall i, j :: 0 <= i < j < |m| ==> m[i].0 != m[j].0
  }

  /** `has(k)`. */
  predicate HasKey<K(==), V>(m: seq<(K, V)>, k: K) {
    exists i :: 0 <= i < |m| && m[i].0 == k
  }

  /** `has(k)` is membership in the key sequence. */
  lemma HasKeyInKeys<K, V>(m: seq<(K, V)>)
    ensures forall k :: HasKey(m, k) <==> k in Keys(m)
  {
    forall k | HasKey(m, k) ensures k in Keys(m) {
      var i :| 0 <= i < |m| && m[i].0 == k;
      assert Keys(m)[i] == k;
    }
  }

  /** Position of key `k`: the first entry carrying it. */
  function IndexOf<K(==), V>(m: seq<(K, V)>, k: K): (i: nat)
    requires HasKey(m, k)
    ensures i < |m| && m[i].0 == k
    ensures forall j :: 0 <= j < i ==> m[j].0 != k
  {
    if m[0].0 == k then 0
    else
      assert HasKey(m[1..], k) by {
        var i :| 0 <= i < |m| && m[i].0 == k;
        assert m[1..][i - 1] == m[i];
      }
      1 + IndexOf(m[1..], k)
  }

  /** `get(k)`: the value stored under `k`, None when the key is absent. */
  function Get<K(==), V>(m: seq<(K, V)>, k: K): (r: Option<V>)
    ensures r.None? <==> !HasKey(m, k)
    ensures r.Some? ==> r.value == m[IndexOf(m, k)].1
  {
    if !HasKey(m, k) then None else Some(m[IndexOf(m, k)].1)
  }

  /** Under the invariant, the entry at position `i` is what `get` returns for its key. */
  lemma GetAt<K, V>(m: seq<(K, V)>, i: int)
    requires DistinctKeys(m)
    requires 0 <= i < |m|
    ensures Get(m, m[i].0) == Some(m[i].1)
  {
    var j := IndexOf(m, m[i].0);
    assert j == i;
  }

  /**
   * `set(k, v)`: an existing key keeps its position and gets the new value,
   * a new key is appended at the end.
   */
  function Set<K(==), V>(m: seq<(K, V)>, k: K, v: V): (r: seq<(K, V)>)
    ensures Keys(r) == if HasKey(m, k) then Keys(m) else Keys(m) + [k]
    ensures DistinctKeys(m) ==> DistinctKeys(r)
  {
    if HasKey(m, k) then m[IndexOf(m, k) := (k, v)] else m + [(k, v)]
  }

  /** The first position carrying a key is the only one with no earlier occurrence. */
  lemma IndexOfUnique<K, V>(m: seq<(K, V)>, k: K, i: int)
    requires 0 <= i < |m| && m[i].0 == k
    requires forall j :: 0 <= j < i ==> m[j].0 != k
    ensures HasKey(m, k) && IndexOf(m, k) == i
  {
  }

  /** Reading back after `set`: only the key that was set changes. */
  lemma GetAfterSet<K, V>(m: seq<(K, V)>, k: K, v: V)
    ensures forall k' :: Get(Set(m, k, v), k') == if k' == k then Some(v) else Get(m, k')
  {
    forall k' ensures Get(Set(m, k, v), k') == if k' == k then Some(v) else Get(m, k') {
      GetAfterSetAt(m, k, v, k');
    }
  }

  lemma GetAfterSetAt<K, V>(m: seq<(K, V)>, k: K, v: V, k': K)
    ensures Get(Set(m, k, v), k') == if k' == k then Some(v) else Get(m, k')
  {
    var r := Set(m, k, v);
    if HasKey(m, k') {
      var i := IndexOf(m, k');
      assert r[i].0 == k' && forall j :: 0 <= j < i ==> r[j].0 != k';
      IndexOfUnique(r, k', i);
    } else if k' == k {
      assert r == m + [(k, v)];
      IndexOfUnique(r, k, |m|);
    }
  }

  /** Setting a key to the value it already holds changes nothing. */
  lemma SetSame<K, V>(m: seq<(K, V)>, k: K, v: V)
    requires Get(m, k) == Some(v)
    ensures Set(m, k, v) == m
  {
    var i := IndexOf(m, k);
    assert m[i] == (k, v);
  }

  /** `filter((value, key) => key !== k)`: drop every entry whose key is `k`, keep the rest in order. */
  function Remove<K(==), V>(m: seq<(K, V)>, k: K): (r: seq<(K, V)>)
    ensures !HasKey(r, k)
    ensures !HasKey(m, k) ==> r == m
    ensures forall i :: 0 <= i < |r| ==> r[i] in m
    ensures |r| <= |m|
  {
    if |m| == 0 then []
    else
      var rest := Remove(m[1..], k);
      assert forall i :: 0 <= i < |rest| ==> rest[i] in m by {
        forall i | 0 <= i < |rest| ensures rest[i] in m {
          var j :| 0 <= j < |m[1..]| && m[1..][j] == rest[i];
          assert m[j + 1] == rest[i];
        }
      }
      if m[0].0 == k then
        rest
      else
        assert !HasKey(m, k) ==> !HasKey(m[1..], k) by {
          if HasKey(m[1..], k) {
            var j :| 0 <= j < |m[1..]| && m[1..][j].0 == k;
            assert m[j + 1].0 == k;
          }
        }
        [m[0]] + rest
  }

  /**
   * Under the invariant, removing a present key takes out exactly its entry,
   * so the remaining entries keep their relative order.
   */
  lemma {:induction false} RemoveAt<K, V>(m: seq<(K, V)>, k: K)
    requires DistinctKeys(m) && HasKey(m, k)
    ensures Remove(m, k) == m[..IndexOf(m, k)] + m[IndexOf(m, k) + 1..]
  {
    var i := IndexOf(m, k);
    var t := m[1..];
    if i == 0 {
      assert !HasKey(t, k) by {
        forall j | 0 <= j < |t| ensures t[j].0 != k {
          assert t[j] == m[j + 1];
        }
      }
      assert Remove(m, k) == Remove(t, k);
      assert m[..0] + m[1..] == t;
    } else {
      assert DistinctKeys(t) by {
        forall x, y | 0 <= x < y < |t| ensures t[x].0 != t[y].0 {
          assert t[x] == m[x + 1] && t[y] == m[y + 1];
        }
      }
      forall j | 0 <= j < i - 1 ensures t[j].0 != k {
        assert t[j] == m[j + 1];
      }
      assert t[i - 1] == m[i];
      IndexOfUnique(t, k, i - 1);
      RemoveAt(t, k);
      assert Remove(m, k) == [m[0]] + Remove(t, k);
      ConsSplit(m, i);
    }
  }

  /** Taking out position `i > 0` of `s` is keeping its head and taking out position `i - 1` of its tail. */
  lemma ConsSplit<T>(s: seq<T>, i: int)
    requires 0 < i < |s|
    ensures [s[0]] + (s[1..][..i - 1] + s[1..][i..]) == s[..i] + s[i + 1..]
  {
    assert s[..i] == [s[0]] + s[1..][..i - 1];
    assert s[i + 1..] == s[1..][i..];
  }

  /** Removing keeps the invariant. */
  lemma {:induction false} RemoveKeepsDistinct<K, V>(m: seq<(K, V)>, k: K)
    requires DistinctKeys(m)
    ensures DistinctKeys(Remove(m, k))
  {
    if HasKey(m, k) {
      var i := IndexOf(m, k);
      RemoveShift(m, k);
      var r := Remove(m, k);
      forall x, y | 0 <= x < y < |r| ensures r[x].0 != r[y].0 {
        var x' := if x < i then x else x + 1;
        var y' := if y < i then y else y + 1;
        assert r[x] == m[x'] && r[y] == m[y'];
      }
    }
  }

  /** What a removal does to a map that keeps the invariant, stated for any map. */
  lemma RemoveShape<K, V>(m: seq<(K, V)>, k: K)
    ensures DistinctKeys(m) ==> DistinctKeys(Remove(m, k))
    ensures DistinctKeys(m) && HasKey(m, k) ==> Remove(m, k) == m[..IndexOf(m, k)] + m[IndexOf(m, k) + 1..]
  {
    if DistinctKeys(m) {
      RemoveKeepsDistinct(m, k);
      if HasKey(m, k) {
        RemoveAt(m, k);
      }
    }
  }

  /** Reading back after a removal: only the removed key changes, and it becomes absent. */
  lemma GetAfterRemove<K, V>(m: seq<(K, V)>, k: K)
    requires DistinctKeys(m)
    ensures forall k' :: Get(Remove(m, k), k') == if k' == k then None else Get(m, k')
  {
    forall k' ensures Get(Remove(m, k), k') == if k' == k then None else Get(m, k') {
      GetAfterRemoveAt(m, k, k');
    }
  }

  /** Under the invariant, entries before the removed one stay put and the ones after move up by one. */
  lemma RemoveShift<K, V>(m: seq<(K, V)>, k: K)
    requires DistinctKeys(m) && HasKey(m, k)
    ensures |Remove(m, k)| == |m| - 1
    ensures forall x :: 0 <= x < IndexOf(m, k) ==> Remove(m, k)[x] == m[x]
    ensures forall x :: IndexOf(m, k) <= x < |m| - 1 ==> Remove(m, k)[x] == m[x + 1]
  {
    RemoveAt(m, k);
  }

  lemma GetAfterRemoveAt<K, V>(m: seq<(K, V)>, k: K, k': K)
    requires DistinctKeys(m)
    ensures Get(Remove(m, k), k') == if k' == k then None else Get(m, k')
  {
    var r := Remove(m, k);
    if k' != k && HasKey(m, k) {
      if HasKey(m, k') {
        var i := IndexOf(m, k);
        var j := IndexOf(m, k');
        RemoveShift(m, k);
        if j < i {
          IndexOfUnique(r, k', j);
        } else {
          IndexOfUnique(r, k', j - 1);
        }
      } else {
        assert forall x :: 0 <= x < |r| ==> r[x] in m;
      }
    }
  }

  /** `map((value, key) => f(key))`: same keys in the same order, each value recomputed from its key. */
  function MapValues<K, V, W>(m: seq<(K, V)>, f: K -> W): (r: seq<(K, W)>)
    ensures Keys(r) == Keys(m)
    ensures forall i :: 0 <= i < |r| ==> r[i].1 == f(r[i].0)
  {
    seq(|m|, i requires 0 <= i < |m| => (m[i].0, f(m[i].0)))
  }
}
