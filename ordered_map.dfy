/**
 * An insertion-ordered map, the part of JavaScript's `Map` the tracker uses:
 * `set`, `keys()`, `values()` and lookup. The map is a sequence of key/value
 * entries; iteration order is the order of the sequence.
 */
module OrderedMaps {
  import opened Wrappers

  /** The keys in iteration order (`Array.from(map.keys())`). */
  function Keys<K, V>(m: seq<(K, V)>): (ks: seq<K>)
    ensures |ks| == |m|
    ensures forall i :: 0 <= i < |m| ==> ks[i] == m[i].0
  {
    seq(|m|, i requires 0 <= i < |m| => m[i].0)
  }

  /** The values in iteration order (`Array.from(map.values())`). */
  function Values<K, V>(m: seq<(K, V)>): (vs: seq<V>)
    ensures |vs| == |m|
    ensures forall i :: 0 <= i < |m| ==> vs[i] == m[i].1
  {
    seq(|m|, i requires 0 <= i < |m| => m[i].1)
  }

  /** A map never holds one key twice. */
  ghost predicate DistinctKeys<K, V>(m: seq<(K, V)>)
  {
    forall i, j :: 0 <= i < j < |m| ==> m[i].0 != m[j].0
  }

  /** The position of the first occurrence of `k` in `ks`, if any. */
  function IndexOf<K(==)>(ks: seq<K>, k: K): (r: Option<nat>)
    ensures r.Some? ==> r.value < |ks| && ks[r.value] == k
    ensures r.Some? ==> forall i :: 0 <= i < r.value ==> ks[i] != k
    ensures r.None? <==> k !in ks
  {
    if ks == [] then None
    else if ks[0] == k then Some(0)
    else match IndexOf(ks[1..], k)
      case None => None
      case Some(j) => Some(j + 1)
  }

  /** `map.get(k)`, with `None` for a missing key. */
  function Get<K(==), V>(m: seq<(K, V)>, k: K): (r: Option<V>)
    ensures r.Some? <==> k in Keys(m)
  {
    match IndexOf(Keys(m), k)
    case None => None
    case Some(i) => Some(m[i].1)
  }

  /**
   * `map.set(k, v)`: a key already present keeps its position and takes the
   * new value; a new key goes to the end of the iteration order.
   */
  function Set<K(==, !new), V>(m: seq<(K, V)>, k: K, v: V): (r: seq<(K, V)>)
    ensures Keys(r) == if k in Keys(m) then Keys(m) else Keys(m) + [k]
    ensures Get(r, k) == Some(v)
    ensures forall k' :: k' != k ==> Get(r, k') == Get(m, k')
    ensures DistinctKeys(m) ==> DistinctKeys(r)
  {
    match IndexOf(Keys(m), k)
    case Some(i) =>
      var r := m[i := (k, v)];
      assert Keys(r) == Keys(m);
      r
    case None =>
      var r := m + [(k, v)];
      assert Keys(r) == Keys(m) + [k];
      forall k' | k' != k ensures IndexOf(Keys(r), k') == IndexOf(Keys(m), k') {
        FirstOccurrenceOfPrefix(Keys(m), k, k');
      }
      r
  }

  /** Appending a different key does not move the first occurrence of `k'`. */
  lemma FirstOccurrenceOfPrefix<K>(ks: seq<K>, k: K, k': K)
    requires k' != k
    ensures IndexOf(ks + [k], k') == IndexOf(ks, k')
  {
    var r, s := IndexOf(ks + [k], k'), IndexOf(ks, k');
    if s.Some? {
      assert (ks + [k])[s.value] == k';
    }
    if r.Some? {
      assert r.value < |ks|;
      assert ks[r.value] == k';
    }
  }
}
