/**
 * The JavaScript `Map` the source builds and iterates: entries are kept in the
 * order their keys were first inserted, and `set` on a key already present
 * replaces its value without moving it. Keys are strings, as in the source.
 */
module OrderedMap {
  import opened Wrappers

  /** The entries of the map in iteration order. */
  datatype OMap<V> = OMap(pairs: seq<(string, V)>)

  function Empty<V>(): (m: OMap<V>)
    ensures |m.pairs| == 0
  {
    OMap([])
  }

  /** The keys in iteration order. */
  function Keys<V>(m: OMap<V>): (ks: seq<string>)
    ensures |ks| == |m.pairs|
    ensures forall i :: 0 <= i < |ks| ==> ks[i] == m.pairs[i].0
  {
    seq(|m.pairs|, i requires 0 <= i < |m.pairs| => m.pairs[i].0)
  }

  /** The values in iteration order (`[...m]` projected on the value). */
  function Values<V>(m: OMap<V>): (vs: seq<V>)
    ensures |vs| == |m.pairs|
    ensures forall i :: 0 <= i < |vs| ==> vs[i] == m.pairs[i].1
  {
    seq(|m.pairs|, i requires 0 <= i < |m.pairs| => m.pairs[i].1)
  }

  /** No key occurs twice: what every JS `Map` satisfies. */
  predicate DistinctKeys<V>(m: OMap<V>) {
    forall i, j :: 0 <= i < j < |m.pairs| ==> m.pairs[i].0 != m.pairs[j].0
  }

  /** The position of the first entry with key `k`, if any. */
  function IndexOf<V>(m: OMap<V>, k: string): (r: Option<nat>)
    ensures r.Some? ==> r.value < |m.pairs| && m.pairs[r.value].0 == k
    ensures r.Some? ==> forall i :: 0 <= i < r.value ==> m.pairs[i].0 != k
    ensures r.None? ==> forall i :: 0 <= i < |m.pairs| ==> m.pairs[i].0 != k
    decreases |m.pairs|
  {
    if m.pairs == [] then None
    else if m.pairs[0].0 == k then Some(0)
    else match IndexOf(OMap(m.pairs[1..]), k)
      case None => None
      case Some(i) => Some(i + 1)
  }

  /** `m.get(k)`. */
  function Get<V>(m: OMap<V>, k: string): (r: Option<V>)
    ensures r.Some? <==> k in Keys(m)
    ensures r.Some? ==> (k, r.value) in m.pairs
  {
    match IndexOf(m, k)
    case None => None
    case Some(i) => assert Keys(m)[i] == k; Some(m.pairs[i].1)
  }

  /** `m.set(k, v)`: replace in place when `k` is present, append otherwise. */
  function Set<V>(m: OMap<V>, k: string, v: V): (r: OMap<V>)
    ensures Get(r, k) == Some(v)
    ensures forall k' :: k' != k ==> Get(r, k') == Get(m, k')
    ensures Keys(r) == if k in Keys(m) then Keys(m) else Keys(m) + [k]
    ensures DistinctKeys(m) ==> DistinctKeys(r)
  {
    match IndexOf(m, k)
    case None =>
      var r := OMap(m.pairs + [(k, v)]);
      forall k' | IndexOf(m, k').Some? ensures IndexOf(r, k') == IndexOf(m, k') {
        IndexOfPrefix(m, r, k');
      }
      assert Keys(r) == Keys(m) + [k];
      r
    case Some(i) =>
      var r := OMap(m.pairs[i := (k, v)]);
      forall k' | IndexOf(m, k').Some? ensures IndexOf(r, k') == IndexOf(m, k') {
        IndexOfPrefix(m, r, k');
      }
      assert Keys(r) == Keys(m);
      r
  }

  /** A key found among the first entries of `m` is found at the same place in `r`. */
  lemma IndexOfPrefix<V>(m: OMap<V>, r: OMap<V>, k: string)
    requires |m.pairs| <= |r.pairs|
    requires forall i :: 0 <= i < |m.pairs| ==> r.pairs[i].0 == m.pairs[i].0
    requires IndexOf(m, k).Some?
    ensures IndexOf(r, k) == IndexOf(m, k)
  {
    var i := IndexOf(m, k).value;
    assert r.pairs[i].0 == k;
    assert forall t :: 0 <= t < i ==> r.pairs[t].0 != k;
  }
}
