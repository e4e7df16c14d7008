/** JavaScript's `Map` as the meal logger uses it: an association list that
    remembers insertion order. `set` on a present key replaces the value in
    place, `set` on a new key appends, and iteration (`values()`,
    `entries()`) follows insertion order. */
module JsMap {
  import opened Options

  type Map<K, V> = seq<(K, V)>

  /** The keys in iteration order. */
  function Keys<K, V>(m: Map<K, V>): seq<K> {
    seq(|m|, i requires 0 <= i < |m| => m[i].0)
  }

  /** `Array.from(m.values())`: the values in iteration order. */
  function Values<K, V>(m: Map<K, V>): seq<V> {
    seq(|m|, i requires 0 <= i < |m| => m[i].1)
  }

  predicate Distinct<T(==)>(s: seq<T>) {
    forall i, j :: 0 <= i < j < |s| ==> s[i] != s[j]
  }

  /** A `Map` never holds a key twice. */
  predicate Valid<K(==), V>(m: Map<K, V>) {
    Distinct(Keys(m))
  }

  /** The position of key `k`, if present. */
  function IndexOf<K(==), V>(m: Map<K, V>, k: K): (r: Option<nat>)
    ensures r.Some? ==> r.value < |m| && m[r.value].0 == k
    ensures r.Some? ==> forall j :: 0 <= j < r.value ==> m[j].0 != k
    ensures r.None? <==> forall j :: 0 <= j < |m| ==> m[j].0 != k
  {
    if m == [] then None
    else if m[0].0 == k then Some(0)
    else match IndexOf(m[1..], k)
      case None => None
      case Some(i) => Some(i + 1)
  }

  /** `m.has(k)`: whether `k` is one of the keys. */
  predicate Has<K(==), V>(m: Map<K, V>, k: K): (b: bool)
    ensures b <==> k in Keys(m)
  {
    var r := IndexOf(m, k);
    assert r.Some? ==> Keys(m)[r.value] == k;
    assert k in Keys(m) ==> r.Some? by {
      if k in Keys(m) {
        var j :| 0 <= j < |m| && Keys(m)[j] == k;
        assert m[j].0 == k;
      }
    }
    r.Some?
  }

  /** `m.get(k)`, `None` standing for `undefined`: a value is found exactly
      for a present key, and in a duplicate-free map it is the value stored
      with that key. */
  function Get<K(==), V>(m: Map<K, V>, k: K): (r: Option<V>)
    ensures r.Some? <==> Has(m, k)
    ensures r.Some? ==> (k, r.value) in m
    ensures Valid(m) ==> forall i :: 0 <= i < |m| && m[i].0 == k ==> r == Some(m[i].1)
  {
    match IndexOf(m, k)
    case Some(i) =>
      assert Valid(m) ==> forall j :: 0 <= j < |m| && m[j].0 == k ==> j == i by {
        if Valid(m) {
          forall j | 0 <= j < |m| && m[j].0 == k ensures j == i {
            assert Keys(m)[j] == Keys(m)[i];
          }
        }
      }
      Some(m[i].1)
    case None => None
  }

  /** `m.set(k, v)`: the entry for `k` now holds `v`; a present key keeps
      its position, a new key is appended, and every entry of another key
      stays where it was. */
  function Set<K(==), V>(m: Map<K, V>, k: K, v: V): (r: Map<K, V>)
    ensures |r| == if Has(m, k) then |m| else |m| + 1
    ensures (k, v) in r
    ensures forall i :: 0 <= i < |m| && m[i].0 != k ==> r[i] == m[i]
  {
    match IndexOf(m, k)
    case Some(i) =>
      assert m[i := (k, v)][i] == (k, v);
      m[i := (k, v)]
    case None =>
      assert (m + [(k, v)])[|m|] == (k, v);
      m + [(k, v)]
  }

  /** Two maps with the same keys in the same order find every key at the
      same position. */
  lemma {:induction false} IndexOfSameKeys<K, V>(m: Map<K, V>, m': Map<K, V>, k: K)
    requires |m| == |m'| && forall j :: 0 <= j < |m| ==> m[j].0 == m'[j].0
    ensures IndexOf(m, k) == IndexOf(m', k)
  {
    if m != [] && m[0].0 != k {
      IndexOfSameKeys(m[1..], m'[1..], k);
    }
  }

  /** Appending an entry does not move any key already present. */
  lemma {:induction false} IndexOfAppend<K, V>(m: Map<K, V>, k: K, v: V, k': K)
    ensures IndexOf(m + [(k, v)], k') ==
      if IndexOf(m, k').Some? then IndexOf(m, k')
      else if k' == k then Some(|m|)
      else None
  {
    if m != [] {
      assert (m + [(k, v)])[1..] == m[1..] + [(k, v)];
      IndexOfAppend(m[1..], k, v, k');
    }
  }

  /** `set` keeps the keys of a present key where they are and appends a new
      key at the end; the map stays duplicate-free. */
  lemma SetKeys<K, V>(m: Map<K, V>, k: K, v: V)
    requires Valid(m)
    ensures Keys(Set(m, k, v)) == if Has(m, k) then Keys(m) else Keys(m) + [k]
    ensures Valid(Set(m, k, v))
  {
    var r := Set(m, k, v);
    if Has(m, k) {
      assert Keys(r) == Keys(m);
    } else {
      assert Keys(r) == Keys(m) + [k];
    }
  }

  /** After `set(k, v)`, `get(k)` is `v` and every other key reads as before. */
  lemma GetSet<K, V>(m: Map<K, V>, k: K, v: V, k': K)
    ensures Get(Set(m, k, v), k') == if k' == k then Some(v) else Get(m, k')
  {
    var r := Set(m, k, v);
    match IndexOf(m, k)
    case Some(i) =>
      IndexOfSameKeys(m, r, k');
    case None =>
      IndexOfAppend(m, k, v, k');
  }
}
