/**
 A Python `dict`: a finite map that also remembers the order in which its keys
 were first inserted, because iterating over it (`.items()`) follows that order.
 Assigning to a present key keeps its position; `del` drops the key and leaves
 the order of the others alone.
 */
module PyDict {

  datatype RawDict<K, V> = RawDict(order: seq<K>, entries: map<K, V>)

  /** No key occurs twice in `s`. */
  predicate Distinct<K(==)>(s: seq<K>) {
    forall i, j | 0 <= i < j < |s| :: s[i] != s[j]
  }

  /** The iteration order lists every key of the map exactly once. */
  predicate Valid<K, V>(d: RawDict<K, V>) {
    && Distinct(d.order)
    && (forall k <- d.order :: k in d.entries)
    && (forall k <- d.entries.Keys :: k in d.order)
  }

  type Dict<K, V> = d: RawDict<K, V> | Valid(d) witness RawDict([], map[])

  function Empty<K, V>(): (d: Dict<K, V>)
    ensures |d.entries| == 0 && d.order == []
  {
    RawDict([], map[])
  }

  /** Python's truth value of a dict: `not d` holds exactly for the empty dict. */
  predicate IsEmpty<K, V>(d: Dict<K, V>) {
    |d.entries| == 0
  }

  lemma EmptyHasNoOrder<K, V>(d: Dict<K, V>)
    ensures IsEmpty(d) <==> d.order == []
  {
    if d.order != [] {
      assert d.order[0] in d.entries;
    }
  }

  /** `d[k] = v`: a new key goes to the end, a present key keeps its place. */
  function Put<K, V>(d: Dict<K, V>, k: K, v: V): (d': Dict<K, V>)
    ensures d'.entries == d.entries[k := v]
    ensures d'.entries.Keys == d.entries.Keys + {k} && d'.entries[k] == v
    ensures forall x <- d.entries.Keys :: x != k ==> d'.entries[x] == d.entries[x]
    ensures k in d.entries ==> d'.order == d.order
    ensures k !in d.entries ==> d'.order == d.order + [k]
  {
    if k in d.entries then RawDict(d.order, d.entries[k := v])
    else RawDict(d.order + [k], d.entries[k := v])
  }

  /** `s` with every occurrence of `k` dropped, the rest in their original order. */
  function Without<K(==)>(s: seq<K>, k: K): (r: seq<K>)
    ensures forall x <- r :: x in s && x != k
    ensures forall x <- s :: x != k ==> x in r
    ensures Distinct(s) ==> Distinct(r)
    ensures k !in s ==> r == s
    ensures |r| <= |s|
  {
    if |s| == 0 then []
    else if s[0] == k then Without(s[1..], k)
    else
      var rest := Without(s[1..], k);
      assert Distinct(s) ==> s[0] !in s[1..];
      [s[0]] + rest
  }

  /** `del d[k]` (for a present key) and `d.pop(k, None)` (for any key). */
  function Remove<K, V>(d: Dict<K, V>, k: K): (d': Dict<K, V>)
    ensures d'.entries == d.entries - {k}
    ensures d'.entries.Keys == d.entries.Keys - {k}
    ensures forall x <- d'.entries.Keys :: d'.entries[x] == d.entries[x]
    ensures d'.order == Without(d.order, k)
  {
    RawDict(Without(d.order, k), d.entries - {k})
  }
}
