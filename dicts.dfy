/**
 * A Python `dict`: a finite map whose keys are kept in insertion order.
 * Assigning to a key already present keeps its position, a new key goes
 * last, and `del` takes a key out without disturbing the order of the rest.
 */
module Dicts {

  ghost predicate Distinct<K>(s: seq<K>) {
    forall i, j :: 0 <= i < j < |s| ==> s[i] != s[j]
  }

  /** `keys` is the iteration order, `table` the key-to-value mapping. */
  datatype Entries<K(==,!new), V> = Entries(keys: seq<K>, table: map<K, V>)

  ghost predicate WellFormed<K(!new), V>(e: Entries<K, V>) {
    Distinct(e.keys) && (forall k :: k in e.table <==> k in e.keys)
  }

  type Dict<K(==,!new), V> = e: Entries<K, V> | WellFormed(e) witness Entries([], map[])

  /** `{}` */
  function Empty<K(==,!new), V>(): (r: Dict<K, V>)
    ensures r.keys == [] && r.table == map[]
  {
    Entries([], map[])
  }

  /** `d[k] = v` */
  function Put<K(==,!new), V>(d: Dict<K, V>, k: K, v: V): (r: Dict<K, V>)
    ensures r.table == d.table[k := v]
    ensures r.keys == if k in d.table then d.keys else d.keys + [k]
  {
    if k in d.table then Entries(d.keys, d.table[k := v])
    else Entries(d.keys + [k], d.table[k := v])
  }

  /** The sequence with `k` taken out and the other elements in their order. */
  function Without<K(==,!new)>(s: seq<K>, k: K): (r: seq<K>)
    ensures forall x :: x in r <==> x in s && x != k
    ensures Distinct(s) ==> Distinct(r)
  {
    if s == [] then []
    else if s[0] == k then Without(s[1..], k)
    else
      var rest := Without(s[1..], k);
      assert Distinct(s) ==> s[0] !in s[1..] && Distinct(s[1..]) by {
        if Distinct(s) {
          forall i | 0 <= i < |s[1..]| ensures s[1..][i] != s[0] { assert s[1..][i] == s[i + 1]; }
        }
      }
      assert forall i :: 0 < i < |[s[0]] + rest| ==> ([s[0]] + rest)[i] == rest[i - 1];
      [s[0]] + rest
  }

  /** `del d[k]` when `k` is a key; `d` itself otherwise (every caller checks first). */
  function Remove<K(==,!new), V>(d: Dict<K, V>, k: K): (r: Dict<K, V>)
    ensures r.table == d.table - {k}
    ensures r.keys == Without(d.keys, k)
  {
    if k in d.table then Entries(Without(d.keys, k), d.table - {k})
    else
      assert Without(d.keys, k) == d.keys by { WithoutAbsent(d.keys, k); }
      d
  }

  lemma {:induction false} WithoutAbsent<K(!new)>(s: seq<K>, k: K)
    requires k !in s
    ensures Without(s, k) == s
  {
    if s != [] {
      WithoutAbsent(s[1..], k);
    }
  }

  /** `list(d.items())` */
  function Items<K(==,!new), V>(d: Dict<K, V>): (r: seq<(K, V)>)
    ensures |r| == |d.keys|
    ensures forall i :: 0 <= i < |r| ==> r[i] == (d.keys[i], d.table[d.keys[i]])
  {
    seq(|d.keys|, i requires 0 <= i < |d.keys| => (d.keys[i], d.table[d.keys[i]]))
  }

  /** The first `n` entries, in order: the dict as it stood after `n` insertions of distinct keys. */
  function Prefix<K(==,!new), V>(d: Dict<K, V>, n: nat): (r: Dict<K, V>)
    requires n <= |d.keys|
    ensures r.keys == d.keys[..n]
    ensures forall k :: k in r.table ==> r.table[k] == d.table[k]
  {
    Entries(d.keys[..n], map k | k in d.keys[..n] :: d.table[k])
  }

  lemma PrefixAll<K(!new), V>(d: Dict<K, V>)
    ensures Prefix(d, |d.keys|) == d
  {
    assert d.keys[..|d.keys|] == d.keys;
  }
}
