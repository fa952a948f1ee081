/** Python's `dict`: a finite map that remembers the order in which keys
    were first inserted. Re-assigning an existing key keeps its place. */
module Dicts {

  datatype RawDict<K(!new), V> = RawDict(keys: seq<K>, items: map<K, V>) {
    /** Every key is listed exactly once, and the listed keys are the map's keys. */
    ghost predicate Valid() {
      && (forall i, j :: 0 <= i < j < |keys| ==> keys[i] != keys[j])
      && (forall k :: k in items <==> k in keys)
    }
  }

  type Dict<K(!new), V> = d: RawDict<K, V> | d.Valid() witness RawDict([], map[])

  function Empty<K(!new), V>(): (d: Dict<K, V>)
    ensures d.keys == [] && d.items == map[]
  {
    RawDict([], map[])
  }

  /** `d[k] = v`. */
  function Put<K(!new), V>(d: Dict<K, V>, k: K, v: V): (r: Dict<K, V>)
    ensures r.items == d.items[k := v]
    ensures k in d.items ==> r.keys == d.keys
    ensures k !in d.items ==> r.keys == d.keys + [k]
  {
    if k in d.items then RawDict(d.keys, d.items[k := v])
    else
      var r := RawDict(d.keys + [k], d.items[k := v]);
      assert r.Valid() by {
        forall i, j | 0 <= i < j < |r.keys| ensures r.keys[i] != r.keys[j] {
          if j == |d.keys| {
            assert r.keys[i] == d.keys[i];
            assert r.keys[i] in d.items;
          }
        }
      }
      r
  }

  /** A re-assignment never reorders or drops keys: the old key order is a
      prefix of the new one. */
  lemma PutKeepsOrder<K(!new), V>(d: Dict<K, V>, k: K, v: V)
    ensures d.keys <= Put(d, k, v).keys
    ensures k in Put(d, k, v).keys
  {
  }

  /** The keys of `s` other than `k`, in order. */
  function Without<K(==,!new)>(s: seq<K>, k: K): (r: seq<K>)
    ensures forall x :: x in r <==> x in s && x != k
    ensures Distinct(s) ==> Distinct(r)
    decreases |s|
  {
    if s == [] then []
    else if s[0] == k then Without(s[1..], k)
    else
      var t := Without(s[1..], k);
      DistinctTail(s);
      [s[0]] + t
  }

  /** No element occurs twice. */
  ghost predicate Distinct<K>(s: seq<K>) {
    forall i, j :: 0 <= i < j < |s| ==> s[i] != s[j]
  }

  /** The tail of a run of distinct elements is distinct and lacks the head. */
  lemma DistinctTail<K>(s: seq<K>)
    requires |s| > 0
    ensures Distinct(s) ==> s[0] !in s[1..] && Distinct(s[1..])
  {
    if Distinct(s) {
      forall i, j | 0 <= i < j < |s[1..]| ensures s[1..][i] != s[1..][j] {
        assert s[1..][i] == s[i + 1] && s[1..][j] == s[j + 1];
      }
      forall i | 0 <= i < |s[1..]| ensures s[1..][i] != s[0] {
        assert s[1..][i] == s[i + 1];
      }
    }
  }

  /** `d.pop(k, None)`: the entry for `k` is gone, the others keep their order. */
  function Remove<K(!new), V>(d: Dict<K, V>, k: K): (r: Dict<K, V>)
    ensures r.items == d.items - {k}
    ensures r.keys == Without(d.keys, k)
    ensures k !in d.items ==> r == d
  {
    var r := RawDict(Without(d.keys, k), d.items - {k});
    if k !in d.items then
      assert r.keys == d.keys by { WithoutAbsent(d.keys, k); }
      d
    else r
  }

  lemma {:induction false} WithoutAbsent<K(!new)>(s: seq<K>, k: K)
    requires k !in s
    ensures Without(s, k) == s
    decreases |s|
  {
    if s != [] {
      WithoutAbsent(s[1..], k);
    }
  }
}
