/** A plain JavaScript object used as a dictionary (`acc[k] = v`, `Object.keys`, `Object.entries`):
    the keys in insertion order beside the key-to-value map. */
module JsObject {
  import opened Wrappers

  datatype Dict<K(==,!new), V> = Dict(keys: seq<K>, vals: map<K, V>) {
    /** Every key is listed once, and the listed keys are the keys of the map. */
    ghost predicate Valid() {
      (forall i, j :: 0 <= i < j < |keys| ==> keys[i] != keys[j])
      && (forall k :: k in vals <==> k in keys)
    }

    /** `obj[k]`, undefined as None. */
    function Get(k: K): Option<V> {
      if k in vals then Some(vals[k]) else None
    }
  }

  /** Writing a key adds it to the keys present. */
  lemma PutKeys<K(!new), V>(d: Dict<K, V>, k: K, v: V)
    requires d.Valid()
    ensures Put(d, k, v).vals.Keys == d.vals.Keys + {k}
  {
  }

  /** `obj[k] || dflt`. */
  function ValueOr<K(==,!new), V>(d: Dict<K, V>, k: K, dflt: V): V
  {
    if k in d.vals then d.vals[k] else dflt
  }

  function EmptyDict<K(==,!new), V>(): (d: Dict<K, V>)
    ensures d.Valid() && d.keys == [] && d.vals == map[]
  {
    Dict([], map[])
  }

  /** `obj[k] = v`: a new key is appended to the key order, an existing key keeps its place. */
  function Put<K(==,!new), V>(d: Dict<K, V>, k: K, v: V): (r: Dict<K, V>)
    requires d.Valid()
    ensures r.Valid()
    ensures r.vals == d.vals[k := v]
    ensures r.keys == if k in d.vals then d.keys else d.keys + [k]
  {
    if k in d.vals then Dict(d.keys, d.vals[k := v]) else Dict(d.keys + [k], d.vals[k := v])
  }

  /** `Object.entries(obj)`: key-value pairs in key order. */
  function Entries<K(==,!new), V>(d: Dict<K, V>): (r: seq<(K, V)>)
    requires d.Valid()
    ensures |r| == |d.keys|
    ensures forall i :: 0 <= i < |r| ==> r[i].0 == d.keys[i] && r[i].1 == d.vals[d.keys[i]]
  {
    seq(|d.keys|, i requires 0 <= i < |d.keys| => (d.keys[i], d.vals[d.keys[i]]))
  }

  /** The sum of the values of an integer-valued dictionary, in key order. */
  function SumValues<K(==,!new)>(d: Dict<K, int>): int
    requires d.Valid()
  {
    SumOver(d.keys, d.vals)
  }

  function SumOver<K(==,!new)>(ks: seq<K>, m: map<K, int>): int
    requires forall k :: k in ks ==> k in m
  {
    if ks == [] then 0 else SumOver(ks[..|ks| - 1], m) + m[ks[|ks| - 1]]
  }

  /** Changing one listed key's value changes the sum by the difference. */
  lemma {:induction false} SumOverUpdate<K(!new)>(ks: seq<K>, m: map<K, int>, k: K, v: int)
    requires forall k' :: k' in ks ==> k' in m
    requires forall i, j :: 0 <= i < j < |ks| ==> ks[i] != ks[j]
    ensures SumOver(ks, m[k := v]) == SumOver(ks, m) + if k in ks then v - m[k] else 0
  {
    if ks != [] {
      var init := ks[..|ks| - 1];
      SumOverUpdate(init, m, k, v);
      assert k in ks <==> k in init || k == ks[|ks| - 1];
      assert ks[|ks| - 1] !in init;
    }
  }

  /** `obj[k] = (obj[k] || 0) + a` raises the sum of the values by a. */
  lemma SumValuesAdd<K(!new)>(d: Dict<K, int>, k: K, a: int)
    requires d.Valid()
    ensures SumValues(Put(d, k, ValueOr(d, k, 0) + a)) == SumValues(d) + a
  {
    var v := ValueOr(d, k, 0) + a;
    SumOverUpdate(d.keys, d.vals, k, v);
    var r := Put(d, k, v);
    if k !in d.vals {
      assert r.keys[..|r.keys| - 1] == d.keys;
      assert SumValues(r) == SumOver(d.keys, d.vals[k := v]) + v;
    } else {
      assert SumValues(r) == SumOver(d.keys, d.vals[k := v]);
    }
  }
}
