/** A JavaScript `Map`: a finite map that also remembers the order in which
    its keys were first inserted. `set` on a present key keeps its position,
    `set` on an absent key appends it, and `delete` removes it. */
module OrderedMap {
  import opened JsTypes

  datatype OMap<K(==,!new), V> = OMap(order: seq<K>, entries: map<K, V>)

  /** No key occurs twice in `s`. */
  ghost predicate Distinct<K>(s: seq<K>) {
    forall i, j | 0 <= i < j < |s| :: s[i] != s[j]
  }

  /** Representation invariant: `order` lists every key exactly once. */
  ghost predicate Valid<K(!new), V>(om: OMap<K, V>) {
    && Distinct(om.order)
    && (forall k :: k in om.entries <==> k in om.order)
  }

  /** `new Map()` */
  function Empty<K(==,!new), V>(): (r: OMap<K, V>)
    ensures Valid(r)
    ensures |r.entries| == 0 && |r.order| == 0
  {
    OMap([], map[])
  }

  /** `m.get(k)`: the value stored under `k`, or None. */
  function Get<K(==,!new), V>(om: OMap<K, V>, k: K): Option<V> {
    if k in om.entries then Some(om.entries[k]) else None
  }

  /** `m.size` */
  function Size<K(==,!new), V>(om: OMap<K, V>): nat {
    |om.entries|
  }

  /** `m.set(k, v)`: afterwards `k` maps to `v`, every other key is untouched,
      and the insertion order changes only by appending a new key. */
  function Set<K(==,!new), V>(om: OMap<K, V>, k: K, v: V): (r: OMap<K, V>)
    requires Valid(om)
    ensures Valid(r)
    ensures Get(r, k) == Some(v)
    ensures forall j :: j != k ==> Get(r, j) == Get(om, j)
    ensures k in om.entries ==> r.order == om.order
    ensures k !in om.entries ==> r.order == om.order + [k]
    ensures Size(r) == if k in om.entries then Size(om) else Size(om) + 1
  {
    var order := if k in om.entries then om.order else om.order + [k];
    assert Distinct(order);
    OMap(order, om.entries[k := v])
  }

  /** `s` with every occurrence of `k` dropped, the rest in order. */
  function Without<K(==,!new)>(s: seq<K>, k: K): (r: seq<K>)
    ensures forall x :: x in r <==> x in s && x != k
    ensures Distinct(s) ==> Distinct(r)
    ensures k !in s ==> r == s
  {
    if |s| == 0 then []
    else if s[0] == k then Without(s[1..], k)
    else
      var rest := Without(s[1..], k);
      assert Distinct(s) ==> Distinct([s[0]] + rest) by {
        if Distinct(s) {
          DistinctCons(s[0], rest);
        }
      }
      [s[0]] + rest
  }

  /** Prefixing a fresh element keeps a sequence duplicate-free. */
  lemma DistinctCons<K>(x: K, s: seq<K>)
    requires x !in s && Distinct(s)
    ensures Distinct([x] + s)
  {
    var t := [x] + s;
    forall i, j | 0 <= i < j < |t|
      ensures t[i] != t[j]
    {
      if i > 0 {
        assert t[i] == s[i - 1] && t[j] == s[j - 1];
      } else {
        assert t[j] == s[j - 1];
      }
    }
  }

  /** `m.delete(k)`: afterwards `k` is absent, every other key is untouched
      and keeps its relative order; deleting an absent key changes nothing. */
  function Remove<K(==,!new), V>(om: OMap<K, V>, k: K): (r: OMap<K, V>)
    requires Valid(om)
    ensures Valid(r)
    ensures Get(r, k) == None
    ensures forall j :: j != k ==> Get(r, j) == Get(om, j)
    ensures r.order == Without(om.order, k)
    ensures k !in om.entries ==> r == om
    ensures Size(r) == if k in om.entries then Size(om) - 1 else Size(om)
  {
    assert (om.entries - {k}).Keys == om.entries.Keys - {k};
    OMap(Without(om.order, k), om.entries - {k})
  }

  /** The values stored under `keys`, in that order. */
  function ValuesOf<K(==,!new), V>(keys: seq<K>, entries: map<K, V>): (r: seq<V>)
    requires forall k :: k in keys ==> k in entries
    ensures |r| == |keys|
    ensures forall i :: 0 <= i < |keys| ==> r[i] == entries[keys[i]]
  {
    if |keys| == 0 then [] else [entries[keys[0]]] + ValuesOf(keys[1..], entries)
  }

  /** `Array.from(m.values())`: one value per key, in insertion order. */
  function Values<K(==,!new), V>(om: OMap<K, V>): (r: seq<V>)
    requires Valid(om)
    ensures |r| == |om.entries| == |om.order|
    ensures forall i :: 0 <= i < |om.order| ==> om.order[i] in om.entries && r[i] == om.entries[om.order[i]]
    ensures forall k :: k in om.entries ==> om.entries[k] in r
  {
    SizeIsOrderLength(om);
    var r := ValuesOf(om.order, om.entries);
    assert forall k :: k in om.entries ==> om.entries[k] in r by {
      forall k | k in om.entries
        ensures om.entries[k] in r
      {
        var i :| 0 <= i < |om.order| && om.order[i] == k;
        assert r[i] == om.entries[k];
      }
    }
    r
  }

  /** A duplicate-free sequence has as many distinct elements as positions. */
  lemma {:induction false} DistinctCardinality<K>(s: seq<K>)
    requires Distinct(s)
    ensures |(set x | x in s)| == |s|
  {
    if |s| > 0 {
      assert Distinct(s[1..]);
      DistinctCardinality(s[1..]);
      assert (set x | x in s) == {s[0]} + (set x | x in s[1..]);
    }
  }

  /** The number of entries equals the length of the insertion order. */
  lemma SizeIsOrderLength<K(!new), V>(om: OMap<K, V>)
    requires Valid(om)
    ensures |om.entries| == |om.order|
  {
    assert om.entries.Keys == (set x | x in om.order);
    DistinctCardinality(om.order);
  }
}
