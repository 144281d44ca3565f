/** The dimension merger of the post-processor (process.py lines 28-53):
    the coordinates read from several log files are merged key by key into
    sets of the values seen. A dictionary value is either a single
    coordinate or, once merged, a set of coordinates. */
module DimensionMerger {

  /** A dictionary value: a plain value or a Python `set` of values. */
  datatype Entry<V> = One(v: V) | Many(s: set<V>)

  /** Whether the dictionary records the value `x` under `k`, as a plain
      value or as a member of a set. */
  predicate Mentions<K, V(!new)>(d: map<K, Entry<V>>, k: K, x: V)
  {
    k in d && (d[k].One? ==> d[k].v == x) && (d[k].Many? ==> x in d[k].s)
  }

  /** `valueOrEmptySet(k, d)`: the set under `k`, a singleton for a plain
      value, the empty set for a missing key. */
  function ValueOrEmptySet<K, V>(k: K, d: map<K, Entry<V>>): set<V>
  {
    if k in d then
      match d[k]
      case Many(s) => s
      case One(v) => {v}
    else {}
  }

  /** `valueOrEmptySet` holds exactly the values the dictionary records
      under the key. */
  lemma ValueOrEmptySetRecords<K, V(!new)>(k: K, d: map<K, Entry<V>>)
    ensures forall x :: x in ValueOrEmptySet(k, d) <==> Mentions(d, k, x)
  {
  }

  /** The dictionary `mergeDicts` builds. */
  function Merged<K, V(!new)>(d1: map<K, Entry<V>>, d2: map<K, Entry<V>>): (res: map<K, Entry<V>>)
    ensures res.Keys == d1.Keys + d2.Keys
    ensures forall k :: k in res ==> res[k].Many?
  {
    map k | k in d1.Keys + d2.Keys :: Many(ValueOrEmptySet(k, d1) + ValueOrEmptySet(k, d2))
  }

  /** A merged key holds exactly the values either dictionary records
      under it. */
  lemma MergedRecords<K, V(!new)>(d1: map<K, Entry<V>>, d2: map<K, Entry<V>>)
    ensures forall k, x :: k in Merged(d1, d2) ==>
              (x in Merged(d1, d2)[k].s <==> Mentions(d1, k, x) || Mentions(d2, k, x))
  {
    forall k, x | k in Merged(d1, d2)
      ensures x in Merged(d1, d2)[k].s <==> Mentions(d1, k, x) || Mentions(d2, k, x)
    {
      MergedAt(d1, d2, k);
      ValueOrEmptySetRecords(k, d1);
      ValueOrEmptySetRecords(k, d2);
    }
  }

  /** `mergeDicts(d1, d2)`: one entry per key of either dictionary, holding
      the union of the values both record under it. */
  method MergeDicts<K, V(!new)>(d1: map<K, Entry<V>>, d2: map<K, Entry<V>>) returns (res: map<K, Entry<V>>)
    ensures res == Merged(d1, d2)
  {
    res := map[];
    var keys := d1.Keys + d2.Keys;
    while keys != {}
      invariant keys <= d1.Keys + d2.Keys
      invariant res.Keys == (d1.Keys + d2.Keys) - keys
      invariant forall k :: k in res ==> res[k] == Merged(d1, d2)[k]
      decreases keys
    {
      var k :| k in keys;
      res := res[k := Many(ValueOrEmptySet(k, d1) + ValueOrEmptySet(k, d2))];
      keys := keys - {k};
    }
  }

  /** A dictionary whose values are all sets, as `mergeDicts` returns. */
  predicate AllSets<K, V(!new)>(d: map<K, Entry<V>>)
  {
    forall k :: k in d ==> d[k].Many?
  }

  /** The entry of a merged key. */
  lemma MergedAt<K, V(!new)>(d1: map<K, Entry<V>>, d2: map<K, Entry<V>>, k: K)
    requires k in d1 || k in d2
    ensures k in Merged(d1, d2)
    ensures Merged(d1, d2)[k] == Many(ValueOrEmptySet(k, d1) + ValueOrEmptySet(k, d2))
  {
  }

  /** The values a merged dictionary records under a key. */
  lemma ValuesOfMerged<K, V(!new)>(d1: map<K, Entry<V>>, d2: map<K, Entry<V>>, k: K)
    ensures ValueOrEmptySet(k, Merged(d1, d2)) == ValueOrEmptySet(k, d1) + ValueOrEmptySet(k, d2)
  {
    if k in d1 || k in d2 {
      MergedAt(d1, d2, k);
    }
  }

  /** The order of the two dictionaries does not matter. */
  lemma MergedCommutes<K, V(!new)>(d1: map<K, Entry<V>>, d2: map<K, Entry<V>>)
    ensures Merged(d1, d2) == Merged(d2, d1)
  {
    var a, b := Merged(d1, d2), Merged(d2, d1);
    forall k | k in a ensures a[k] == b[k] {
      MergedAt(d1, d2, k);
      MergedAt(d2, d1, k);
    }
    assert a.Keys == b.Keys;
  }

  /** Merging runs one by one gives the same result in any grouping, so
      `reduce(mergeDicts, ...)` does not depend on how the runs are split. */
  lemma MergedAssociates<K, V(!new)>(d1: map<K, Entry<V>>, d2: map<K, Entry<V>>, d3: map<K, Entry<V>>)
    ensures Merged(Merged(d1, d2), d3) == Merged(d1, Merged(d2, d3))
  {
    var a, b := Merged(Merged(d1, d2), d3), Merged(d1, Merged(d2, d3));
    assert a.Keys == b.Keys == d1.Keys + d2.Keys + d3.Keys;
    forall k | k in a ensures a[k] == b[k] {
      AssociatesAt(d1, d2, d3, k);
      assert a[k] == Many(ValueOrEmptySet(k, a));
    }
    SameEntries(a, b);
  }

  lemma SameEntries<K, V>(x: map<K, Entry<V>>, y: map<K, Entry<V>>)
    requires x.Keys == y.Keys
    requires forall k :: k in x ==> x[k] == y[k]
    ensures x == y
  {
  }

  /** Under each key, both groupings record the same values. */
  lemma AssociatesAt<K, V(!new)>(d1: map<K, Entry<V>>, d2: map<K, Entry<V>>, d3: map<K, Entry<V>>, k: K)
    ensures ValueOrEmptySet(k, Merged(Merged(d1, d2), d3)) == ValueOrEmptySet(k, Merged(d1, Merged(d2, d3)))
  {
    var s1, s2, s3 := ValueOrEmptySet(k, d1), ValueOrEmptySet(k, d2), ValueOrEmptySet(k, d3);
    ValuesOfMerged(Merged(d1, d2), d3, k);
    ValuesOfMerged(d1, d2, k);
    ValuesOfMerged(d1, Merged(d2, d3), k);
    ValuesOfMerged(d2, d3, k);
    assert (s1 + s2) + s3 == s1 + (s2 + s3);
  }

  /** A merged dictionary is unchanged by merging it with itself or with an
      empty dictionary. */
  lemma MergedIdempotent<K, V(!new)>(d: map<K, Entry<V>>)
    requires AllSets(d)
    ensures Merged(d, d) == d
    ensures Merged(d, map[]) == d
  {
    var a, b := Merged(d, d), Merged(d, map[]);
    forall k | k in d ensures a[k] == d[k] && b[k] == d[k] {
      MergedAt(d, d, k);
      MergedAt(d, map[], k);
    }
    assert a.Keys == d.Keys && b.Keys == d.Keys;
  }

  /** Merging with an empty dictionary turns every plain value into a
      singleton set. */
  lemma MergedWithEmpty<K, V(!new)>(d: map<K, Entry<V>>)
    ensures Merged(d, map[]).Keys == d.Keys
    ensures forall k :: k in d && d[k].One? ==> Merged(d, map[])[k] == Many({d[k].v})
  {
    forall k | k in d && d[k].One? ensures Merged(d, map[])[k] == Many({d[k].v}) {
      assert Merged(d, map[])[k].s == {d[k].v};
    }
  }
}
