/** Sums over the entries of a map, whatever the order they are visited in. */
module MapSums {

  ghost function Sum<K, V>(m: map<K, V>, weight: (K, V) -> real): real
  {
    if m == map[] then 0.0
    else
      var k :| k in m;
      weight(k, m[k]) + Sum(m - {k}, weight)
  }

  lemma SumOfNothing<K, V>(weight: (K, V) -> real)
    ensures Sum(map[], weight) == 0.0
  {
  }

  /** The sum does not depend on which entry is taken out first. */
  lemma {:induction false} SumTakeOut<K, V>(m: map<K, V>, weight: (K, V) -> real, k: K)
    requires k in m
    ensures Sum(m, weight) == weight(k, m[k]) + Sum(m - {k}, weight)
    decreases |m|
  {
    var first :| first in m && Sum(m, weight) == weight(first, m[first]) + Sum(m - {first}, weight);
    if first != k {
      SumTakeOut(m - {first}, weight, k);
      SumTakeOut(m - {k}, weight, first);
      assert m - {first} - {k} == m - {k} - {first};
    }
  }

  /** Replacing the value at a key, present or not. */
  lemma SumUpdate<K, V>(m: map<K, V>, weight: (K, V) -> real, k: K, v: V)
    ensures Sum(m[k := v], weight) ==
            Sum(m, weight) - (if k in m then weight(k, m[k]) else 0.0) + weight(k, v)
  {
    SumTakeOut(m[k := v], weight, k);
    assert m[k := v] - {k} == m - {k};
    if k in m {
      SumTakeOut(m, weight, k);
    } else {
      assert m - {k} == m;
    }
  }
}
