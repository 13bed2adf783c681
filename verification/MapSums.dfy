/** Sums over the values of a finite map. */
module MapSums {
  ghost function SumBy<K(!new), V>(m: map<K, V>, f: V -> real): real
    decreases |m|
  {
    if m == map[] then 0.0
    else
      var k :| k in m;
      f(m[k]) + SumBy(m - {k}, f)
  }

  /** The sum does not depend on the order in which the keys are visited. */
  lemma {:induction false} SumByAnyKey<K(!new), V>(m: map<K, V>, f: V -> real, k: K)
    requires k in m
    ensures SumBy(m, f) == f(m[k]) + SumBy(m - {k}, f)
    decreases |m|
  {
    var first :| first in m && SumBy(m, f) == f(m[first]) + SumBy(m - {first}, f);
    if first != k {
      SumByAnyKey(m - {first}, f, k);
      SumByAnyKey(m - {k}, f, first);
      assert (m - {first}) - {k} == (m - {k}) - {first};
    }
  }

  /** Writing one key changes the sum by the difference of that key's values. */
  lemma SumByUpdate<K(!new), V>(m: map<K, V>, f: V -> real, k: K, v: V)
    ensures SumBy(m[k := v], f) == SumBy(m, f) - (if k in m then f(m[k]) else 0.0) + f(v)
  {
    SumByAnyKey(m[k := v], f, k);
    assert m[k := v] - {k} == m - {k};
    if k in m {
      SumByAnyKey(m, f, k);
    } else {
      assert m - {k} == m;
    }
  }
}
