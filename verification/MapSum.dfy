/** Sums over the values of a finite map. */
module MapSum {
  ghost function Sum<K(!new)>(m: map<K, int>): int
    decreases |m|
  {
    if m == map[] then 0 else
      var k :| k in m;
      m[k] + Sum(m - {k})
  }

  lemma {:induction false} SumWithout<K(!new)>(m: map<K, int>, k: K)
    requires k in m
    ensures Sum(m) == m[k] + Sum(m - {k})
    decreases |m|
  {
    var p :| p in m && Sum(m) == m[p] + Sum(m - {p});
    if p != k {
      SumWithout(m - {p}, k);
      SumWithout(m - {k}, p);
      assert m - {p} - {k} == m - {k} - {p};
    }
  }

  lemma SumUpdate<K(!new)>(m: map<K, int>, k: K, v: int)
    ensures Sum(m[k := v]) == Sum(m) + v - (if k in m then m[k] else 0)
  {
    SumWithout(m[k := v], k);
    assert m[k := v] - {k} == m - {k};
    if k in m { SumWithout(m, k); } else { assert m - {k} == m; }
  }

  lemma {:induction false} SumNonNegative<K(!new)>(m: map<K, int>)
    requires forall k :: k in m ==> m[k] >= 0
    ensures Sum(m) >= 0
    ensures forall k :: k in m ==> m[k] <= Sum(m)
    decreases |m|
  {
    if m != map[] {
      var p :| p in m && Sum(m) == m[p] + Sum(m - {p});
      var rest := m - {p};
      SumNonNegative(rest);
      assert forall k :: k in m ==> k == p || k in rest;
    }
  }
}
