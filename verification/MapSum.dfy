/** Sums over finite maps. */
module MapSum {

  ghost function Sum<K(!new)>(m: map<K, nat>): nat
    decreases |m|
  {
    if m == map[] then 0 else
    var k :| k in m;
    assert |m - {k}| == |m| - 1 by { Shrinks(m, k); }
    m[k] + Sum(m - {k})
  }

  lemma Shrinks<K, V>(m: map<K, V>, k: K)
    requires k in m
    ensures |m - {k}| == |m| - 1
  {
    assert (m - {k}).Keys == m.Keys - {k};
    assert |m.Keys - {k}| == |m.Keys| - 1;
    assert |m| == |m.Keys| && |m - {k}| == |(m - {k}).Keys|;
  }

  /** The sum splits at any key, whichever key the definition picks first. */
  lemma {:induction false} SumSplit<K(!new)>(m: map<K, nat>, k: K)
    requires k in m
    ensures Sum(m) == m[k] + Sum(m - {k})
    decreases |m|
  {
    var p :| p in m && Sum(m) == m[p] + Sum(m - {p});
    if p != k {
      Shrinks(m, p);
      Shrinks(m, k);
      SumSplit(m - {p}, k);
      SumSplit(m - {k}, p);
      assert m - {p} - {k} == m - {k} - {p};
    }
  }

  function Value<K>(m: map<K, nat>, k: K): nat {
    if k in m then m[k] else 0
  }

  lemma SumUpdate<K(!new)>(m: map<K, nat>, k: K, v: nat)
    ensures Sum(m[k := v]) == Sum(m) - Value(m, k) + v
  {
    SumSplit(m[k := v], k);
    if k in m {
      SumSplit(m, k);
      assert m[k := v] - {k} == m - {k};
    } else {
      assert m[k := v] - {k} == m;
    }
  }

  lemma SumDelete<K(!new)>(m: map<K, nat>, k: K)
    ensures Sum(m - {k}) == Sum(m) - Value(m, k)
  {
    if k in m {
      SumSplit(m, k);
    } else {
      assert m - {k} == m;
    }
  }

  lemma ValueBounded<K(!new)>(m: map<K, nat>, k: K)
    ensures Value(m, k) <= Sum(m)
  {
    if k in m {
      SumSplit(m, k);
    }
  }
}
