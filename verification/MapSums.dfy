/** Sums over the values of a map, independent of iteration order. */
module MapSums {

  ghost function Sum<K>(m: map<K, nat>): nat
    decreases |m|
  {
    if m.Keys == {} then 0
    else
      var k := Pick(m);
      m[k] + Sum(m - {k})
  }

  ghost function Pick<K>(m: map<K, nat>): (k: K)
    requires m.Keys != {}
    ensures k in m && |m - {k}| < |m|
  {
    var k :| k in m.Keys;
    assert (m - {k}).Keys == m.Keys - {k};
    assert |m| == |m.Keys| && |m - {k}| == |(m - {k}).Keys|;
    k
  }

  lemma {:induction false} SumRemove<K>(m: map<K, nat>, k: K)
    requires k in m
    ensures Sum(m) == m[k] + Sum(m - {k})
    decreases |m|
  {
    var p := Pick(m);
    if p != k {
      SumRemove(m - {p}, k);
      var q := m - {k};
      Shrinks(m, k);
      SumRemove(q, p);
      RemoveEither(m, p, k);
    }
  }

  lemma RemoveEither<K>(m: map<K, nat>, p: K, k: K)
    ensures m - {p} - {k} == m - {k} - {p}
  {
  }

  lemma Shrinks<K>(m: map<K, nat>, k: K)
    requires k in m
    ensures |m - {k}| < |m|
  {
    assert (m - {k}).Keys == m.Keys - {k};
    assert |m| == |m.Keys| && |m - {k}| == |(m - {k}).Keys|;
  }

  /** Storing a value replaces what the key contributed. */
  lemma SumStore<K>(m: map<K, nat>, k: K, v: nat)
    ensures Sum(m[k := v]) == v + Sum(m - {k})
    ensures k !in m ==> m - {k} == m
  {
    hide Sum;
    SumRemove(m[k := v], k);
    StoreThenRemove(m, k, v);
  }

  lemma StoreThenRemove<K>(m: map<K, nat>, k: K, v: nat)
    ensures m[k := v] - {k} == m - {k}
    ensures k !in m ==> m - {k} == m
  {
  }

  /** Adds the values up in any order. */
  method Total<K(==)>(m: map<K, nat>) returns (total: nat)
    ensures total == Sum(m)
  {
    total := 0;
    var rest := m;
    while rest.Keys != {}
      invariant total + Sum(rest) == Sum(m)
      decreases |rest|
    {
      var k :| k in rest.Keys;
      SumRemove(rest, k);
      Shrinks(rest, k);
      total := total + rest[k];
      rest := rest - {k};
    }
  }
}
