/** Sums over finite maps and sequences, as the agent's accounting loops compute them. */
module Sums {

  ghost function Total<K>(m: map<K, nat>): nat
    decreases |m|
  {
    if m == map[] then 0
    else
      var k :| k in m;
      m[k] + Total(m - {k})
  }

  /** The order of summation does not matter. */
  lemma {:induction false} TotalRemove<K>(m: map<K, nat>, k: K)
    requires k in m
    ensures Total(m) == m[k] + Total(m - {k})
    decreases |m|
  {
    var j :| j in m && Total(m) == m[j] + Total(m - {j});
    if j != k {
      TotalRemove(m - {j}, k);
      TotalRemove(m - {k}, j);
      assert m - {j} - {k} == m - {k} - {j};
    }
  }

  lemma TotalInsert<K>(m: map<K, nat>, k: K, v: nat)
    requires k !in m
    ensures Total(m[k := v]) == Total(m) + v
  {
    TotalRemove(m[k := v], k);
    assert m[k := v] - {k} == m;
  }

  function Restrict<K, V>(m: map<K, V>, s: set<K>): map<K, V> {
    map k | k in m && k in s :: m[k]
  }

  lemma RestrictRemove<K, V>(m: map<K, V>, s: set<K>, k: K)
    requires k in m
    ensures Restrict(m - {k}, s) == Restrict(m, s) - {k}
    ensures (m - {k}) - s == (m - s) - {k}
    ensures k in s ==> (m - s) - {k} == m - s
    ensures k !in s ==> Restrict(m, s) - {k} == Restrict(m, s)
  {
  }

  /** Splitting the keys splits the sum. */
  lemma {:induction false} TotalSplit<K>(m: map<K, nat>, s: set<K>)
    ensures Total(m) == Total(Restrict(m, s)) + Total(m - s)
    decreases |m|
  {
    if m == map[] {
      assert Restrict(m, s) == m && m - s == m;
    } else {
      var k :| k in m;
      TotalRemove(m, k);
      TotalSplit(m - {k}, s);
      RestrictRemove(m, s, k);
      if k in s {
        TotalRemove(Restrict(m, s), k);
      } else {
        TotalRemove(m - s, k);
      }
    }
  }

  lemma TotalPositive<K>(m: map<K, nat>, k: K)
    requires k in m && m[k] > 0
    ensures Total(m) > 0
  {
    TotalRemove(m, k);
  }

  /** The accounting loop: one addition per row, in whatever order the rows come. */
  method SumUp<K(==)>(m: map<K, nat>) returns (total: nat)
    ensures total == Total(m)
  {
    var rest := m;
    total := 0;
    while rest != map[]
      invariant total + Total(rest) == Total(m)
      decreases |rest|
    {
      var k :| k in rest;
      TotalRemove(rest, k);
      total := total + rest[k];
      rest := rest - {k};
    }
  }
}
