/** Sums of a quantity over the entries of a map (token balances, staked amounts), with
    the lemmas needed to follow such a sum through a single-entry update. */
module Sums {

  /** The sum of `f` over the values of `m`. */
  ghost function SumBy<K, V>(m: map<K, V>, f: V -> int): int
    decreases |m|
  {
    if m == map[] then 0
    else
      var k :| k in m.Keys;
      f(m[k]) + SumBy(m - {k}, f)
  }

  /** The sum does not depend on which entry is taken out first. */
  lemma {:induction false} SumByPick<K, V>(m: map<K, V>, f: V -> int, k: K)
    requires k in m
    ensures SumBy(m, f) == f(m[k]) + SumBy(m - {k}, f)
    decreases |m|
  {
    var j :| j in m.Keys && SumBy(m, f) == f(m[j]) + SumBy(m - {j}, f);
    if j != k {
      SumByPick(m - {j}, f, k);
      SumByPick(m - {k}, f, j);
      assert m - {j} - {k} == m - {k} - {j};
    }
  }

  /** Replacing (or adding) the entry at `k` changes the sum by the difference. */
  lemma SumByUpdate<K, V>(m: map<K, V>, f: V -> int, k: K, v: V)
    ensures SumBy(m[k := v], f) == SumBy(m, f) - (if k in m then f(m[k]) else 0) + f(v)
  {
    SumByPick(m[k := v], f, k);
    assert m[k := v] - {k} == m - {k};
    if k in m {
      SumByPick(m, f, k);
    } else {
      assert m - {k} == m;
    }
  }

  /** A sum of non-negative quantities is at least each of them. */
  lemma SumByBound<K, V>(m: map<K, V>, f: V -> int, k: K)
    requires k in m
    requires forall j :: j in m ==> f(m[j]) >= 0
    ensures SumBy(m, f) >= f(m[k])
  {
    SumByPick(m, f, k);
    SumByNonNegative(m - {k}, f);
  }

  lemma {:induction false} SumByNonNegative<K, V>(m: map<K, V>, f: V -> int)
    requires forall j :: j in m ==> f(m[j]) >= 0
    ensures SumBy(m, f) >= 0
    decreases |m|
  {
    if m != map[] {
      var k :| k in m.Keys;
      SumByPick(m, f, k);
      SumByNonNegative(m - {k}, f);
    }
  }
}
