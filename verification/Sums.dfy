/** Sums over the values of a dictionary, and over the first numbers. */
module Sums {
  ghost function Sum<K>(m: map<K, nat>): nat {
    if m == map[] then 0
    else
      var k :| k in m;
      m[k] + Sum(m - {k})
  }

  /** The sum does not depend on the order keys are taken in. */
  lemma {:induction false} SumWithout<K>(m: map<K, nat>, k: K)
    requires k in m
    ensures Sum(m) == m[k] + Sum(m - {k})
    decreases |m|
  {
    var j :| j in m && Sum(m) == m[j] + Sum(m - {j});
    if j != k {
      SumWithout(m - {j}, k);
      SumWithout(m - {k}, j);
      assert (m - {j}) - {k} == (m - {k}) - {j};
    }
  }

  lemma SumUpdate<K>(m: map<K, nat>, k: K, n: nat)
    ensures Sum(m[k := n]) == Sum(m - {k}) + n
    ensures k !in m ==> m - {k} == m
  {
    SumWithout(m[k := n], k);
    assert m[k := n] - {k} == m - {k};
  }

  /** `term(0) + ... + term(n - 1)` */
  function SumTo(n: nat, term: nat -> nat): nat {
    if n == 0 then 0 else SumTo(n - 1, term) + term(n - 1)
  }
}
