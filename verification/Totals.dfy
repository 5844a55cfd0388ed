/** Sums of naturals kept under string keys, independent of the order in which
    they are added up. */
module Totals {

  ghost function Total(m: map<string, nat>): nat {
    if m == map[] then 0
    else
      var k :| k in m;
      m[k] + Total(m - {k})
  }

  /** Any key may be counted first. */
  lemma {:induction false} TotalTakes(m: map<string, nat>, k: string)
    requires k in m
    ensures Total(m) == m[k] + Total(m - {k})
  {
    var j :| j in m && Total(m) == m[j] + Total(m - {j});
    if j != k {
      TotalTakes(m - {j}, k);
      TotalTakes(m - {k}, j);
      assert m - {j} - {k} == m - {k} - {j};
    }
  }

  lemma TotalPuts(m: map<string, nat>, k: string, v: nat)
    ensures Total(m[k := v]) == Total(m - {k}) + v
    ensures k !in m ==> Total(m[k := v]) == Total(m) + v
  {
    TotalTakes(m[k := v], k);
    assert m[k := v] - {k} == m - {k};
    assert k !in m ==> m - {k} == m;
  }
}
