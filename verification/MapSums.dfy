/** Sums of the values of a finite map, independent of any order of its keys. */
module MapSums {

  ghost function AnyKey(m: map<nat, int>): (k: nat)
    requires m != map[]
    ensures k in m
  {
    assert m.Keys == {} ==> m == map[];
    var k :| k in m.Keys;
    k
  }

  ghost function Total(m: map<nat, int>): int
    decreases |m|
  {
    if m == map[] then 0 else m[AnyKey(m)] + Total(m - {AnyKey(m)})
  }

  lemma {:induction false} TotalWithout(m: map<nat, int>, k: nat)
    requires k in m
    ensures Total(m) == m[k] + Total(m - {k})
    decreases |m|
  {
    var j := AnyKey(m);
    if j != k {
      TotalWithout(m - {j}, k);
      TotalWithout(m - {k}, j);
      assert m - {j} - {k} == m - {k} - {j};
    }
  }

  lemma TotalUpdate(m: map<nat, int>, k: nat, v: int)
    ensures Total(m[k := v]) == Total(m) + v - if k in m then m[k] else 0
  {
    TotalWithout(m[k := v], k);
    assert m[k := v] - {k} == m - {k};
    if k in m {
      TotalWithout(m, k);
    } else {
      assert m - {k} == m;
    }
  }

  lemma {:induction false} TotalUniform(m: map<nat, int>, v: int)
    requires forall k | k in m :: m[k] == v
    ensures Total(m) == |m| * v
    decreases |m|
  {
    if m != map[] {
      var k := AnyKey(m);
      TotalUniform(m - {k}, v);
      assert |m| == |m - {k}| + 1;
      assert (|m - {k}| + 1) * v == |m - {k}| * v + v;
    }
  }

  lemma {:induction false} TotalNonNegative(m: map<nat, int>)
    requires forall k | k in m :: 0 <= m[k]
    ensures 0 <= Total(m)
    decreases |m|
  {
    if m != map[] {
      TotalNonNegative(m - {AnyKey(m)});
    }
  }

  /** Distinct keys with values of at least one add up to at least their number. */
  lemma {:induction false} TotalAtLeast(m: map<nat, int>, ks: set<nat>)
    requires forall k | k in m :: 0 <= m[k]
    requires forall k | k in ks :: k in m && 1 <= m[k]
    ensures |ks| <= Total(m)
    decreases |ks|
  {
    if ks == {} {
      TotalNonNegative(m);
    } else {
      var k :| k in ks;
      TotalWithout(m, k);
      TotalAtLeast(m - {k}, ks - {k});
    }
  }
}
