/** Sums over the values of a finite map. */
module MapSums {

  ghost function Total<K>(m: map<K, nat>): nat
    decreases |m|
  {
    if m == map[] then 0
    else
      var k :| k in m;
      assert |m - {k}| < |m| by { Smaller(m, k); }
      m[k] + Total(m - {k})
  }

  lemma Smaller<K, V>(m: map<K, V>, k: K)
    requires k in m
    ensures |m - {k}| == |m| - 1
  {
    assert (m - {k}).Keys == m.Keys - {k};
    assert |m.Keys - {k}| == |m.Keys| - 1;
  }

  /** The order of summation does not matter: any key can be taken out first. */
  lemma {:induction false} TotalWithout<K>(m: map<K, nat>, k: K)
    requires k in m
    ensures Total(m) == m[k] + Total(m - {k})
    decreases |m|
  {
    var c :| c in m && Total(m) == m[c] + Total(m - {c});
    if c != k {
      Smaller(m, c);
      Smaller(m, k);
      TotalWithout(m - {c}, k);
      TotalWithout(m - {k}, c);
      assert m - {c} - {k} == m - {k} - {c};
    }
  }

  lemma {:induction false} TotalMonotone<K>(m: map<K, nat>, n: map<K, nat>)
    requires m.Keys <= n.Keys && forall k | k in m :: m[k] <= n[k]
    ensures Total(m) <= Total(n)
    decreases |n|
  {
    if k :| k in n {
      Smaller(n, k);
      TotalWithout(n, k);
      if k in m {
        TotalWithout(m, k);
        TotalMonotone(m - {k}, n - {k});
      } else {
        assert m - {k} == m;
        TotalMonotone(m, n - {k});
      }
    } else {
      assert m == map[];
    }
  }

  lemma {:induction false} TotalZero<K>(m: map<K, nat>)
    requires forall k | k in m :: m[k] == 0
    ensures Total(m) == 0
    decreases |m|
  {
    if k :| k in m {
      Smaller(m, k);
      TotalWithout(m, k);
      TotalZero(m - {k});
    }
  }

  lemma {:induction false} TotalBound<K>(m: map<K, nat>, cap: nat)
    requires forall k | k in m :: m[k] <= cap
    ensures Total(m) <= |m| * cap
    decreases |m|
  {
    if k :| k in m {
      Smaller(m, k);
      TotalWithout(m, k);
      TotalBound(m - {k}, cap);
      OneMore(|m| - 1, cap);
    }
  }

  lemma OneMore(n: nat, cap: nat)
    ensures (n + 1) * cap == n * cap + cap
  {
  }

  lemma {:induction false} TotalOfOnes<K>(m: map<K, nat>)
    requires forall k | k in m :: m[k] == 1
    ensures Total(m) == |m|
    decreases |m|
  {
    if k :| k in m {
      Smaller(m, k);
      TotalWithout(m, k);
      TotalOfOnes(m - {k});
    }
  }

  // ---- Grouping. Each entry carries its group and its weight. ----

  ghost function InGroup<K, G>(m: map<K, (G, nat)>, g: G): map<K, nat> {
    map k | k in m && m[k].0 == g :: m[k].1
  }

  ghost function Weights<K, G>(m: map<K, (G, nat)>): map<K, nat> {
    map k | k in m :: m[k].1
  }

  ghost function GroupTotals<K, G>(m: map<K, (G, nat)>, groups: set<G>): map<G, nat> {
    map g | g in groups :: Total(InGroup(m, g))
  }

  lemma TotalsDifferAt<G>(a: map<G, nat>, b: map<G, nat>, g: G)
    requires a.Keys == b.Keys && g in a && forall h | h in a && h != g :: a[h] == b[h]
    ensures Total(a) + b[g] == Total(b) + a[g]
  {
    TotalWithout(a, g);
    TotalWithout(b, g);
    assert a - {g} == b - {g};
  }

  /** Taking out one entry changes only its own group's total. */
  lemma GroupsWithout<K, G>(m: map<K, (G, nat)>, k: K, groups: set<G>)
    requires k in m && m[k].0 in groups
    ensures Total(GroupTotals(m, groups)) == m[k].1 + Total(GroupTotals(m - {k}, groups))
  {
    var rest, g0 := m - {k}, m[k].0;
    TotalWithout(InGroup(m, g0), k);
    assert InGroup(m, g0) - {k} == InGroup(rest, g0);
    forall g | g in groups && g != g0 ensures GroupTotals(m, groups)[g] == GroupTotals(rest, groups)[g] {
      assert InGroup(m, g) == InGroup(rest, g);
    }
    TotalsDifferAt(GroupTotals(m, groups), GroupTotals(rest, groups), g0);
  }

  lemma GroupsOfNothing<K, G>(groups: set<G>)
    ensures Total(GroupTotals<K, G>(map[], groups)) == 0
  {
    var none: map<K, (G, nat)> := map[];
    forall g | g in groups ensures GroupTotals(none, groups)[g] == 0 { assert InGroup(none, g) == map[]; }
    TotalZero(GroupTotals(none, groups));
  }

  lemma WeightsWithout<K, G>(m: map<K, (G, nat)>, k: K)
    requires k in m
    ensures Total(Weights(m)) == m[k].1 + Total(Weights(m - {k}))
  {
    TotalWithout(Weights(m), k);
    assert Weights(m) - {k} == Weights(m - {k});
  }

  /** Summing group by group gives the total, whichever groups are listed besides the inhabited ones. */
  lemma {:induction false} GroupsPartitionTheTotal<K, G>(m: map<K, (G, nat)>, groups: set<G>)
    requires forall k | k in m :: m[k].0 in groups
    ensures Total(GroupTotals(m, groups)) == Total(Weights(m))
    decreases |m|
  {
    if m == map[] {
      GroupsOfNothing<K, G>(groups);
      assert Weights(m) == map[];
    } else {
      var k :| k in m;
      Smaller(m, k);
      GroupsWithout(m, k, groups);
      WeightsWithout(m, k);
      GroupsPartitionTheTotal(m - {k}, groups);
    }
  }
}
