/** Amounts with a token and a cost component, and their sums over finite maps. */
module Amounts {
  import opened Maps

  datatype Amount = Amount(tokens: int, cost: real) {
    function Plus(other: Amount): Amount {
      Amount(tokens + other.tokens, cost + other.cost)
    }

    function Minus(other: Amount): Amount {
      Amount(tokens - other.tokens, cost - other.cost)
    }

    predicate AtMost(limit: Amount) {
      tokens <= limit.tokens && cost <= limit.cost
    }

    predicate Nonnegative() {
      0 <= tokens && 0.0 <= cost
    }
  }

  const ZERO := Amount(0, 0.0)

  /** The sum of all values of a map, in any order. */
  ghost function Total<K(!new)>(m: map<K, Amount>): Amount {
    if m == map[] then ZERO else m[Pick(m)].Plus(Total(m - {Pick(m)}))
  }

  /** Any key can be taken out of the sum first, so the order of summation is immaterial. */
  lemma {:induction false} TotalWithout<K(!new)>(m: map<K, Amount>, k: K)
    requires k in m
    ensures Total(m) == m[k].Plus(Total(m - {k}))
    decreases |m|
  {
    var first := Pick(m);
    if first != k {
      TotalWithout(m - {first}, k);
      TotalWithout(m - {k}, first);
      assert m - {first} - {k} == m - {k} - {first};
    }
  }

  lemma TotalUpdate<K(!new)>(m: map<K, Amount>, k: K, v: Amount)
    ensures Total(m[k := v]) == (if k in m then Total(m).Minus(m[k]) else Total(m)).Plus(v)
  {
    TotalWithout(m[k := v], k);
    assert m[k := v] - {k} == m - {k};
    if k in m {
      TotalWithout(m, k);
    } else {
      assert m - {k} == m;
    }
  }

  lemma TotalIncrease<K(!new)>(m: map<K, Amount>, k: K, v: Amount, m': map<K, Amount>)
    requires k in m && m' == m[k := m[k].Plus(v)]
    ensures Total(m') == Total(m).Plus(v)
  {
    TotalUpdate(m, k, m[k].Plus(v));
  }

  lemma {:induction false} TotalOfZeros<K(!new)>(m: map<K, Amount>)
    requires forall k :: k in m ==> m[k] == ZERO
    ensures Total(m) == ZERO
    decreases |m|
  {
    if m != map[] {
      TotalOfZeros(m - {Pick(m)});
    }
  }

  lemma {:induction false} TotalNonnegative<K(!new)>(m: map<K, Amount>)
    requires forall k :: k in m ==> m[k].Nonnegative()
    ensures Total(m).Nonnegative()
    decreases |m|
  {
    if m != map[] {
      TotalNonnegative(m - {Pick(m)});
    }
  }

  /** The entries of `m` that `group` sends to `g`. */
  ghost function Part<K(!new), G>(m: map<K, Amount>, group: K -> G, g: G): map<K, Amount> {
    map k | k in m && group(k) == g :: m[k]
  }

  ghost function PartTotals<K(!new), G(!new)>(m: map<K, Amount>, group: K -> G, groups: set<G>): map<G, Amount> {
    map g | g in groups :: Total(Part(m, group, g))
  }

  /** Taking key `k` out of the map changes the part of `k`'s own group only. */
  lemma PartWithout<K(!new), G>(m: map<K, Amount>, group: K -> G, k: K, g: G)
    requires k in m
    ensures Part(m - {k}, group, g) == if group(k) == g then Part(m, group, g) - {k} else Part(m, group, g)
  {
  }

  lemma PartTotalsWithout<K(!new), G(!new)>(m: map<K, Amount>, group: K -> G, groups: set<G>, k: K)
    requires k in m && group(k) in groups
    ensures var before := PartTotals(m - {k}, group, groups);
            PartTotals(m, group, groups) == before[group(k) := before[group(k)].Plus(m[k])]
  {
    forall g | g in groups
      ensures Total(Part(m, group, g)) ==
              if g == group(k) then Total(Part(m - {k}, group, g)).Plus(m[k]) else Total(Part(m - {k}, group, g))
    {
      PartWithout(m, group, k, g);
      if g == group(k) {
        TotalWithout(Part(m, group, g), k);
      }
    }
  }

  /** Summing group by group gives the same total as summing everything at once. */
  lemma {:induction false} TotalByGroups<K(!new), G(!new)>(m: map<K, Amount>, group: K -> G, groups: set<G>)
    requires forall k :: k in m ==> group(k) in groups
    ensures Total(PartTotals(m, group, groups)) == Total(m)
    decreases |m|
  {
    if m == map[] {
      forall g | g in groups ensures PartTotals(m, group, groups)[g] == ZERO {
        assert Part(m, group, g) == map[];
      }
      TotalOfZeros(PartTotals(m, group, groups));
    } else {
      var k := Pick(m);
      TotalByGroups(m - {k}, group, groups);
      PartTotalsWithout(m, group, groups, k);
      TotalIncrease(PartTotals(m - {k}, group, groups), group(k), m[k], PartTotals(m, group, groups));
    }
  }
}
