/** Finite sums over the values of a map, and the few laws about them that the
    settlement, payout and protocol proofs share. */
module Sums {

  /** The sum of all values of `m`. */
  ghost function Total<K(!new)>(m: map<K, int>): int
  {
    if m == map[] then 0
    else
      var k :| k in m;
      m[k] + Total(m - {k})
  }

  /** Any key may be split off first, so the order of summation is irrelevant. */
  lemma {:induction false} TotalSplit<K(!new)>(m: map<K, int>, k: K)
    requires k in m
    ensures Total(m) == m[k] + Total(m - {k})
    decreases |m|
  {
    var first :| first in m && Total(m) == m[first] + Total(m - {first});
    if first != k {
      TotalSplit(m - {first}, k);
      TotalSplit(m - {k}, first);
      assert m - {first} - {k} == m - {k} - {first};
    }
  }

  lemma TotalInsert<K(!new)>(m: map<K, int>, k: K, v: int)
    requires k !in m
    ensures Total(m[k := v]) == Total(m) + v
  {
    TotalSplit(m[k := v], k);
    assert m[k := v] - {k} == m;
  }

  lemma {:induction false} TotalNonNegative<K(!new)>(m: map<K, int>)
    requires forall k :: k in m ==> 0 <= m[k]
    ensures 0 <= Total(m)
    decreases |m|
  {
    if m != map[] {
      var k :| k in m && Total(m) == m[k] + Total(m - {k});
      TotalNonNegative(m - {k});
    }
  }

  /** Pointwise smaller, over a smaller domain, sums to no more. */
  lemma {:induction false} TotalMonotone<K(!new)>(m: map<K, int>, n: map<K, int>)
    requires m.Keys <= n.Keys
    requires forall k :: k in m ==> m[k] <= n[k]
    requires forall k :: k in n ==> 0 <= n[k]
    ensures Total(m) <= Total(n)
    decreases |m|
  {
    if m == map[] {
      TotalNonNegative(n);
    } else {
      var k :| k in m;
      TotalSplit(m, k);
      TotalSplit(n, k);
      TotalMonotone(m - {k}, n - {k});
    }
  }

  /** As above, where `m` may have further keys that add nothing. */
  lemma {:induction false} TotalDominated<K(!new)>(m: map<K, int>, n: map<K, int>)
    requires forall k :: k in m ==> m[k] <= if k in n then n[k] else 0
    requires forall k :: k in n ==> 0 <= n[k]
    ensures Total(m) <= Total(n)
    decreases |m|
  {
    if m == map[] {
      TotalNonNegative(n);
    } else {
      var k :| k in m;
      TotalSplit(m, k);
      if k in n {
        TotalSplit(n, k);
        TotalDominated(m - {k}, n - {k});
      } else {
        TotalDominated(m - {k}, n);
      }
    }
  }

  lemma KeysLessOne<K, V>(m: map<K, V>, k: K)
    requires k in m
    ensures |m| == |m - {k}| + 1
  {
    assert m.Keys == (m - {k}).Keys + {k};
  }

  lemma Distribute(n: nat, v: int)
    ensures (n + 1) * v == n * v + v
  {
  }

  /** If every value is at most `bound`, the sum is at most `|m| * bound`. */
  lemma {:induction false} TotalBounded<K(!new)>(m: map<K, int>, bound: int)
    requires forall k :: k in m ==> m[k] <= bound
    ensures Total(m) <= |m| * bound
    decreases |m|
  {
    if m != map[] {
      var k :| k in m;
      TotalSplit(m, k);
      TotalBounded(m - {k}, bound);
      KeysLessOne(m, k);
      Distribute(|m - {k}|, bound);
    }
  }

  /** A map that is `v` on `hits` and 0 elsewhere sums to `|hits| * v`. */
  lemma {:induction false} TotalTwoValued<K(!new)>(m: map<K, int>, hits: set<K>, v: int)
    requires hits <= m.Keys
    requires forall k :: k in m ==> m[k] == if k in hits then v else 0
    ensures Total(m) == |hits| * v
    decreases |m|
  {
    if m == map[] {
      assert hits == {};
    } else {
      var k :| k in m;
      TotalSplit(m, k);
      var others := hits - {k};
      TotalTwoValued(m - {k}, others, v);
      if k in hits {
        assert hits == others + {k};
        assert |hits| == |others| + 1;
        Distribute(|others|, v);
      } else {
        assert hits == others;
      }
    }
  }

  /** The part of `m` whose keys belong to group `g`. */
  ghost function Part<K(!new), G(!new)>(m: map<K, int>, group: map<K, G>, g: G): map<K, int>
    requires m.Keys <= group.Keys
  {
    map k | k in m && group[k] == g :: m[k]
  }

  /** The group totals. */
  ghost function ByGroup<K(!new), G(!new)>(m: map<K, int>, group: map<K, G>, groups: set<G>): map<G, int>
    requires m.Keys <= group.Keys
  {
    map g | g in groups :: Total(Part(m, group, g))
  }

  /** Grouping loses nothing: the group totals sum to the whole. */
  lemma {:induction false} TotalPartition<K(!new), G(!new)>(m: map<K, int>, group: map<K, G>, groups: set<G>)
    requires m.Keys <= group.Keys
    requires forall k :: k in m ==> group[k] in groups
    ensures Total(ByGroup(m, group, groups)) == Total(m)
    decreases |m|
  {
    if m == map[] {
      forall g | g in groups ensures ByGroup(m, group, groups)[g] == 0 {
        assert Part(m, group, g) == map[];
      }
      TotalTwoValued(ByGroup(m, group, groups), {}, 0);
    } else {
      var k :| k in m;
      TotalPartition(m - {k}, group, groups);
      TotalSplit(m, k);
      ByGroupLessOne(m, group, groups, k);
    }
  }

  lemma ByGroupLessOne<K(!new), G(!new)>(m: map<K, int>, group: map<K, G>, groups: set<G>, k: K)
    requires m.Keys <= group.Keys
    requires k in m && group[k] in groups
    ensures Total(ByGroup(m, group, groups)) == m[k] + Total(ByGroup(m - {k}, group, groups))
  {
    var g := group[k];
    var whole := ByGroup(m, group, groups);
    var less := ByGroup(m - {k}, group, groups);
    forall h | h in groups && h != g ensures whole[h] == less[h] {
      assert Part(m, group, h) == Part(m - {k}, group, h);
    }
    assert whole - {g} == less - {g};
    TotalSplit(whole, g);
    TotalSplit(less, g);
    TotalSplit(Part(m, group, g), k);
    assert Part(m, group, g) - {k} == Part(m - {k}, group, g);
  }

  /** Totals of two maps over the same keys add up key by key. */
  lemma {:induction false} TotalAdd<K(!new)>(m: map<K, int>, n: map<K, int>, sum: map<K, int>)
    requires m.Keys == n.Keys == sum.Keys
    requires forall k :: k in m ==> sum[k] == m[k] + n[k]
    ensures Total(sum) == Total(m) + Total(n)
    decreases |m|
  {
    if m == map[] {
      assert n == map[] && sum == map[];
    } else {
      var k :| k in m;
      TotalSplit(m, k);
      TotalSplit(n, k);
      TotalSplit(sum, k);
      TotalAdd(m - {k}, n - {k}, sum - {k});
    }
  }
}
