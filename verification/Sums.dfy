/** Sums over finite maps and sequences, used for token totals and list lengths. */
module Sums {

  /** The sum of all values of a finite map. */
  ghost function Sum<K(!new)>(m: map<K, int>): int {
    if m == map[] then 0
    else
      var k :| k in m;
      m[k] + Sum(m - {k})
  }

  lemma {:induction false} SumRemove<K(!new)>(m: map<K, int>, k: K)
    requires k in m
    ensures Sum(m) == m[k] + Sum(m - {k})
    decreases |m|
  {
    var j :| j in m && Sum(m) == m[j] + Sum(m - {j});
    if j != k {
      SumRemove(m - {j}, k);
      SumRemove(m - {k}, j);
      assert m - {j} - {k} == m - {k} - {j};
    }
  }

  /** Changing one entry changes the sum by the change of that entry. */
  lemma SumUpdate<K(!new)>(m: map<K, int>, k: K, v: int)
    ensures Sum(m[k := v]) == Sum(m) + v - (if k in m then m[k] else 0)
  {
    var n := m[k := v];
    SumRemove(n, k);
    assert n - {k} == m - {k};
    if k in m {
      SumRemove(m, k);
    } else {
      assert m - {k} == m;
    }
  }

  /** Sums of pointwise related maps: if c = a + b at every key then Sum(c) = Sum(a) + Sum(b). */
  lemma {:induction false} SumPointwise<K(!new)>(a: map<K, int>, b: map<K, int>, c: map<K, int>)
    requires a.Keys == b.Keys == c.Keys
    requires forall k :: k in c ==> c[k] == a[k] + b[k]
    ensures Sum(c) == Sum(a) + Sum(b)
    decreases |c|
  {
    if c != map[] {
      var k :| k in c;
      SumRemove(a, k);
      SumRemove(b, k);
      SumRemove(c, k);
      SumPointwise(a - {k}, b - {k}, c - {k});
    } else {
      assert a == map[] && b == map[];
    }
  }

  lemma {:induction false} SumZero<K(!new)>(m: map<K, int>)
    requires forall k :: k in m ==> m[k] == 0
    ensures Sum(m) == 0
    decreases |m|
  {
    if m != map[] {
      var k :| k in m;
      SumRemove(m, k);
      SumZero(m - {k});
    }
  }

  /** A map with a single non-zero entry sums to that entry. */
  lemma SumSingle<K(!new)>(m: map<K, int>, k: K)
    requires k in m
    requires forall j :: j in m && j != k ==> m[j] == 0
    ensures Sum(m) == m[k]
  {
    SumRemove(m, k);
    SumZero(m - {k});
  }

  lemma {:induction false} SumNotNegative<K(!new)>(m: map<K, int>)
    requires forall k :: k in m ==> m[k] >= 0
    ensures Sum(m) >= 0
    decreases |m|
  {
    if m != map[] {
      var k :| k in m;
      SumRemove(m, k);
      SumNotNegative(m - {k});
    }
  }

  /** Entry by entry, `after` is `before` with a and b added and `less` taken away. */
  ghost predicate Changes<K(!new)>(before: map<K, int>, a: map<K, int>, b: map<K, int>, less: map<K, int>, after: map<K, int>) {
    && a.Keys == before.Keys && b.Keys == before.Keys && less.Keys == before.Keys && after.Keys == before.Keys
    && forall k :: k in before ==> after[k] == before[k] + a[k] + b[k] - less[k]
  }

  lemma ChangeOne<K(!new)>(before: map<K, int>, a: map<K, int>, b: map<K, int>, less: map<K, int>, after: map<K, int>, k: K)
    requires Changes(before, a, b, less, after) && k in before
    ensures Changes(before - {k}, a - {k}, b - {k}, less - {k}, after - {k})
    ensures k in a && k in b && k in less && k in after && after[k] == before[k] + a[k] + b[k] - less[k]
  {
  }

  /** Sums follow what is added and taken away. */
  lemma {:induction false} SumChanges<K(!new)>(before: map<K, int>, a: map<K, int>, b: map<K, int>, less: map<K, int>,
                                               after: map<K, int>)
    requires Changes(before, a, b, less, after)
    ensures Sum(after) == Sum(before) + Sum(a) + Sum(b) - Sum(less)
    decreases |before|
  {
    if before == map[] {
      assert a == map[] && b == map[] && less == map[] && after == map[];
    } else {
      hide Sum, Changes;
      var k :| k in before;
      ChangeOne(before, a, b, less, after, k);
      SumChanges(before - {k}, a - {k}, b - {k}, less - {k}, after - {k});
      SumRemove(before, k);
      SumRemove(a, k);
      SumRemove(b, k);
      SumRemove(less, k);
      SumRemove(after, k);
    }
  }
}
