/** Sums over the rows of a table and counts of the rows that satisfy a condition. */
module Sums {

  ghost function Sum<K>(m: map<K, int>): int
    decreases |m|
  {
    if m == map[] then 0
    else
      var k :| k in m;
      assert |(m - {k}).Keys| < |m.Keys| by { assert (m - {k}).Keys == m.Keys - {k}; }
      m[k] + Sum(m - {k})
  }

  lemma SubsetCount<T>(a: set<T>, b: set<T>)
    requires a <= b
    ensures |a| <= |b|
  {
    assert b == a + (b - a);
  }

  function Get<K>(m: map<K, int>, k: K): int {
    if k in m then m[k] else 0
  }

  /** Any row can be split off, not only the one the definition happens to choose. */
  lemma {:induction false} SumSplit<K>(m: map<K, int>, k: K)
    requires k in m
    ensures Sum(m) == m[k] + Sum(m - {k})
    decreases |m|
  {
    var c :| c in m && Sum(m) == m[c] + Sum(m - {c});
    if c != k {
      assert (m - {c}).Keys == m.Keys - {c};
      SumSplit(m - {c}, k);
      SumSplit(m - {k}, c);
      assert m - {c} - {k} == m - {k} - {c};
    }
  }

  lemma SumUpdate<K>(m: map<K, int>, k: K, v: int)
    ensures Sum(m[k := v]) == Sum(m) - Get(m, k) + v
  {
    SumSplit(m[k := v], k);
    assert m[k := v] - {k} == m - {k};
    if k in m {
      SumSplit(m, k);
    } else {
      assert m - {k} == m;
    }
  }

  lemma SumRemove<K>(m: map<K, int>, k: K)
    ensures Sum(m - {k}) == Sum(m) - Get(m, k)
  {
    if k in m {
      SumSplit(m, k);
    } else {
      assert m - {k} == m;
    }
  }

  ghost predicate NonNegative<K>(m: map<K, int>) {
    forall k | k in m :: 0 <= m[k]
  }

  lemma {:induction false} SumNonNegative<K>(m: map<K, int>)
    requires NonNegative(m)
    ensures 0 <= Sum(m)
    decreases |m|
  {
    if m != map[] {
      var c :| c in m && Sum(m) == m[c] + Sum(m - {c});
      assert (m - {c}).Keys == m.Keys - {c};
      SumNonNegative(m - {c});
    }
  }

  /** A part of a table of non-negative rows never sums to more than the whole. */
  lemma {:induction false} SumMonotone<K>(part: map<K, int>, whole: map<K, int>)
    requires NonNegative(whole)
    requires forall k | k in part :: k in whole && part[k] <= whole[k]
    ensures Sum(part) <= Sum(whole)
    decreases |part|
  {
    if part == map[] {
      SumNonNegative(whole);
    } else {
      var c :| c in part && Sum(part) == part[c] + Sum(part - {c});
      assert (part - {c}).Keys == part.Keys - {c};
      SumMonotone(part - {c}, whole - {c});
      SumSplit(whole, c);
    }
  }
}
