/** The newest n of a set of ranked rows, and how bounded merging computes it. */
module RankedTop {
  import Sums

  /** Announcement time, event and device; ordered lexicographically and unique per device. */
  datatype Rank = Rank(time: nat, event: nat, device: nat)

  predicate Newer(a: Rank, b: Rank) {
    || b.time < a.time
    || (a.time == b.time && b.event < a.event)
    || (a.time == b.time && a.event == b.event && b.device < a.device)
  }

  /** Announced later; at the same time by a greater event, and for the same event by a greater device. */
  ghost predicate Above(a: Rank, b: Rank) {
    && b.time <= a.time
    && (b.time == a.time ==> b.event <= a.event && (b.event == a.event ==> b.device < a.device))
  }

  ghost predicate Sorted(s: seq<Rank>) {
    forall i, j | 0 <= i < j < |s| :: Above(s[i], s[j])
  }

  ghost function Members(s: seq<Rank>): set<Rank> {
    set x | x in s
  }

  /** `top` lists the newest n of `all`, newest first. */
  ghost predicate IsTop(top: seq<Rank>, all: set<Rank>, n: nat) {
    && Sorted(top)
    && Members(top) <= all
    && |top| == (if |all| < n then |all| else n)
    && forall x, y | x in all && x !in top && y in top :: Above(y, x)
  }

  lemma {:induction false} SortedDistinct(s: seq<Rank>)
    requires Sorted(s)
    ensures |Members(s)| == |s|
  {
    if s != [] {
      var init, last := s[..|s| - 1], s[|s| - 1];
      SortedDistinct(init);
      assert Members(s) == Members(init) + {last};
      assert last !in init;
    }
  }

  lemma Extra<T>(a: set<T>, b: set<T>) returns (x: T)
    requires a <= b && a != b
    ensures x in b && x !in a
  {
    x :| x in b && x !in a;
  }

  lemma SubsetEqual<T>(a: set<T>, b: set<T>)
    requires a <= b && |a| == |b|
    ensures a == b
  {
    assert b == a + (b - a);
    assert |b| == |a| + |b - a|;
    assert b - a == {};
  }

  lemma NewerTotal(a: Rank, b: Rank)
    ensures a == b || Above(a, b) || Above(b, a)
  {
  }

  lemma TopContains(s: seq<Rank>, t: seq<Rank>, all: set<Rank>, n: nat, x: Rank)
    requires IsTop(s, all, n) && IsTop(t, all, n) && x in s
    ensures x in t
  {
    if x !in t {
      SortedDistinct(s);
      SortedDistinct(t);
      forall y | y in t
        ensures y in s
      {
        assert Above(y, x);
      }
      assert x in Members(s) && Members(t) <= Members(s);
      SubsetEqual(Members(t), Members(s));
    }
  }

  lemma {:induction false} SortedSame(s: seq<Rank>, t: seq<Rank>)
    requires Sorted(s) && Sorted(t) && Members(s) == Members(t)
    ensures s == t
  {
    SortedDistinct(s);
    SortedDistinct(t);
    if s != [] {
      assert s[0] in Members(t) && t[0] in Members(s);
      assert s[0] == t[0];
      forall x: Rank
        ensures x in s[1..] <==> x in t[1..]
      {
        assert x in s[1..] <==> x in Members(s) && x != s[0];
        assert x in t[1..] <==> x in Members(t) && x != t[0];
      }
      SortedSame(s[1..], t[1..]);
    }
  }

  /** The specification determines the list. */
  lemma TopUnique(s: seq<Rank>, t: seq<Rank>, all: set<Rank>, n: nat)
    requires IsTop(s, all, n) && IsTop(t, all, n)
    ensures s == t
  {
    forall x: Rank
      ensures x in s <==> x in t
    {
      if x in s {
        TopContains(s, t, all, n, x);
      }
      if x in t {
        TopContains(t, s, all, n, x);
      }
    }
    SortedSame(s, t);
  }

  /** Insertion at the sorted position: a push followed by a sort. */
  function InsertRanked(s: seq<Rank>, x: Rank): seq<Rank> {
    if s == [] || Newer(x, s[0]) then [x] + s
    else [s[0]] + InsertRanked(s[1..], x)
  }

  function Truncate(s: seq<Rank>, n: nat): seq<Rank> {
    if n < |s| then s[..n] else s
  }

  lemma {:induction false} InsertSorted(s: seq<Rank>, x: Rank)
    requires Sorted(s) && x !in s
    ensures Sorted(InsertRanked(s, x))
    ensures Members(InsertRanked(s, x)) == Members(s) + {x}
    ensures |InsertRanked(s, x)| == |s| + 1
  {
    var r := InsertRanked(s, x);
    if s != [] && !Above(x, s[0]) {
      InsertSorted(s[1..], x);
      var rest := InsertRanked(s[1..], x);
      assert Members(s) == {s[0]} + Members(s[1..]);
      assert Members(r) == {s[0]} + Members(rest);
      forall j | 1 <= j < |r|
        ensures Above(r[0], r[j])
      {
        assert r[j] in Members(rest);
      }
    } else {
      forall j | 1 <= j < |r|
        ensures Above(r[0], r[j])
      {
        assert r[j] == s[j - 1];
      }
    }
  }

  lemma DroppedLast(r: seq<Rank>, n: nat, y: Rank, z: Rank)
    requires Sorted(r) && y in r && y !in Truncate(r, n) && z in Truncate(r, n)
    ensures Above(z, y)
  {
    var i :| 0 <= i < |r| && r[i] == y;
    var j :| 0 <= j < |Truncate(r, n)| && Truncate(r, n)[j] == z;
    assert n <= i;
  }

  /** If the new row survives truncation, it is newer than a row that never made it. */
  lemma DroppedOlder(top: seq<Rank>, all: set<Rank>, n: nat, x: Rank, y: Rank, r: seq<Rank>, kept: seq<Rank>)
    requires IsTop(top, all, n) && x !in all && y in all && y !in top
    requires kept == Truncate(r, n) && x in kept
    requires Sorted(r) && Members(r) == Members(top) + {x} && |r| == |top| + 1
    ensures Above(x, y)
  {
    SortedDistinct(top);
    if |top| == |all| {
      SubsetEqual(Members(top), all);
    }
    assert |top| == n;
    var last := r[n];
    assert last in Members(r);
    var j :| 0 <= j < n && r[j] == x;
    assert Above(x, last);
  }

  /** Push, sort, truncate keeps the newest n of one more row. */
  lemma InsertTop(top: seq<Rank>, all: set<Rank>, n: nat, x: Rank)
    requires IsTop(top, all, n) && x !in all
    ensures IsTop(Truncate(InsertRanked(top, x), n), all + {x}, n)
  {
    InsertSorted(top, x);
    var r := InsertRanked(top, x);
    var kept := Truncate(r, n);
    assert |all + {x}| == |all| + 1;
    assert forall z | z in kept :: z in Members(r);
    forall y, z | y in all + {x} && y !in kept && z in kept
      ensures Above(z, y)
    {
      if y in Members(r) {
        DroppedLast(r, n, y, z);
      } else if z == x {
        DroppedOlder(top, all, n, x, y, r, kept);
      } else {
        assert z in Members(top) && y !in top;
      }
    }
  }

  ghost predicate AllNewer(w: set<Rank>, x: Rank) {
    forall z | z in w :: Above(z, x)
  }

  /** At least n rows of `some` are newer than x. */
  ghost predicate Behind(x: Rank, some: set<Rank>, n: nat) {
    exists w: set<Rank> :: w <= some && n <= |w| && AllNewer(w, x)
  }

  lemma BehindTop(top: seq<Rank>, some: set<Rank>, n: nat, w: set<Rank>, x: Rank, y: Rank)
    requires IsTop(top, some, n) && w <= some && n <= |w| && AllNewer(w, x) && y in top && x !in some
    ensures Above(y, x)
  {
    if !Above(y, x) {
      NewerTotal(x, y);
      forall z | z in w
        ensures z in top && z != y
      {
        assert Above(z, x);
      }
      SortedDistinct(top);
      Sums.SubsetCount(w + {y}, Members(top));
    }
  }

  /** Rows behind n newer ones never matter. */
  lemma TopIgnores(top: seq<Rank>, some: set<Rank>, all: set<Rank>, n: nat)
    requires IsTop(top, some, n) && some <= all
    requires forall x | x in all && x !in some :: Behind(x, some, n)
    ensures IsTop(top, all, n)
  {
    SortedDistinct(top);
    Sums.SubsetCount(some, all);
    forall x | x in all && x !in some
      ensures |top| == n
      ensures forall y | y in top :: Above(y, x)
    {
      var w: set<Rank> :| w <= some && n <= |w| && AllNewer(w, x);
      Sums.SubsetCount(w, some);
      forall y | y in top
        ensures Above(y, x)
      {
        BehindTop(top, some, n, w, x, y);
      }
    }
    if all != some {
      var x := Extra(some, all);
      assert |top| == n;
    }
  }

  /** The newest row of a nonempty set. */
  method Newest(s: set<Rank>) returns (m: Rank)
    requires s != {}
    ensures m in s && forall x | x in s && x != m :: Above(m, x)
  {
    m :| m in s;
    var rest := s - {m};
    while rest != {}
      invariant rest <= s && m in s && m !in rest
      invariant forall x | x in s - rest && x != m :: Above(m, x)
      decreases rest
    {
      var x :| x in rest;
      NewerTotal(x, m);
      ghost var best := if Above(x, m) then x else m;
      forall y | y in s - (rest - {x}) && y != best
        ensures Above(best, y)
      {
        assert y == x || y == m || Above(m, y);
      }
      rest := rest - {x};
      if Newer(x, m) {
        m := x;
      }
    }
  }

  /** `range(..).rev().take(n)` over one bucket. */
  method TakeNewest(s: set<Rank>, n: nat) returns (top: seq<Rank>)
    ensures IsTop(top, s, n)
  {
    top := [];
    var rest := s;
    while |top| < n && rest != {}
      invariant Sorted(top) && rest == s - Members(top) && Members(top) <= s
      invariant |top| <= n && |top| + |rest| == |s|
      invariant forall x, y | x in rest && y in top :: Above(y, x)
      decreases rest
    {
      var m := Newest(rest);
      rest := rest - {m};
      top := top + [m];
    }
  }
}
