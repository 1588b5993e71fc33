/**
 Evicting from one scope in key order until a target is reached: which prefix is taken, and
 that there is only one way to meet the description.
 */
module PrefixEviction {
  /** A full identifier and the shortened form that keys the event table. */
  datatype FullId = FullId(short: nat, rest: nat)

  /** A header-only eligible payload. */
  datatype Candidate = Candidate(key: int, event: FullId, author: nat, bytes: nat)

  /** The bytes of the marked candidates before position `i`. */
  ghost function Marked(cs: seq<Candidate>, marks: seq<bool>, i: nat): nat
    requires i <= |cs| == |marks|
  {
    if i == 0 then 0 else Marked(cs, marks, i - 1) + if marks[i - 1] then cs[i - 1].bytes else 0
  }

  lemma {:induction false} MarkedAgree(cs: seq<Candidate>, marks: seq<bool>, others: seq<bool>, i: nat)
    requires i <= |cs| == |marks| == |others| && forall j | 0 <= j < i :: marks[j] == others[j]
    ensures Marked(cs, marks, i) == Marked(cs, others, i)
  {
    if i > 0 {
      MarkedAgree(cs, marks, others, i - 1);
    }
  }

  /** Nothing is added where nothing is marked. */
  lemma {:induction false} MarkedStops(cs: seq<Candidate>, marks: seq<bool>, i: nat, n: nat)
    requires i <= n <= |cs| == |marks| && forall j | i <= j < n :: !marks[j]
    ensures Marked(cs, marks, n) == Marked(cs, marks, i)
    decreases n
  {
    if i < n {
      MarkedStops(cs, marks, i, n - 1);
    }
  }

  lemma {:induction false} MarkedSubset(cs: seq<Candidate>, marks: seq<bool>, others: seq<bool>, i: nat)
    requires i <= |cs| == |marks| == |others| && forall j | 0 <= j < i && marks[j] :: others[j]
    ensures Marked(cs, marks, i) <= Marked(cs, others, i)
  {
    if i > 0 {
      MarkedSubset(cs, marks, others, i - 1);
    }
  }

  lemma {:induction false} MarkedSet(cs: seq<Candidate>, marks: seq<bool>, i: nat, n: nat)
    requires i < n <= |cs| == |marks| && !marks[i]
    ensures Marked(cs, marks[i := true], n) == Marked(cs, marks, n) + cs[i].bytes
    decreases n
  {
    if i < n - 1 {
      MarkedSet(cs, marks, i, n - 1);
    } else {
      MarkedAgree(cs, marks, marks[i := true], i);
    }
  }

  /** Two disjoint sets of marks add up. */
  lemma {:induction false} MarkedSplit(cs: seq<Candidate>, whole: seq<bool>, part: seq<bool>, rest: seq<bool>, i: nat)
    requires i <= |cs| == |whole| == |part| == |rest|
    requires forall j | 0 <= j < i :: whole[j] == (part[j] || rest[j]) && !(part[j] && rest[j])
    ensures Marked(cs, whole, i) == Marked(cs, part, i) + Marked(cs, rest, i)
  {
    if i > 0 {
      MarkedSplit(cs, whole, part, rest, i - 1);
    }
  }

  /** The same for the candidates before position `i`, with nothing marked beyond it. */
  ghost predicate Progress(cs: seq<Candidate>, want: seq<bool>, marks: seq<bool>, total: nat, low: nat, i: nat)
    requires i <= |cs| == |want| == |marks|
  {
    && (forall j | 0 <= j < |cs| && marks[j] :: want[j] && j < i)
    && (forall j, k | 0 <= j < k < |cs| && marks[k] && want[j] :: marks[j])
    && (forall j | 0 <= j < |cs| && marks[j] :: low + Marked(cs, marks, j) < total)
    && (forall j | 0 <= j < i && want[j] && !marks[j] :: total <= low + Marked(cs, marks, |cs|))
  }

  /**
   The marks are a lowest-key prefix of the wanted candidates, every marked one was still
   needed when its turn came, and the target is missed only when nothing wanted is left.
   */
  ghost predicate MinimalPrefix(cs: seq<Candidate>, want: seq<bool>, marks: seq<bool>, total: nat, low: nat) {
    |want| == |marks| == |cs| && Progress(cs, want, marks, total, low, |cs|)
  }

  /** One candidate of the scope is considered. */
  lemma ProgressStep(cs: seq<Candidate>, want: seq<bool>, marks: seq<bool>, total: nat, low: nat, i: nat)
    requires i < |cs| == |want| == |marks| && Progress(cs, want, marks, total, low, i)
    ensures low + Marked(cs, marks, |cs|) < total && want[i] ==>
      Progress(cs, want, marks[i := true], total, low, i + 1)
    ensures !(low + Marked(cs, marks, |cs|) < total && want[i]) ==>
      Progress(cs, want, marks, total, low, i + 1)
  {
    if low + Marked(cs, marks, |cs|) < total && want[i] {
      var next := marks[i := true];
      MarkedStops(cs, marks, i, |cs|);
      forall j | 0 <= j < |cs| && next[j] ensures low + Marked(cs, next, j) < total {
        MarkedAgree(cs, marks, next, j);
      }
    }
  }

  ghost function FirstDifference(a: seq<bool>, b: seq<bool>): (j: nat)
    requires |a| == |b| && a != b
    ensures j < |a| && a[j] != b[j] && forall k | 0 <= k < j :: a[k] == b[k]
  {
    if a[0] != b[0] then 0 else
      assert a == [a[0]] + a[1..] && b == [b[0]] + b[1..];
      1 + FirstDifference(a[1..], b[1..])
  }

  lemma NeverLonger(cs: seq<Candidate>, want: seq<bool>, a: seq<bool>, b: seq<bool>, total: nat, low: nat, j: nat)
    requires MinimalPrefix(cs, want, a, total, low) && MinimalPrefix(cs, want, b, total, low)
    requires j < |a| && a[j] && forall k | 0 <= k < j :: a[k] == b[k]
    ensures b[j]
  {
    if !b[j] {
      MarkedStops(cs, b, j, |cs|);
      MarkedAgree(cs, a, b, j);
      assert false;
    }
  }

  /** The description determines the victims. */
  lemma MinimalPrefixUnique(cs: seq<Candidate>, want: seq<bool>, a: seq<bool>, b: seq<bool>, total: nat, low: nat)
    requires MinimalPrefix(cs, want, a, total, low) && MinimalPrefix(cs, want, b, total, low)
    ensures a == b
  {
    if a != b {
      var j := FirstDifference(a, b);
      if a[j] {
        NeverLonger(cs, want, a, b, total, low, j);
      } else {
        NeverLonger(cs, want, b, a, total, low, j);
      }
    }
  }
}
