/**
 A bounded forecast over one snapshot: which payloads a fresh start would evict, authors
 first, and what would remain.
 */
module PayloadDryRun {
  import opened Wrappers
  import opened AdmissionCapacity
  import opened PrefixEviction

  datatype Reason = AuthorQuota | GlobalQuota

  datatype Origin = Origin(effective: nat, materialized: Option<nat>)

  /** A row of the event table with what the snapshot reads beside it. */
  datatype Header = Header(
    id: nat,
    event: FullId,
    author: nat,
    bytes: nat,
    stated: bool,
    social: bool,
    origin: Option<Origin>,
    key: int)

  datatype Limits = Limits(events: nat, authors: nat, logicalBytes: nat)

  datatype Policy = Policy(holder: nat, graceSeconds: nat)

  datatype Status = Complete | AccountingNotReady | EventLimit | AuthorLimit | LogicalByteLimit | TimeLimit

  datatype AuthorState = AuthorState(bytes: nat, high: nat, triggered: bool)

  datatype Victim = Victim(candidate: Candidate, reason: Reason)

  datatype Projection = Projection(
    victims: seq<Victim>,
    victimBytes: nat,
    remainingBytes: nat,
    protectedBytes: nat,
    unmetAuthors: nat,
    unmetGlobal: bool)

  // Gathering the snapshot.

  predicate GraceElapsed(policy: Policy, materialized: Option<nat>, now: nat) {
    materialized.Some? && materialized.value <= now && policy.graceSeconds <= now - materialized.value
  }

  /** A retained payload that the policy would allow to be evicted at `now`. */
  predicate Evictable(policy: Policy, now: nat, h: Header) {
    && !h.stated && h.author != policy.holder && h.social && h.bytes != 0
    && h.origin.Some? && h.origin.value.effective <= now && GraceElapsed(policy, h.origin.value.materialized, now)
  }

  function Candidacy(h: Header): Candidate {
    Candidate(h.key, h.event, h.author, h.bytes)
  }

  /** Another author's social post, retained with bytes, effective, and materialized at least the grace period ago. */
  ghost predicate MayEvict(policy: Policy, now: nat, h: Header) {
    && !h.stated && h.social && h.author != policy.holder && 0 < h.bytes
    && match h.origin
       case None => false
       case Some(o) =>
         && o.effective <= now
         && match o.materialized case None => false case Some(t) => t + policy.graceSeconds <= now
  }

  ghost function Entry(h: Header): Candidate {
    Candidate(h.key, h.event, h.author, h.bytes)
  }

  /** The bytes an author's payload counts in the scope of one author, or of all. */
  ghost function Share(scope: Option<nat>, author: nat, bytes: nat): nat {
    if scope.None? || scope.value == author then bytes else 0
  }

  /** Retained bytes of the scope among the given headers. */
  ghost function Retained(hs: seq<Header>, scope: Option<nat>): nat {
    if hs == [] then 0 else
      var h := hs[|hs| - 1];
      Retained(hs[..|hs| - 1], scope) + if h.stated then 0 else Share(scope, h.author, h.bytes)
  }

  ghost function Candidates(policy: Policy, now: nat, hs: seq<Header>): seq<Candidate> {
    if hs == [] then [] else
      var h, front := hs[|hs| - 1], Candidates(policy, now, hs[..|hs| - 1]);
      if MayEvict(policy, now, h) then front + [Entry(h)] else front
  }

  /** Exactly the evictable payloads are candidates, one each. */
  lemma {:induction false} CandidatesExact(policy: Policy, now: nat, hs: seq<Header>, c: Candidate)
    ensures c in Candidates(policy, now, hs) <==> exists h :: h in hs && MayEvict(policy, now, h) && c == Entry(h)
  {
    if hs != [] {
      CandidatesExact(policy, now, hs[..|hs| - 1], c);
      assert hs == hs[..|hs| - 1] + [hs[|hs| - 1]];
    }
  }

  /** Bytes of the candidates of the scope. */
  ghost function CandidateBytes(cs: seq<Candidate>, scope: Option<nat>): nat {
    if cs == [] then 0 else
      var c := cs[|cs| - 1];
      CandidateBytes(cs[..|cs| - 1], scope) + Share(scope, c.author, c.bytes)
  }

  lemma AppendBytes(cs: seq<Candidate>, c: Candidate, scope: Option<nat>)
    ensures CandidateBytes(cs + [c], scope) == CandidateBytes(cs, scope) + Share(scope, c.author, c.bytes)
  {
    assert (cs + [c])[..|cs|] == cs;
  }

  lemma {:induction false} CandidatesRetained(policy: Policy, now: nat, hs: seq<Header>, scope: Option<nat>)
    ensures CandidateBytes(Candidates(policy, now, hs), scope) <= Retained(hs, scope)
  {
    if hs != [] {
      var h, front := hs[|hs| - 1], Candidates(policy, now, hs[..|hs| - 1]);
      CandidatesRetained(policy, now, hs[..|hs| - 1], scope);
      if MayEvict(policy, now, h) {
        AppendBytes(front, Entry(h), scope);
      }
    }
  }

  lemma {:induction false} RetainedMonotone(hs: seq<Header>, i: nat, scope: Option<nat>)
    requires i <= |hs|
    ensures Retained(hs[..i], scope) <= Retained(hs, scope)
    decreases |hs|
  {
    if i < |hs| {
      assert hs[..|hs| - 1][..i] == hs[..i];
      RetainedMonotone(hs[..|hs| - 1], i, scope);
    } else {
      assert hs[..i] == hs;
    }
  }

  /** The authors of retained payloads. */
  ghost function RetainedAuthors(hs: seq<Header>): set<nat> {
    set h | h in hs && !h.stated :: h.author
  }

  ghost predicate AuthorExactAt(config: Config, hs: seq<Header>, authors: map<nat, AuthorState>, a: nat) {
    if a in authors
    then authors[a] == AuthorState(Retained(hs, Some(a)), Ceiling(config, a), false)
    else Retained(hs, Some(a)) == 0
  }

  /** The author table holds exactly the retained bytes of every author seen. */
  ghost predicate AuthorsExact(config: Config, hs: seq<Header>, authors: map<nat, AuthorState>) {
    authors.Keys == RetainedAuthors(hs) && forall a: nat :: AuthorExactAt(config, hs, authors, a)
  }

  function Charged(config: Config, authors: map<nat, AuthorState>, h: Header): map<nat, AuthorState> {
    authors[h.author :=
      if h.author in authors then authors[h.author].(bytes := authors[h.author].bytes + h.bytes)
      else AuthorState(h.bytes, config.AuthorHigh(h.author), false)]
  }

  lemma RetainedAuthorsNext(hs: seq<Header>, h: Header)
    ensures RetainedAuthors(hs + [h]) == if h.stated then RetainedAuthors(hs) else RetainedAuthors(hs) + {h.author}
  {
    forall x ensures x in hs + [h] <==> x in hs || x == h {
    }
  }

  lemma RetainedAppend(hs: seq<Header>, h: Header, scope: Option<nat>)
    ensures Retained(hs + [h], scope) == Retained(hs, scope) + if h.stated then 0 else Share(scope, h.author, h.bytes)
  {
    assert (hs + [h])[..|hs|] == hs;
  }

  lemma ChargedExact(config: Config, hs: seq<Header>, h: Header, authors: map<nat, AuthorState>)
    requires AuthorsExact(config, hs, authors)
    ensures AuthorsExact(config, hs + [h], if h.stated then authors else Charged(config, authors, h))
  {
    RetainedAuthorsNext(hs, h);
    var next := if h.stated then authors else Charged(config, authors, h);
    forall a: nat ensures AuthorExactAt(config, hs + [h], next, a) {
      assert AuthorExactAt(config, hs, authors, a);
      RetainedAppend(hs, h, Some(a));
    }
  }

  /** What has been accumulated from the headers read so far. */
  datatype Reading = Reading(authors: map<nat, AuthorState>, candidates: seq<Candidate>, total: nat)

  datatype Gathering = Stopped(status: Status, visited: nat) | Aborted(error: DbError) | Gathered(reading: Reading)

  datatype ReadStep = Read(reading: Reading) | Stop(status: Status) | Abort(error: DbError)

  /** Account for one header, or find that an allowance is used up or a row is inconsistent. */
  function ReadHeader(config: Config, limits: Limits, policy: Policy, now: nat, r: Reading, h: Header): ReadStep {
    if h.stated then Read(r)
    else if U64_MAX < r.total + h.bytes then Abort(Overflow)
    else if limits.logicalBytes < r.total + h.bytes then Stop(LogicalByteLimit)
    else if h.author !in r.authors && |r.authors| == limits.authors then Stop(AuthorLimit)
    else if Evictable(policy, now, h) && h.event.short != h.id then Abort(AccountingInvariant)
    else Read(Reading(
      Charged(config, r.authors, h),
      if Evictable(policy, now, h) then r.candidates + [Candidacy(h)] else r.candidates,
      r.total + h.bytes))
  }

  /** An evictable payload is filed under the shortened form of its own identifier. */
  ghost predicate Filed(policy: Policy, now: nat, hs: seq<Header>) {
    forall h | h in hs && MayEvict(policy, now, h) :: h.event.short == h.id
  }

  /** What reading the given headers to the end has gathered. */
  ghost predicate Snapshot(config: Config, limits: Limits, policy: Policy, now: nat, hs: seq<Header>, r: Reading) {
    && AuthorsExact(config, hs, r.authors) && |r.authors| <= limits.authors
    && r.candidates == Candidates(policy, now, hs)
    && r.total == Retained(hs, None) <= limits.logicalBytes
    && Filed(policy, now, hs)
  }

  lemma FiledNext(policy: Policy, now: nat, hs: seq<Header>, h: Header)
    requires Filed(policy, now, hs)
    ensures Filed(policy, now, hs + [h]) <==> (MayEvict(policy, now, h) ==> h.event.short == h.id)
  {
    assert h in hs + [h];
  }

  lemma ChargedCount(config: Config, authors: map<nat, AuthorState>, h: Header)
    ensures |Charged(config, authors, h)| == |authors| + if h.author in authors then 0 else 1
  {
    assert Charged(config, authors, h).Keys == authors.Keys + {h.author};
  }

  lemma EvictableMeans(policy: Policy, now: nat, h: Header)
    ensures Evictable(policy, now, h) <==> MayEvict(policy, now, h)
  {
  }

  lemma SnapshotStated(config: Config, limits: Limits, policy: Policy, now: nat, hs: seq<Header>, r: Reading, h: Header)
    requires Snapshot(config, limits, policy, now, hs, r) && h.stated
    ensures Snapshot(config, limits, policy, now, hs + [h], r)
  {
    ChargedExact(config, hs, h, r.authors);
    RetainedAppend(hs, h, None);
    FiledNext(policy, now, hs, h);
    assert (hs + [h])[..|hs|] == hs;
  }

  lemma SnapshotRead(config: Config, limits: Limits, policy: Policy, now: nat, hs: seq<Header>, r: Reading, h: Header)
    requires Snapshot(config, limits, policy, now, hs, r) && !h.stated
    requires r.total + h.bytes <= limits.logicalBytes && (h.author in r.authors || |r.authors| < limits.authors)
    requires MayEvict(policy, now, h) ==> h.event.short == h.id
    ensures Snapshot(config, limits, policy, now, hs + [h], Reading(
      Charged(config, r.authors, h),
      if MayEvict(policy, now, h) then r.candidates + [Entry(h)] else r.candidates,
      r.total + h.bytes))
  {
    ChargedExact(config, hs, h, r.authors);
    ChargedCount(config, r.authors, h);
    RetainedAppend(hs, h, None);
    FiledNext(policy, now, hs, h);
    assert (hs + [h])[..|hs|] == hs;
  }

  /** One more header is part of the snapshot, or the reason to stop is real. */
  lemma ReadHeaderSound(config: Config, limits: Limits, policy: Policy, now: nat, hs: seq<Header>, r: Reading,
                        h: Header)
    requires Snapshot(config, limits, policy, now, hs, r)
    ensures match ReadHeader(config, limits, policy, now, r, h)
      case Read(next) => Snapshot(config, limits, policy, now, hs + [h], next)
      case Stop(status) =>
        || (status.LogicalByteLimit? && limits.logicalBytes < Retained(hs + [h], None))
        || (status.AuthorLimit? && limits.authors < |RetainedAuthors(hs + [h])|)
      case Abort(error) =>
        || (error.Overflow? && U64_MAX < Retained(hs + [h], None))
        || (error.AccountingInvariant? && !Filed(policy, now, hs + [h]))
  {
    EvictableMeans(policy, now, h);
    if h.stated {
      SnapshotStated(config, limits, policy, now, hs, r, h);
    } else {
      RetainedAppend(hs, h, None);
      RetainedAuthorsNext(hs, h);
      FiledNext(policy, now, hs, h);
      if ReadHeader(config, limits, policy, now, r, h).Read? {
        SnapshotRead(config, limits, policy, now, hs, r, h);
      }
    }
  }

  /** Reasons found in a part of the table hold of the whole table. */
  lemma PrefixReasons(policy: Policy, now: nat, hs: seq<Header>, i: nat)
    requires i <= |hs|
    ensures Retained(hs[..i], None) <= Retained(hs, None)
    ensures |RetainedAuthors(hs[..i])| <= |RetainedAuthors(hs)|
    ensures !Filed(policy, now, hs[..i]) ==> !Filed(policy, now, hs)
  {
    RetainedMonotone(hs, i, None);
    var part, whole := RetainedAuthors(hs[..i]), RetainedAuthors(hs);
    assert whole == part + (whole - part);
  }

  lemma EmptySnapshot(config: Config, limits: Limits, policy: Policy, now: nat, hs: seq<Header>)
    requires hs == []
    ensures Snapshot(config, limits, policy, now, hs, Reading(map[], [], 0))
  {
    forall a: nat ensures AuthorExactAt(config, hs, map[], a) {
    }
  }

  /** Why a snapshot is incomplete; `late` says that the deadline passed while it was taken. */
  ghost predicate StopReason(limits: Limits, hs: seq<Header>, late: bool, status: Status) {
    match status
    case TimeLimit => late
    case EventLimit => limits.events < |hs|
    case AuthorLimit => limits.authors < |RetainedAuthors(hs)|
    case LogicalByteLimit => limits.logicalBytes < Retained(hs, None)
    case _ => false
  }

  /** Why a snapshot fails: a total beyond 64 bits, or a header filed under another identifier. */
  ghost predicate AbortReason(policy: Policy, now: nat, hs: seq<Header>, error: DbError) {
    (error.Overflow? && U64_MAX < Retained(hs, None)) || (error.AccountingInvariant? && !Filed(policy, now, hs))
  }

  /** The next header extends the snapshot, or gives a reason that holds of the whole table. */
  lemma ReadNext(config: Config, limits: Limits, policy: Policy, now: nat, hs: seq<Header>, i: nat, r: Reading)
    requires i < |hs| && Snapshot(config, limits, policy, now, hs[..i], r)
    ensures match ReadHeader(config, limits, policy, now, r, hs[i])
      case Read(next) => Snapshot(config, limits, policy, now, hs[..i + 1], next)
      case Stop(status) => StopReason(limits, hs, false, status)
      case Abort(error) => AbortReason(policy, now, hs, error)
  {
    ReadHeaderSound(config, limits, policy, now, hs[..i], r, hs[i]);
    assert hs[..i + 1] == hs[..i] + [hs[i]];
    PrefixReasons(policy, now, hs, i + 1);
  }

  /** Read every header once, in table order, within the explicit allowances; each reason to stop is a real one. */
  method Gather(config: Config, limits: Limits, policy: Policy, now: nat, hs: seq<Header>,
                late: bool) returns (g: Gathering)
    ensures g.Gathered? ==> |hs| <= limits.events && Snapshot(config, limits, policy, now, hs, g.reading)
    ensures g.Stopped? ==> g.visited <= limits.events && StopReason(limits, hs, late, g.status)
    ensures g.Aborted? ==> AbortReason(policy, now, hs, g.error)
  {
    var r, visited: nat := Reading(map[], [], 0), 0;
    EmptySnapshot(config, limits, policy, now, hs[..0]);
    while visited < |hs|
      invariant visited <= |hs| && visited <= limits.events
      invariant Snapshot(config, limits, policy, now, hs[..visited], r)
    {
      var expired := *;
      if late && expired {
        return Stopped(TimeLimit, visited);
      }
      if visited == limits.events {
        return Stopped(EventLimit, visited);
      }
      ReadNext(config, limits, policy, now, hs, visited, r);
      var step := ReadHeader(config, limits, policy, now, r, hs[visited]);
      visited := visited + 1;
      match step {
        case Read(next) => r := next;
        case Stop(status) => return Stopped(status, visited);
        case Abort(error) => return Aborted(error);
      }
    }
    assert hs[..visited] == hs;
    return Gathered(r);
  }

  // Ranking.

  ghost predicate Ranked(cs: seq<Candidate>) {
    forall i, j | 0 <= i < j < |cs| :: cs[i].key <= cs[j].key
  }

  function InsertRanked(cs: seq<Candidate>, c: Candidate): seq<Candidate> {
    if cs == [] || cs[|cs| - 1].key <= c.key then cs + [c]
    else InsertRanked(cs[..|cs| - 1], c) + [cs[|cs| - 1]]
  }

  function Rank(cs: seq<Candidate>): seq<Candidate> {
    if cs == [] then [] else InsertRanked(Rank(cs[..|cs| - 1]), cs[|cs| - 1])
  }

  lemma {:induction false} InsertRankedKeeps(cs: seq<Candidate>, c: Candidate)
    ensures multiset(InsertRanked(cs, c)) == multiset(cs) + multiset{c}
  {
    if cs != [] && c.key < cs[|cs| - 1].key {
      InsertRankedKeeps(cs[..|cs| - 1], c);
      assert cs == cs[..|cs| - 1] + [cs[|cs| - 1]];
    }
  }

  lemma {:induction false} InsertRankedOrders(cs: seq<Candidate>, c: Candidate)
    requires Ranked(cs)
    ensures Ranked(InsertRanked(cs, c))
  {
    if cs != [] && c.key < cs[|cs| - 1].key {
      var front, last := cs[..|cs| - 1], cs[|cs| - 1];
      InsertRankedOrders(front, c);
      InsertRankedKeeps(front, c);
      var inner := InsertRanked(front, c);
      forall i | 0 <= i < |inner| ensures inner[i].key <= last.key {
        assert inner[i] in multiset(inner);
        assert inner[i] in front || inner[i] == c;
      }
    }
  }

  lemma {:induction false} InsertRankedBytes(cs: seq<Candidate>, c: Candidate, scope: Option<nat>)
    ensures CandidateBytes(InsertRanked(cs, c), scope) == CandidateBytes(cs, scope) + Share(scope, c.author, c.bytes)
  {
    if cs == [] || cs[|cs| - 1].key <= c.key {
      AppendBytes(cs, c, scope);
    } else {
      InsertRankedBytes(cs[..|cs| - 1], c, scope);
      AppendBytes(InsertRanked(cs[..|cs| - 1], c), cs[|cs| - 1], scope);
    }
  }

  lemma {:induction false} RankKeeps(cs: seq<Candidate>)
    ensures multiset(Rank(cs)) == multiset(cs)
  {
    if cs != [] {
      var front, last := cs[..|cs| - 1], cs[|cs| - 1];
      RankKeeps(front);
      InsertRankedKeeps(Rank(front), last);
      assert cs == front + [last];
    }
  }

  lemma {:induction false} RankOrders(cs: seq<Candidate>)
    ensures Ranked(Rank(cs))
  {
    if cs != [] {
      RankOrders(cs[..|cs| - 1]);
      InsertRankedOrders(Rank(cs[..|cs| - 1]), cs[|cs| - 1]);
    }
  }

  /** Sorting orders by key and keeps every candidate. */
  lemma RankSorts(cs: seq<Candidate>)
    ensures Ranked(Rank(cs)) && multiset(Rank(cs)) == multiset(cs)
  {
    RankKeeps(cs);
    RankOrders(cs);
  }

  lemma {:induction false} RankBytes(cs: seq<Candidate>, scope: Option<nat>)
    ensures CandidateBytes(Rank(cs), scope) == CandidateBytes(cs, scope)
  {
    if cs != [] {
      RankBytes(cs[..|cs| - 1], scope);
      InsertRankedBytes(Rank(cs[..|cs| - 1]), cs[|cs| - 1], scope);
    }
  }

  // Projection.

  datatype Forecast = Forecast(
    authors: map<nat, AuthorState>,
    removed: seq<bool>,
    remaining: nat,
    victimBytes: nat,
    victims: seq<Victim>)

  /** The marks of one author's candidates. */
  ghost function Only(cs: seq<Candidate>, marks: seq<bool>, a: nat): (r: seq<bool>)
    requires |cs| == |marks|
    ensures |r| == |cs| && forall i | 0 <= i < |cs| :: r[i] == (marks[i] && cs[i].author == a)
  {
    seq(|cs|, i requires 0 <= i < |cs| => marks[i] && cs[i].author == a)
  }

  ghost function Everything(cs: seq<Candidate>, yes: bool): (r: seq<bool>)
    ensures |r| == |cs| && forall i | 0 <= i < |cs| :: r[i] == yes
  {
    seq(|cs|, i => yes)
  }

  ghost function Without(marks: seq<bool>, gone: seq<bool>): (r: seq<bool>)
    requires |marks| == |gone|
    ensures |r| == |marks| && forall i | 0 <= i < |marks| :: r[i] == (marks[i] && !gone[i])
  {
    seq(|marks|, i requires 0 <= i < |marks| => marks[i] && !gone[i])
  }

  ghost predicate FundedAt(cs: seq<Candidate>, s: AuthorState, a: nat) {
    Marked(cs, Only(cs, Everything(cs, true), a), |cs|) <= s.bytes
  }

  /** Every candidate is charged to an author whose recorded bytes cover all of its candidates. */
  ghost predicate Funded(cs: seq<Candidate>, start: map<nat, AuthorState>, total: nat) {
    && (forall i | 0 <= i < |cs| :: cs[i].author in start)
    && (forall a | a in start :: FundedAt(cs, start[a], a))
    && Marked(cs, Everything(cs, true), |cs|) <= total
  }

  ghost predicate BalancedAt(cs: seq<Candidate>, removed: seq<bool>, was: AuthorState, now: AuthorState, a: nat)
    requires |removed| == |cs|
  {
    && now.bytes + Marked(cs, Only(cs, removed, a), |cs|) == was.bytes
    && now.high == was.high && now.triggered == was.triggered
  }

  /** The running totals are the initial ones less the removed candidates. */
  ghost predicate Balanced(cs: seq<Candidate>, start: map<nat, AuthorState>, total: nat, f: Forecast) {
    && |f.removed| == |cs| && f.authors.Keys == start.Keys
    && (forall a | a in start :: BalancedAt(cs, f.removed, start[a], f.authors[a], a))
    && f.remaining + f.victimBytes == total
    && f.victimBytes == Marked(cs, f.removed, |cs|)
  }

  function Remove(cs: seq<Candidate>, f: Forecast, reason: Reason, i: nat): Forecast
    requires i < |cs| == |f.removed| && cs[i].author in f.authors
    requires cs[i].bytes <= f.authors[cs[i].author].bytes && cs[i].bytes <= f.remaining
  {
    var author := f.authors[cs[i].author];
    Forecast(
      f.authors[cs[i].author := author.(bytes := author.bytes - cs[i].bytes)],
      f.removed[i := true],
      f.remaining - cs[i].bytes,
      f.victimBytes + cs[i].bytes,
      f.victims + [Victim(cs[i], reason)])
  }

  lemma OnlySet(cs: seq<Candidate>, marks: seq<bool>, i: nat, a: nat)
    requires i < |cs| == |marks| && !marks[i]
    ensures Only(cs, marks[i := true], a) == if cs[i].author == a then Only(cs, marks, a)[i := true] else Only(cs, marks, a)
  {
  }

  /** A removal never takes more than its author or the database has left. */
  lemma RemoveFunded(cs: seq<Candidate>, start: map<nat, AuthorState>, total: nat, f: Forecast, i: nat)
    requires Funded(cs, start, total) && Balanced(cs, start, total, f) && i < |cs| && !f.removed[i]
    ensures cs[i].bytes <= f.authors[cs[i].author].bytes && cs[i].bytes <= f.remaining
  {
    var a := cs[i].author;
    assert FundedAt(cs, start[a], a) && BalancedAt(cs, f.removed, start[a], f.authors[a], a);
    OnlySet(cs, f.removed, i, a);
    MarkedSet(cs, Only(cs, f.removed, a), i, |cs|);
    MarkedSubset(cs, Only(cs, f.removed[i := true], a), Only(cs, Everything(cs, true), a), |cs|);
    MarkedSet(cs, f.removed, i, |cs|);
    MarkedSubset(cs, f.removed[i := true], Everything(cs, true), |cs|);
  }

  lemma RemoveBalanced(cs: seq<Candidate>, start: map<nat, AuthorState>, total: nat, f: Forecast, reason: Reason,
                       i: nat)
    requires Funded(cs, start, total) && Balanced(cs, start, total, f) && i < |cs| && !f.removed[i]
    requires cs[i].bytes <= f.authors[cs[i].author].bytes && cs[i].bytes <= f.remaining
    ensures Balanced(cs, start, total, Remove(cs, f, reason, i))
  {
    var next := Remove(cs, f, reason, i);
    MarkedSet(cs, f.removed, i, |cs|);
    forall a | a in start
      ensures BalancedAt(cs, next.removed, start[a], next.authors[a], a)
    {
      assert BalancedAt(cs, f.removed, start[a], f.authors[a], a);
      OnlySet(cs, f.removed, i, a);
      if cs[i].author == a {
        MarkedSet(cs, Only(cs, f.removed, a), i, |cs|);
      }
    }
  }

  /** The victims that a set of marks lists, in key order. */
  ghost function Listed(cs: seq<Candidate>, marks: seq<bool>, reason: Reason, i: nat): seq<Victim>
    requires i <= |cs| == |marks|
  {
    if i == 0 then []
    else if marks[i - 1] then Listed(cs, marks, reason, i - 1) + [Victim(cs[i - 1], reason)]
    else Listed(cs, marks, reason, i - 1)
  }

  lemma {:induction false} ListedAgree(cs: seq<Candidate>, marks: seq<bool>, others: seq<bool>, reason: Reason, i: nat)
    requires i <= |cs| == |marks| == |others| && forall j | 0 <= j < i :: marks[j] == others[j]
    ensures Listed(cs, marks, reason, i) == Listed(cs, others, reason, i)
  {
    if i > 0 {
      ListedAgree(cs, marks, others, reason, i - 1);
    }
  }

  /** The candidates an author's own target may take. */
  ghost function AuthorWants(cs: seq<Candidate>, s: AuthorState, a: nat): seq<bool> {
    Only(cs, Everything(cs, s.triggered), a)
  }

  ghost predicate AuthorProgress(cs: seq<Candidate>, s: AuthorState, removed: seq<bool>, a: nat, i: nat)
    requires i <= |cs| == |removed|
  {
    Progress(cs, AuthorWants(cs, s, a), Only(cs, removed, a), s.bytes, LowWater(s.high), i)
  }

  /** Each author's removals so far are a minimal prefix of its candidates before `i`. */
  ghost predicate AuthorsProgress(cs: seq<Candidate>, start: map<nat, AuthorState>, removed: seq<bool>, i: nat)
    requires i <= |cs| == |removed|
  {
    forall a | a in start :: AuthorProgress(cs, start[a], removed, a, i)
  }

  predicate AuthorNeeds(f: Forecast, a: nat)
    requires a in f.authors
  {
    f.authors[a].triggered && LowWater(f.authors[a].high) < f.authors[a].bytes
  }

  lemma AuthorsProgressStep(cs: seq<Candidate>, start: map<nat, AuthorState>, total: nat, f: Forecast, i: nat)
    requires Balanced(cs, start, total, f) && i < |cs| && !f.removed[i]
    requires AuthorsProgress(cs, start, f.removed, i) && cs[i].author in start
    ensures AuthorsProgress(cs, start, if AuthorNeeds(f, cs[i].author) then f.removed[i := true] else f.removed, i + 1)
  {
    var next := if AuthorNeeds(f, cs[i].author) then f.removed[i := true] else f.removed;
    forall a | a in start
      ensures AuthorProgress(cs, start[a], next, a, i + 1)
    {
      assert AuthorProgress(cs, start[a], f.removed, a, i) && BalancedAt(cs, f.removed, start[a], f.authors[a], a);
      OnlySet(cs, f.removed, i, a);
      ProgressStep(cs, AuthorWants(cs, start[a], a), Only(cs, f.removed, a), start[a].bytes, LowWater(start[a].high), i);
    }
  }

  /** The author pass has considered the candidates before `i`. */
  ghost predicate AuthorPassAt(cs: seq<Candidate>, start: map<nat, AuthorState>, total: nat, f: Forecast, i: nat) {
    && Balanced(cs, start, total, f) && i <= |cs|
    && AuthorsProgress(cs, start, f.removed, i)
    && f.victims == Listed(cs, f.removed, AuthorQuota, i)
    && forall j | i <= j < |cs| :: !f.removed[j]
  }

  function FreshForecast(cs: seq<Candidate>, start: map<nat, AuthorState>, total: nat): Forecast {
    Forecast(start, seq(|cs|, i => false), total, 0, [])
  }

  lemma {:induction false} NothingMarked(cs: seq<Candidate>, marks: seq<bool>, i: nat)
    requires i <= |cs| == |marks| && forall j | 0 <= j < i :: !marks[j]
    ensures Marked(cs, marks, i) == 0
  {
    if i > 0 {
      NothingMarked(cs, marks, i - 1);
    }
  }

  lemma AuthorPassStarts(cs: seq<Candidate>, start: map<nat, AuthorState>, total: nat, f: Forecast)
    requires f == FreshForecast(cs, start, total)
    ensures AuthorPassAt(cs, start, total, f, 0)
  {
    NothingMarked(cs, f.removed, |cs|);
    forall a | a in start
      ensures BalancedAt(cs, f.removed, start[a], start[a], a) && AuthorProgress(cs, start[a], f.removed, a, 0)
    {
      NothingMarked(cs, Only(cs, f.removed, a), |cs|);
    }
  }

  lemma AuthorPassTakes(cs: seq<Candidate>, start: map<nat, AuthorState>, total: nat, f: Forecast, i: nat)
    requires Funded(cs, start, total) && i < |cs| && AuthorPassAt(cs, start, total, f, i)
    requires cs[i].author in f.authors && AuthorNeeds(f, cs[i].author)
    ensures cs[i].bytes <= f.authors[cs[i].author].bytes && cs[i].bytes <= f.remaining
    ensures AuthorPassAt(cs, start, total, Remove(cs, f, AuthorQuota, i), i + 1)
  {
    AuthorsProgressStep(cs, start, total, f, i);
    RemoveFunded(cs, start, total, f, i);
    RemoveBalanced(cs, start, total, f, AuthorQuota, i);
    ListedAgree(cs, f.removed, f.removed[i := true], AuthorQuota, i);
  }

  lemma AuthorPassLeaves(cs: seq<Candidate>, start: map<nat, AuthorState>, total: nat, f: Forecast, i: nat)
    requires Funded(cs, start, total) && i < |cs| && AuthorPassAt(cs, start, total, f, i)
    requires cs[i].author in f.authors && !AuthorNeeds(f, cs[i].author)
    ensures AuthorPassAt(cs, start, total, f, i + 1)
  {
    AuthorsProgressStep(cs, start, total, f, i);
  }

  lemma AuthorKnown(cs: seq<Candidate>, start: map<nat, AuthorState>, total: nat, f: Forecast, i: nat)
    requires Funded(cs, start, total) && i < |cs| && AuthorPassAt(cs, start, total, f, i)
    ensures cs[i].author in f.authors
  {
  }

  /** Consider one candidate for its author's target. */
  method AuthorTurn(cs: seq<Candidate>, start: map<nat, AuthorState>, total: nat, f: Forecast,
                    i: nat) returns (n: Forecast)
    requires Funded(cs, start, total) && i < |cs| && AuthorPassAt(cs, start, total, f, i)
    ensures AuthorPassAt(cs, start, total, n, i + 1)
  {
    AuthorKnown(cs, start, total, f, i);
    if AuthorNeeds(f, cs[i].author) {
      AuthorPassTakes(cs, start, total, f, i);
      n := Remove(cs, f, AuthorQuota, i);
    } else {
      AuthorPassLeaves(cs, start, total, f, i);
      n := f;
    }
  }

  /** Every triggered author gives up its lowest keys until its low mark. */
  method AuthorPass(cs: seq<Candidate>, start: map<nat, AuthorState>, total: nat,
                    late: bool) returns (r: Option<Forecast>)
    requires Funded(cs, start, total)
    ensures r.None? ==> late
    ensures r.Some? ==> AuthorPassAt(cs, start, total, r.value, |cs|)
  {
    var f := FreshForecast(cs, start, total);
    AuthorPassStarts(cs, start, total, f);
    for i := 0 to |cs|
      invariant AuthorPassAt(cs, start, total, f, i)
    {
      var expired := *;
      if late && expired {
        return None;
      }
      f := AuthorTurn(cs, start, total, f, i);
    }
    return Some(f);
  }

  /** What the global pass may take: the candidates no author pass removed. */
  ghost function GlobalWants(cs: seq<Candidate>, gone: seq<bool>, triggered: bool): seq<bool>
    requires |gone| == |cs|
  {
    Without(Everything(cs, triggered), gone)
  }

  ghost predicate GlobalProgress(config: Config, cs: seq<Candidate>, before: Forecast, removed: seq<bool>, i: nat)
    requires i <= |cs| == |removed| == |before.removed|
  {
    && (forall j | 0 <= j < |cs| && before.removed[j] :: removed[j])
    && Progress(cs, GlobalWants(cs, before.removed, config.databaseBytes < before.remaining), Without(removed, before.removed),
         before.remaining, LowWater(config.databaseBytes), i)
  }

  predicate GlobalNeeds(config: Config, triggered: bool, f: Forecast) {
    triggered && LowWater(config.databaseBytes) < f.remaining
  }

  lemma GlobalProgressStep(config: Config, cs: seq<Candidate>, start: map<nat, AuthorState>, total: nat,
                           before: Forecast, f: Forecast, i: nat)
    requires Balanced(cs, start, total, before) && Balanced(cs, start, total, f) && i < |cs|
    requires GlobalProgress(config, cs, before, f.removed, i)
    ensures GlobalProgress(config, cs, before,
              if !f.removed[i] && GlobalNeeds(config, config.databaseBytes < before.remaining, f) then f.removed[i := true] else f.removed, i + 1)
  {
    var wants := GlobalWants(cs, before.removed, config.databaseBytes < before.remaining);
    MarkedSplit(cs, f.removed, before.removed, Without(f.removed, before.removed), |cs|);
    ProgressStep(cs, wants, Without(f.removed, before.removed), before.remaining, LowWater(config.databaseBytes), i);
    if !f.removed[i] && GlobalNeeds(config, config.databaseBytes < before.remaining, f) {
      assert Without(f.removed[i := true], before.removed) == Without(f.removed, before.removed)[i := true];
    }
  }

  /** The global pass has considered the candidates before `i`. */
  ghost predicate GlobalPassAt(config: Config, cs: seq<Candidate>, start: map<nat, AuthorState>, total: nat,
                               before: Forecast, f: Forecast, i: nat) {
    && Balanced(cs, start, total, f) && i <= |cs| == |before.removed|
    && GlobalProgress(config, cs, before, f.removed, i)
    && f.victims == before.victims + Listed(cs, Without(f.removed, before.removed), GlobalQuota, i)
    && forall j | i <= j < |cs| :: f.removed[j] == before.removed[j]
  }

  lemma GlobalPassStarts(config: Config, cs: seq<Candidate>, start: map<nat, AuthorState>, total: nat, before: Forecast)
    requires Balanced(cs, start, total, before)
    ensures GlobalPassAt(config, cs, start, total, before, before, 0)
  {
    NothingMarked(cs, Without(before.removed, before.removed), |cs|);
  }

  lemma ListedNext(cs: seq<Candidate>, marks: seq<bool>, gone: seq<bool>, i: nat)
    requires i < |cs| == |marks| == |gone| && !gone[i]
    ensures Listed(cs, Without(marks[i := true], gone), GlobalQuota, i + 1)
         == Listed(cs, Without(marks, gone), GlobalQuota, i) + [Victim(cs[i], GlobalQuota)]
  {
    ListedAgree(cs, Without(marks, gone), Without(marks[i := true], gone), GlobalQuota, i);
  }

  lemma GlobalPassTakes(config: Config, cs: seq<Candidate>, start: map<nat, AuthorState>, total: nat,
                        before: Forecast, f: Forecast, i: nat)
    requires Funded(cs, start, total) && Balanced(cs, start, total, before) && i < |cs|
    requires GlobalPassAt(config, cs, start, total, before, f, i)
    requires !f.removed[i] && GlobalNeeds(config, config.databaseBytes < before.remaining, f)
    ensures cs[i].author in f.authors && cs[i].bytes <= f.authors[cs[i].author].bytes && cs[i].bytes <= f.remaining
    ensures GlobalPassAt(config, cs, start, total, before, Remove(cs, f, GlobalQuota, i), i + 1)
  {
    GlobalProgressStep(config, cs, start, total, before, f, i);
    RemoveFunded(cs, start, total, f, i);
    RemoveBalanced(cs, start, total, f, GlobalQuota, i);
    ListedNext(cs, f.removed, before.removed, i);
  }

  lemma GlobalPassLeaves(config: Config, cs: seq<Candidate>, start: map<nat, AuthorState>, total: nat,
                         before: Forecast, f: Forecast, i: nat)
    requires Balanced(cs, start, total, before) && i < |cs|
    requires GlobalPassAt(config, cs, start, total, before, f, i)
    requires f.removed[i] || !GlobalNeeds(config, config.databaseBytes < before.remaining, f)
    ensures GlobalPassAt(config, cs, start, total, before, f, i + 1)
  {
    GlobalProgressStep(config, cs, start, total, before, f, i);
  }

  /** The whole database gives up its lowest remaining keys until its low mark. */
  method GlobalPass(config: Config, cs: seq<Candidate>, start: map<nat, AuthorState>, total: nat, before: Forecast,
                    late: bool) returns (r: Option<Forecast>)
    requires Funded(cs, start, total) && Balanced(cs, start, total, before)
    ensures r.None? ==> late
    ensures r.Some? ==> GlobalPassAt(config, cs, start, total, before, r.value, |cs|)
  {
    var triggered, f := config.databaseBytes < before.remaining, before;
    GlobalPassStarts(config, cs, start, total, before);
    for i := 0 to |cs|
      invariant GlobalPassAt(config, cs, start, total, before, f, i)
    {
      var expired := *;
      if late && expired {
        return None;
      }
      if !f.removed[i] && GlobalNeeds(config, triggered, f) {
        GlobalPassTakes(config, cs, start, total, before, f, i);
        f := Remove(cs, f, GlobalQuota, i);
      } else {
        GlobalPassLeaves(config, cs, start, total, before, f, i);
      }
    }
    return Some(f);
  }

  // The published projection.

  ghost function ScopeMarks(cs: seq<Candidate>, scope: Option<nat>): seq<bool> {
    if scope.None? then Everything(cs, true) else Only(cs, Everything(cs, true), scope.value)
  }

  lemma {:induction false} MarkedScope(cs: seq<Candidate>, scope: Option<nat>, i: nat)
    requires i <= |cs|
    ensures |ScopeMarks(cs, scope)| == |cs| && Marked(cs, ScopeMarks(cs, scope), i) == CandidateBytes(cs[..i], scope)
  {
    if i > 0 {
      MarkedScope(cs, scope, i - 1);
      assert cs[..i][..i - 1] == cs[..i - 1];
    }
  }

  function Armed(authors: map<nat, AuthorState>): map<nat, AuthorState> {
    map a | a in authors :: authors[a].(triggered := authors[a].high < authors[a].bytes)
  }

  /** Ranked candidates of a scope never outweigh what it retains. */
  lemma RankedWithin(policy: Policy, now: nat, hs: seq<Header>, scope: Option<nat>)
    ensures var cs := Rank(Candidates(policy, now, hs));
      Marked(cs, ScopeMarks(cs, scope), |cs|) <= Retained(hs, scope)
  {
    var cs := Rank(Candidates(policy, now, hs));
    MarkedScope(cs, scope, |cs|);
    assert cs[..|cs|] == cs;
    RankBytes(Candidates(policy, now, hs), scope);
    CandidatesRetained(policy, now, hs, scope);
  }

  lemma RankedAuthors(policy: Policy, now: nat, hs: seq<Header>, i: nat)
    requires i < |Rank(Candidates(policy, now, hs))|
    ensures Rank(Candidates(policy, now, hs))[i].author in RetainedAuthors(hs)
  {
    var cs := Rank(Candidates(policy, now, hs));
    RankSorts(Candidates(policy, now, hs));
    assert cs[i] in multiset(cs);
    CandidatesExact(policy, now, hs, cs[i]);
  }

  /** A gathered snapshot funds every candidate it ranks. */
  lemma SnapshotFunds(config: Config, limits: Limits, policy: Policy, now: nat, hs: seq<Header>, r: Reading)
    requires Snapshot(config, limits, policy, now, hs, r)
    ensures Funded(Rank(r.candidates), Armed(r.authors), r.total)
  {
    var cs := Rank(r.candidates);
    forall i | 0 <= i < |cs| ensures cs[i].author in r.authors {
      RankedAuthors(policy, now, hs, i);
    }
    forall a | a in r.authors ensures FundedAt(cs, Armed(r.authors)[a], a) {
      assert AuthorExactAt(config, hs, r.authors, a);
      RankedWithin(policy, now, hs, Some(a));
    }
    RankedWithin(policy, now, hs, None);
  }

  /** Victims of each author and of the database are the minimal lowest-key prefixes of what each may take. */
  ghost predicate Minimal(config: Config, cs: seq<Candidate>, start: map<nat, AuthorState>, total: nat,
                          byAuthor: seq<bool>, byGlobal: seq<bool>) {
    && |byAuthor| == |byGlobal| == |cs|
    && (forall a | a in start :: AuthorProgress(cs, start[a], byAuthor, a, |cs|))
    && Marked(cs, byAuthor, |cs|) <= total
    && var left := total - Marked(cs, byAuthor, |cs|);
       MinimalPrefix(cs, GlobalWants(cs, byAuthor, config.databaseBytes < left), byGlobal, left, LowWater(config.databaseBytes))
  }

  ghost predicate Unmet(cs: seq<Candidate>, s: AuthorState, removed: seq<bool>, a: nat)
    requires |removed| == |cs|
  {
    s.triggered && LowWater(s.high) + Marked(cs, Only(cs, removed, a), |cs|) < s.bytes
  }

  /** Authors that were over their high mark and stay above their low mark. */
  ghost function UnmetAuthors(cs: seq<Candidate>, start: map<nat, AuthorState>, removed: seq<bool>): set<nat>
    requires |removed| == |cs|
  {
    set a | a in start && Unmet(cs, start[a], removed, a)
  }

  ghost function Either(a: seq<bool>, b: seq<bool>): (r: seq<bool>)
    requires |a| == |b|
    ensures |r| == |a| && forall i | 0 <= i < |a| :: r[i] == (a[i] || b[i])
  {
    seq(|a|, i requires 0 <= i < |a| => a[i] || b[i])
  }

  /** What a complete report states about the ranked candidates. */
  ghost predicate Projected(config: Config, cs: seq<Candidate>, start: map<nat, AuthorState>, total: nat, p: Projection,
                            byAuthor: seq<bool>, byGlobal: seq<bool>)
  {
    && Minimal(config, cs, start, total, byAuthor, byGlobal)
    && p.victims == Listed(cs, byAuthor, AuthorQuota, |cs|) + Listed(cs, byGlobal, GlobalQuota, |cs|)
    && (forall i | 0 <= i < |cs| :: !(byAuthor[i] && byGlobal[i]))
    && p.victimBytes == Marked(cs, Either(byAuthor, byGlobal), |cs|)
    && p.victimBytes + p.remainingBytes == total
    && p.protectedBytes == total - Marked(cs, Everything(cs, true), |cs|)
    && p.protectedBytes <= p.remainingBytes
    && p.unmetAuthors == |UnmetAuthors(cs, start, Either(byAuthor, byGlobal))|
    && (p.unmetGlobal <==>
          config.databaseBytes < total - Marked(cs, byAuthor, |cs|) && LowWater(config.databaseBytes) < p.remainingBytes)
  }

  lemma PassesMinimal(config: Config, cs: seq<Candidate>, start: map<nat, AuthorState>, total: nat, first: Forecast,
                      f: Forecast)
    requires AuthorPassAt(cs, start, total, first, |cs|) && GlobalPassAt(config, cs, start, total, first, f, |cs|)
    ensures Minimal(config, cs, start, total, first.removed, Without(f.removed, first.removed))
  {
    assert first.remaining == total - Marked(cs, first.removed, |cs|);
  }

  lemma PassesUnmet(cs: seq<Candidate>, start: map<nat, AuthorState>, total: nat, f: Forecast)
    requires Balanced(cs, start, total, f)
    ensures UnmetAuthors(cs, start, f.removed) == set a | a in f.authors && AuthorNeeds(f, a)
  {
    forall a | a in start
      ensures AuthorNeeds(f, a) <==> Unmet(cs, start[a], f.removed, a)
    {
      assert BalancedAt(cs, f.removed, start[a], f.authors[a], a);
    }
  }

  function Published(config: Config, total: nat, candidateBytes: nat, first: Forecast, f: Forecast): Projection
    requires candidateBytes <= total
  {
    Projection(f.victims, f.victimBytes, f.remaining, total - candidateBytes, |set a | a in f.authors && AuthorNeeds(f, a)|,
      config.databaseBytes < first.remaining && LowWater(config.databaseBytes) < f.remaining)
  }

  lemma PassesProjected(config: Config, cs: seq<Candidate>, start: map<nat, AuthorState>, total: nat,
                        candidateBytes: nat, first: Forecast, f: Forecast)
    requires AuthorPassAt(cs, start, total, first, |cs|) && GlobalPassAt(config, cs, start, total, first, f, |cs|)
    requires candidateBytes == Marked(cs, Everything(cs, true), |cs|) <= total
    ensures Projected(config, cs, start, total, Published(config, total, candidateBytes, first, f), first.removed, Without(f.removed, first.removed))
  {
    PassesMinimal(config, cs, start, total, first, f);
    PassesUnmet(cs, start, total, f);
    assert Either(first.removed, Without(f.removed, first.removed)) == f.removed;
    MarkedSubset(cs, f.removed, Everything(cs, true), |cs|);
  }

  /** The projection that some choice of victims justifies; `ProjectionDetermined` shows that there is one. */
  ghost predicate IsProjection(config: Config, cs: seq<Candidate>, start: map<nat, AuthorState>, total: nat,
                               p: Projection) {
    exists byAuthor, byGlobal :: Projected(config, cs, start, total, p, byAuthor, byGlobal)
  }

  /** Both passes over the ranked candidates; nothing is published once the deadline has passed. */
  method Project(config: Config, cs: seq<Candidate>, start: map<nat, AuthorState>, total: nat, candidateBytes: nat,
                 late: bool) returns (p: Option<Projection>)
    requires Funded(cs, start, total) && candidateBytes == Marked(cs, Everything(cs, true), |cs|)
    ensures p.None? ==> late
    ensures p.Some? ==> IsProjection(config, cs, start, total, p.value)
  {
    var first := AuthorPass(cs, start, total, late);
    if first.None? {
      return None;
    }
    var second := GlobalPass(config, cs, start, total, first.value, late);
    if second.None? {
      return None;
    }
    PassesProjected(config, cs, start, total, candidateBytes, first.value, second.value);
    return Some(Published(config, total, candidateBytes, first.value, second.value));
  }

  /** An author target is missed only when the author has no eligible payload left. */
  lemma UnmetAuthorStripped(config: Config, cs: seq<Candidate>, start: map<nat, AuthorState>, total: nat, p: Projection,
                            byAuthor: seq<bool>, byGlobal: seq<bool>, a: nat, i: nat)
    requires Projected(config, cs, start, total, p, byAuthor, byGlobal)
    requires a in UnmetAuthors(cs, start, Either(byAuthor, byGlobal)) && i < |cs| && cs[i].author == a
    ensures byAuthor[i]
  {
    MarkedSubset(cs, Only(cs, byAuthor, a), Only(cs, Either(byAuthor, byGlobal), a), |cs|);
    assert AuthorProgress(cs, start[a], byAuthor, a, |cs|) && AuthorWants(cs, start[a], a)[i];
  }

  /** The global target is missed only when no eligible payload is left at all. */
  lemma UnmetGlobalStripped(config: Config, cs: seq<Candidate>, start: map<nat, AuthorState>, total: nat, p: Projection,
                            byAuthor: seq<bool>, byGlobal: seq<bool>, i: nat)
    requires Projected(config, cs, start, total, p, byAuthor, byGlobal) && p.unmetGlobal && i < |cs|
    ensures byAuthor[i] || byGlobal[i]
    ensures p.remainingBytes == p.protectedBytes
  {
    MarkedSplit(cs, Either(byAuthor, byGlobal), byAuthor, byGlobal, |cs|);
    var left := total - Marked(cs, byAuthor, |cs|);
    forall j | 0 <= j < |cs| ensures byAuthor[j] || byGlobal[j] {
      assert GlobalWants(cs, byAuthor, config.databaseBytes < left)[j] == !byAuthor[j];
    }
    MarkedAgree(cs, Either(byAuthor, byGlobal), Everything(cs, true), |cs|);
  }

  /** The report is a function of the snapshot: both sets of victims are determined. */
  lemma ProjectionDetermined(config: Config, cs: seq<Candidate>, start: map<nat, AuthorState>, total: nat,
                             p: Projection, q: Projection,
                             a1: seq<bool>, g1: seq<bool>, a2: seq<bool>, g2: seq<bool>)
    requires Funded(cs, start, total)
    requires Projected(config, cs, start, total, p, a1, g1) && Projected(config, cs, start, total, q, a2, g2)
    ensures a1 == a2 && g1 == g2 && p == q
  {
    forall i | 0 <= i < |cs| ensures a1[i] == a2[i] {
      var a := cs[i].author;
      assert AuthorProgress(cs, start[a], a1, a, |cs|) && AuthorProgress(cs, start[a], a2, a, |cs|);
      MinimalPrefixUnique(cs, AuthorWants(cs, start[a], a), Only(cs, a1, a), Only(cs, a2, a), start[a].bytes, LowWater(start[a].high));
      assert Only(cs, a1, a)[i] == a1[i];
      assert Only(cs, a2, a)[i] == a2[i];
    }
    assert a1 == a2;
    var left := total - Marked(cs, a1, |cs|);
    MinimalPrefixUnique(cs, GlobalWants(cs, a1, config.databaseBytes < left), g1, g2, left, LowWater(config.databaseBytes));
  }

  // Every victim once.

  ghost predicate DistinctIds(hs: seq<Header>) {
    forall i, j | 0 <= i < j < |hs| :: hs[i].id != hs[j].id
  }

  ghost predicate DistinctEvents(cs: seq<Candidate>) {
    forall i, j | 0 <= i < j < |cs| :: cs[i].event != cs[j].event
  }

  lemma {:induction false} CandidatesDistinct(policy: Policy, now: nat, hs: seq<Header>)
    requires DistinctIds(hs) && forall h | h in hs && MayEvict(policy, now, h) :: h.event.short == h.id
    ensures DistinctEvents(Candidates(policy, now, hs))
  {
    if hs != [] {
      var front, h := hs[..|hs| - 1], hs[|hs| - 1];
      CandidatesDistinct(policy, now, front);
      var cs := Candidates(policy, now, front);
      if MayEvict(policy, now, h) {
        forall i | 0 <= i < |cs| ensures cs[i].event != h.event {
          CandidatesExact(policy, now, front, cs[i]);
        }
      }
    }
  }

  lemma {:induction false} ListedWithin(cs: seq<Candidate>, marks: seq<bool>, reason: Reason, i: nat, v: Victim)
    requires i <= |cs| == |marks|
    ensures v in Listed(cs, marks, reason, i) <==> v.reason == reason && exists j :: 0 <= j < i && marks[j] && cs[j] == v.candidate
  {
    if i > 0 {
      ListedWithin(cs, marks, reason, i - 1, v);
    }
  }

  ghost predicate DistinctVictims(vs: seq<Victim>) {
    forall i, j | 0 <= i < j < |vs| :: vs[i].candidate.event != vs[j].candidate.event
  }

  lemma {:induction false} ListedDistinct(cs: seq<Candidate>, marks: seq<bool>, reason: Reason, i: nat)
    requires i <= |cs| == |marks| && DistinctEvents(cs)
    ensures DistinctVictims(Listed(cs, marks, reason, i))
  {
    if i > 0 {
      ListedDistinct(cs, marks, reason, i - 1);
      var vs := Listed(cs, marks, reason, i - 1);
      forall k | 0 <= k < |vs| ensures vs[k].candidate.event != cs[i - 1].event {
        ListedWithin(cs, marks, reason, i - 1, vs[k]);
      }
    }
  }

  lemma ListsDistinct(cs: seq<Candidate>, byAuthor: seq<bool>, byGlobal: seq<bool>)
    requires |byAuthor| == |byGlobal| == |cs| && DistinctEvents(cs) && forall i | 0 <= i < |cs| :: !(byAuthor[i] && byGlobal[i])
    ensures DistinctVictims(Listed(cs, byAuthor, AuthorQuota, |cs|) + Listed(cs, byGlobal, GlobalQuota, |cs|))
  {
    var first, second := Listed(cs, byAuthor, AuthorQuota, |cs|), Listed(cs, byGlobal, GlobalQuota, |cs|);
    ListedDistinct(cs, byAuthor, AuthorQuota, |cs|);
    ListedDistinct(cs, byGlobal, GlobalQuota, |cs|);
    forall i, j | 0 <= i < |first| && 0 <= j < |second|
      ensures first[i].candidate.event != second[j].candidate.event
    {
      ListedWithin(cs, byAuthor, AuthorQuota, |cs|, first[i]);
      ListedWithin(cs, byGlobal, GlobalQuota, |cs|, second[j]);
    }
  }

  /** No payload is projected twice, not even for two reasons. */
  lemma VictimsDistinct(config: Config, cs: seq<Candidate>, start: map<nat, AuthorState>, total: nat, p: Projection)
    requires IsProjection(config, cs, start, total, p) && DistinctEvents(cs)
    ensures DistinctVictims(p.victims)
  {
    var byAuthor, byGlobal :| Projected(config, cs, start, total, p, byAuthor, byGlobal);
    ListsDistinct(cs, byAuthor, byGlobal);
  }

  datatype Report = Incomplete(status: Status) | Failed(error: DbError) | Done(projection: Projection)

  function SumBytes(cs: seq<Candidate>): nat {
    if cs == [] then 0 else SumBytes(cs[..|cs| - 1]) + cs[|cs| - 1].bytes
  }

  lemma {:induction false} SumBytesAll(cs: seq<Candidate>)
    ensures SumBytes(cs) == CandidateBytes(cs, None)
  {
    if cs != [] {
      SumBytesAll(cs[..|cs| - 1]);
    }
  }

  /** Every author starts with its retained bytes, and triggers while they exceed its ceiling. */
  ghost function StartStates(config: Config, hs: seq<Header>): map<nat, AuthorState> {
    map a | a in RetainedAuthors(hs) ::
      AuthorState(Retained(hs, Some(a)), Ceiling(config, a), Ceiling(config, a) < Retained(hs, Some(a)))
  }

  lemma ArmedStates(config: Config, hs: seq<Header>, authors: map<nat, AuthorState>)
    requires AuthorsExact(config, hs, authors)
    ensures Armed(authors) == StartStates(config, hs)
  {
    forall a | a in authors ensures Armed(authors)[a] == StartStates(config, hs)[a] {
      assert AuthorExactAt(config, hs, authors, a);
    }
  }

  /** The projection is the one the snapshot determines. */
  ghost predicate ReportSound(config: Config, policy: Policy, now: nat, hs: seq<Header>, p: Projection) {
    IsProjection(config, Rank(Candidates(policy, now, hs)), StartStates(config, hs), Retained(hs, None), p)
  }

  lemma RankedBytes(candidates: seq<Candidate>)
    ensures SumBytes(Rank(candidates)) == Marked(Rank(candidates), Everything(Rank(candidates), true), |Rank(candidates)|)
  {
    var cs := Rank(candidates);
    SumBytesAll(cs);
    MarkedScope(cs, None, |cs|);
    assert cs[..|cs|] == cs;
  }

  lemma {:induction false} InsertDistinct(cs: seq<Candidate>, c: Candidate)
    requires DistinctEvents(cs) && forall i | 0 <= i < |cs| :: cs[i].event != c.event
    ensures DistinctEvents(InsertRanked(cs, c))
  {
    if cs != [] && c.key < cs[|cs| - 1].key {
      var front, last := cs[..|cs| - 1], cs[|cs| - 1];
      InsertDistinct(front, c);
      InsertRankedKeeps(front, c);
      var inner := InsertRanked(front, c);
      forall i | 0 <= i < |inner| ensures inner[i].event != last.event {
        assert inner[i] in multiset(inner);
        assert inner[i] in front || inner[i] == c;
      }
    }
  }

  lemma {:induction false} RankDistinct(cs: seq<Candidate>)
    requires DistinctEvents(cs)
    ensures DistinctEvents(Rank(cs))
  {
    if cs != [] {
      var front, last := cs[..|cs| - 1], cs[|cs| - 1];
      RankDistinct(front);
      RankSorts(front);
      forall i | 0 <= i < |Rank(front)| ensures Rank(front)[i].event != last.event {
        assert Rank(front)[i] in multiset(Rank(front));
        assert Rank(front)[i] in front;
      }
      InsertDistinct(Rank(front), last);
    }
  }

  /** One read-only snapshot, from the stored total to the projection. */
  method TakeSnapshot(config: Config, limits: Limits, policy: Policy, now: nat, hs: seq<Header>, usage: Option<nat>,
                      late: bool)
    returns (report: Report)
    requires DistinctIds(hs)
    ensures report.Done? ==>
      && usage == Some(Retained(hs, None)) && |hs| <= limits.events
      && ReportSound(config, policy, now, hs, report.projection)
      && DistinctVictims(report.projection.victims)
    ensures report.Incomplete? ==>
      if usage.None? then report.status == Status.AccountingNotReady else StopReason(limits, hs, late, report.status)
    ensures usage.None? ==> report.Incomplete?
    ensures report.Failed? ==>
      AbortReason(policy, now, hs, report.error) || (report.error == AccountingInvariant && usage != Some(Retained(hs, None)))
  {
    if usage.None? {
      return Incomplete(Status.AccountingNotReady);
    }
    var g := Gather(config, limits, policy, now, hs, late);
    match g
    case Stopped(status, _) => return Incomplete(status);
    case Aborted(error) => return Failed(error);
    case Gathered(reading) =>
      var candidates, total := reading.candidates, reading.total;
      if total != usage.value {
        return Failed(AccountingInvariant);
      }
      SnapshotFunds(config, limits, policy, now, hs, reading);
      ArmedStates(config, hs, reading.authors);
      var cs, start := Rank(candidates), Armed(reading.authors);
      RankedBytes(candidates);
      var p := Project(config, cs, start, total, SumBytes(cs), late);
      var expired := *;
      if p.None? || (late && expired) {
        return Incomplete(TimeLimit);
      }
      CandidatesDistinct(policy, now, hs);
      RankDistinct(candidates);
      VictimsDistinct(config, cs, start, total, p.value);
      return Done(p.value);
  }
}
