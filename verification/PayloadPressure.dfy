/**
 General pressure: hysteresis between a high and a low water mark, every author before the
 whole database, one visited row or one prune per step.
 */
module PayloadPressure {
  import opened Wrappers
  import opened OrderedKeys
  import opened AdmissionCapacity
  import opened RetentionScan

  type Scope = Option<RetentionScan.Author>

  /** Durable singleton of one runtime incarnation. */
  datatype PressureRecord = PressureRecord(epoch: nat, global: bool)

  datatype AuthorPressure = AuthorPressure(epoch: nat, active: bool, scan: Option<Scan>)

  datatype PressureCursor = PressureCursor(
    after: Option<RetentionScan.Author>,
    selected: Option<RetentionScan.Author>,
    authorsDone: bool,
    revision: Option<nat>,
    indexRevision: Option<nat>,
    retryAt: Option<Timestamp>,
    observed: Option<Timestamp>,
    globalScan: Option<Scan>)

  const START := PressureCursor(None, None, false, None, None, None, None, None)

  datatype PressureStep = Continue | Wait | NotReady | Failed | Pruned(scope: Scope, victim: Key)

  /** Whether a visited scope moved its frontier, cannot go on, or has a victim. */
  datatype Selection = Advanced | Blocked | Prune(key: Key)

  /** One evaluation of a scope's pressure, with the revisions, the allowance and the deadline it ran under. */
  datatype Visit = Visit(scope: Scope, epoch: nat, total: nat, revision: nat, indexRevision: nat, allowance: nat, late: bool)

  /** Logical totals, retained plus reserved, and the authors the accounting table lists. */
  datatype Totals = Totals(accounted: set<RetentionScan.Author>, authors: map<RetentionScan.Author, nat>, database: nat) {
    function Of(scope: Scope): nat {
      if scope.None? then database else if scope.value in authors then authors[scope.value] else 0
    }
  }

  function High(config: Config, scope: Scope): nat {
    if scope.None? then config.databaseBytes else config.AuthorHigh(scope.value)
  }

  // Marks and totals in terms of the configuration and the tables alone.

  /** The high mark: the ceiling of the whole database, or of one author. */
  ghost function Mark(config: Config, scope: Scope): nat {
    match scope case None => config.databaseBytes case Some(a) => Ceiling(config, a)
  }

  /** Logical bytes of the scope. */
  ghost function BytesIn(totals: Totals, scope: Scope): nat {
    match scope
    case None => totals.database
    case Some(a) => if a in totals.authors then totals.authors[a] else 0
  }

  /** Above the high mark, or already triggered and still above the low mark. */
  predicate Triggered(config: Config, scope: Scope, was: bool, total: nat) {
    High(config, scope) < total || (was && LowWater(High(config, scope)) < total)
  }

  /** Seen above the high mark at visit `i` of this epoch, and at every later visit of it above the low mark. */
  ghost predicate LatchedAt(config: Config, trace: seq<Visit>, scope: Scope, epoch: nat, i: nat) {
    && i < |trace| && trace[i].scope == scope && trace[i].epoch == epoch && Mark(config, scope) < trace[i].total
    && forall j | i < j < |trace| && trace[j].scope == scope && trace[j].epoch == epoch ::
         LowWater(Mark(config, scope)) < trace[j].total
  }

  /** In this epoch the scope was seen above its high mark, and at every later visit above its low mark. */
  ghost predicate Latched(config: Config, trace: seq<Visit>, scope: Scope, epoch: nat) {
    exists i: nat :: LatchedAt(config, trace, scope, epoch, i)
  }

  lemma LatchedPrefix(config: Config, trace: seq<Visit>, v: Visit, scope: Scope, epoch: nat, i: nat)
    requires LatchedAt(config, trace + [v], scope, epoch, i) && i < |trace|
    ensures LatchedAt(config, trace, scope, epoch, i)
  {
    var next := trace + [v];
    assert forall j | 0 <= j < |trace| :: next[j] == trace[j];
  }

  /** A visit leaves its scope latched exactly when it triggers. */
  lemma VisitLatches(config: Config, trace: seq<Visit>, v: Visit)
    ensures Latched(config, trace + [v], v.scope, v.epoch) <==>
      Mark(config, v.scope) < v.total
      || (Latched(config, trace, v.scope, v.epoch) && LowWater(Mark(config, v.scope)) < v.total)
  {
    var next := trace + [v];
    if Latched(config, next, v.scope, v.epoch) {
      var i: nat :| LatchedAt(config, next, v.scope, v.epoch, i);
      assert next[|trace|] == v;
      if i < |trace| {
        LatchedPrefix(config, trace, v, v.scope, v.epoch, i);
      }
    }
    if Mark(config, v.scope) < v.total {
      assert LatchedAt(config, next, v.scope, v.epoch, |trace|);
    } else if Latched(config, trace, v.scope, v.epoch) && LowWater(Mark(config, v.scope)) < v.total {
      var i: nat :| LatchedAt(config, trace, v.scope, v.epoch, i);
      assert LatchedAt(config, next, v.scope, v.epoch, i);
    }
  }

  /** A visit to another scope changes no latch. */
  lemma OtherVisitKeeps(config: Config, trace: seq<Visit>, v: Visit, scope: Scope, epoch: nat)
    requires v.scope != scope || v.epoch != epoch
    ensures Latched(config, trace + [v], scope, epoch) <==> Latched(config, trace, scope, epoch)
  {
    var next := trace + [v];
    if Latched(config, next, scope, epoch) {
      var i: nat :| LatchedAt(config, next, scope, epoch, i);
      LatchedPrefix(config, trace, v, scope, epoch, i);
    }
    if Latched(config, trace, scope, epoch) {
      var i: nat :| LatchedAt(config, trace, scope, epoch, i);
      assert LatchedAt(config, next, scope, epoch, i);
    }
  }

  /** The most recent visit to a scope. */
  ghost function LastVisit(trace: seq<Visit>, scope: Scope): Option<Visit> {
    if trace == [] then None
    else if trace[|trace| - 1].scope == scope then Some(trace[|trace| - 1])
    else LastVisit(trace[..|trace| - 1], scope)
  }

  lemma LastVisitNext(trace: seq<Visit>, v: Visit, scope: Scope)
    ensures LastVisit(trace + [v], scope) == if v.scope == scope then Some(v) else LastVisit(trace, scope)
  {
    assert (trace + [v])[..|trace|] == trace;
  }

  /** The victim is the smallest-key eligible row of the scope, and fits the allowance. */
  ghost predicate Chosen(index: Index, scope: Scope, now: Timestamp, maxBytes: nat, victim: Key) {
    && victim in index.rows && index.rows[victim].bytes <= maxBytes
    && Evictable(index.rows[victim], scope, now) && IsMinimum(index, scope, now, victim)
  }

  /** The scope is above its low mark now, and has been since it was above its high mark in this epoch. */
  ghost predicate Pressed(config: Config, totals: Totals, trace: seq<Visit>, scope: Scope, epoch: nat) {
    LowWater(Mark(config, scope)) < BytesIn(totals, scope) && Latched(config, trace, scope, epoch)
  }

  /** The scope has no eligible row, or its minimum is larger than the allowance. */
  ghost predicate Unserved(index: Index, scope: Scope, now: Timestamp, allowance: nat) {
    (forall k: Key :: !EligibleKey(index, scope, now, k)) || OversizedMinimum(index, scope, now, allowance)
  }

  /** The frontier moved past exactly one row, which is not current. */
  ghost predicate Skips(index: Index, from: Scan, to: Scan) {
    && to.after.Some? && IsNextRow(index, from.author, from.after, to.after)
    && !Evictable(index.rows[to.after.value], from.author, from.observed)
  }

  /** A frontier that cannot go on: the deadline, no row left, or an oversized row. */
  predicate BlockedBy(scan: Scan, allowance: nat, late: bool) {
    late || scan.exhausted || (scan.blockedBytes.Some? && allowance < scan.blockedBytes.value)
  }

  lemma BlockedUnserved(scan: Scan, index: Index, allowance: nat)
    requires Sound(scan, index, None) && scan.revision == index.revision && SelectionReady(index, scan.observed)
    requires BlockedBy(scan, allowance, false)
    ensures Unserved(index, scan.author, scan.observed, allowance)
  {
    if scan.exhausted {
      forall k: Key ensures !EligibleKey(index, scan.author, scan.observed, k) {
        if EligibleKey(index, scan.author, scan.observed, k) {
          FrontierExhausted(scan, index, None, k);
        }
      }
    } else {
      var k := FrontierBlocked(scan, index, None);
    }
  }

  /** Decide about the first row after a prepared frontier. */
  method SelectNext(index: Index, scan0: Scan, maxBytes: nat) returns (scan: Scan, selection: Selection)
    requires Sound(scan0, index, None) && scan0.revision == index.revision && SelectionReady(index, scan0.observed)
    requires !BlockedBy(scan0, maxBytes, false)
    ensures Sound(scan, index, None) && scan.revision == index.revision && scan.author == scan0.author && scan.observed == scan0.observed
    ensures selection.Prune? ==> Chosen(index, scan0.author, scan0.observed, maxBytes, selection.key)
    ensures selection.Blocked? ==> BlockedBy(scan, maxBytes, false)
    ensures selection.Advanced? ==> Skips(index, scan0, scan)
  {
    scan := scan0;
    var next := NextRow(index, scan.author, scan.after);
    if next.None? {
      ExhaustSound(scan, index, None, next);
      scan := scan.(exhausted := true);
      return scan, Blocked;
    }
    var k := next.value;
    var row := index.rows[k];
    if !Current(row, scan.observed) {
      BlockedCurrent(scan, index, None, k);
      SkipSound(scan, index, None, k);
      scan := SkipRow(scan, k, row);
      return scan, Advanced;
    }
    if maxBytes < row.bytes {
      BlockSound(scan, index, None, k);
      scan := scan.(blockedBytes := Some(row.bytes));
      return scan, Blocked;
    }
    FrontierMinimum(scan, index, None, k);
    return scan, Prune(k);
  }

  /**
   Visit one candidate; an eligible oversized minimum is never bypassed. `late` says that the
   deadline has passed when the candidate would be read.
   */
  method Select(index: Index, scope: Scope, scan0: Option<Scan>, now: Timestamp, maxBytes: nat, late: bool)
    returns (scan: Scan, selection: Selection)
    requires SelectionReady(index, now)
    requires scan0.Some? ==> Sound(scan0.value, index, None)
    ensures Sound(scan, index, None) && scan.revision == index.revision && scan.author == scope && scan.observed == now
    ensures selection.Prune? ==> !late && Chosen(index, scope, now, maxBytes, selection.key)
    ensures selection.Blocked? ==> BlockedBy(scan, maxBytes, late) && (late || Unserved(index, scope, now, maxBytes))
    ensures selection.Advanced? ==> Skips(index, StartOf(index, scope, scan0, now), scan)
  {
    NewSound(index, scope, now, None);
    PrepareSound(if scan0.Some? then scan0.value else New(index.revision, scope, now), index, scope, now, None);
    scan := Resumed(index, scope, scan0, now);
    if BlockedBy(scan, maxBytes, late) {
      selection := Blocked;
    } else {
      scan, selection := SelectNext(index, scan, maxBytes);
    }
    if selection.Blocked? && !late {
      BlockedUnserved(scan, index, maxBytes);
    }
  }

  // The author pass.

  /** What a pass relies on: the index and the totals at their revisions, and the worker's epoch. */
  datatype Ground = Ground(config: Config, index: Index, totals: Totals, revision: nat, epoch: nat)

  /** The scope needs no eviction. */
  ghost predicate Relaxed(g: Ground, trace: seq<Visit>, scope: Scope) {
    && BytesIn(g.totals, scope) <= Mark(g.config, scope)
    && (Latched(g.config, trace, scope, g.epoch) ==> BytesIn(g.totals, scope) <= LowWater(Mark(g.config, scope)))
  }

  /** The last visit to the author was at these revisions and in this epoch. */
  ghost predicate VisitedNow(g: Ground, trace: seq<Visit>, a: RetentionScan.Author) {
    var v := LastVisit(trace, Some(a));
    v.Some? && v.value.epoch == g.epoch && v.value.revision == g.revision && v.value.indexRevision == g.index.revision
  }

  /** Not eligible before `retryAt`, whatever the clock shows until then. */
  predicate Dormant(row: IndexRow, retryAt: Option<Timestamp>) {
    row.eligibleAt.None? || (retryAt.Some? && retryAt.value <= row.eligibleAt.value)
  }

  ghost predicate AllDormant(index: Index, a: RetentionScan.Author, retryAt: Option<Timestamp>) {
    forall k | k in index.rows && InScope(index.rows[k], Some(a)) :: Dormant(index.rows[k], retryAt)
  }

  /** The first row of the author that is not dormant is eligible and larger than the allowance. */
  ghost predicate Oversized(index: Index, a: RetentionScan.Author, k: Key, allowance: nat, retryAt: Option<Timestamp>,
                            observed: Timestamp) {
    && k in index.rows && InScope(index.rows[k], Some(a)) && Current(index.rows[k], observed)
    && allowance < index.rows[k].bytes
    && forall j | j in index.rows && InScope(index.rows[j], Some(a)) && j < k :: Dormant(index.rows[j], retryAt)
  }

  /** What the pass remembers about an author it has finished with, at unchanged revisions. */
  ghost predicate Settled(g: Ground, trace: seq<Visit>, a: RetentionScan.Author, retryAt: Option<Timestamp>,
                          observed: Timestamp) {
    && VisitedNow(g, trace, a)
    && var v := LastVisit(trace, Some(a)).value;
       || v.late
       || Relaxed(g, trace, Some(a))
       || AllDormant(g.index, a, retryAt)
       || exists k :: Oversized(g.index, a, k, v.allowance, retryAt, observed)
  }

  /**
   The author's last visit was at the present revisions, and now it needs no eviction, has nothing
   eligible or only a minimum larger than that visit's allowance, unless the deadline cut the visit off.
   */
  ghost predicate AuthorDone(g: Ground, trace: seq<Visit>, a: RetentionScan.Author, now: Timestamp) {
    && VisitedNow(g, trace, a)
    && var v := LastVisit(trace, Some(a)).value;
       v.late || Relaxed(g, trace, Some(a)) || Unserved(g.index, Some(a), now, v.allowance)
  }

  /** What was settled earlier in the pass still holds when the database itself is served. */
  lemma SettledNow(g: Ground, trace: seq<Visit>, a: RetentionScan.Author, retryAt: Option<Timestamp>,
                   observed: Timestamp, now: Timestamp)
    requires Settled(g, trace, a, retryAt, observed)
    requires observed <= now && (retryAt.Some? ==> now < retryAt.value) && SelectionReady(g.index, now)
    ensures AuthorDone(g, trace, a, now)
  {
    var v := LastVisit(trace, Some(a)).value;
    if k :| Oversized(g.index, a, k, v.allowance, retryAt, observed) {
      assert IsMinimum(g.index, Some(a), now, k);
    }
  }

  lemma SettledLater(g: Ground, trace: seq<Visit>, a: RetentionScan.Author, retryAt: Option<Timestamp>,
                     observed: Timestamp,
                     sooner: Option<Timestamp>, later: Timestamp)
    requires Settled(g, trace, a, retryAt, observed) && observed <= later
    requires retryAt.Some? ==> sooner.Some? && sooner.value <= retryAt.value
    ensures Settled(g, trace, a, sooner, later)
  {
    var v := LastVisit(trace, Some(a)).value;
    if k :| Oversized(g.index, a, k, v.allowance, retryAt, observed) {
      assert Oversized(g.index, a, k, v.allowance, sooner, later);
    }
  }

  lemma SettledOther(g: Ground, trace: seq<Visit>, v: Visit, a: RetentionScan.Author, retryAt: Option<Timestamp>,
                     observed: Timestamp)
    requires Settled(g, trace, a, retryAt, observed) && v.scope != Some(a)
    ensures Settled(g, trace + [v], a, retryAt, observed)
  {
    LastVisitNext(trace, v, Some(a));
    OtherVisitKeeps(g.config, trace, v, Some(a), g.epoch);
  }

  /** A visit of this moment to the given scope. */
  ghost function Seen(g: Ground, scope: Scope, allowance: nat, late: bool): Visit {
    Visit(scope, g.epoch, BytesIn(g.totals, scope), g.revision, g.index.revision, allowance, late)
  }

  /** An author seen without pressure is settled by that visit. */
  lemma RelaxedSettles(g: Ground, trace: seq<Visit>, a: RetentionScan.Author, allowance: nat, late: bool,
                       retryAt: Option<Timestamp>, observed: Timestamp)
    requires Relaxed(g, trace, Some(a))
    ensures Settled(g, trace + [Seen(g, Some(a), allowance, late)], a, retryAt, observed)
  {
    var v := Seen(g, Some(a), allowance, late);
    LastVisitNext(trace, v, Some(a));
    VisitLatches(g.config, trace, v);
  }

  /** A blocked frontier settles its author. */
  lemma BlockedSettles(g: Ground, trace: seq<Visit>, a: RetentionScan.Author, scan: Scan, allowance: nat, late: bool,
                       retryAt: Option<Timestamp>)
    requires Sound(scan, g.index, None) && scan.revision == g.index.revision && scan.author == Some(a)
    requires scan.retryAt.Some? ==> retryAt.Some? && retryAt.value <= scan.retryAt.value
    requires BlockedBy(scan, allowance, late)
    ensures Settled(g, trace + [Seen(g, Some(a), allowance, late)], a, retryAt, scan.observed)
  {
    LastVisitNext(trace, Seen(g, Some(a), allowance, late), Some(a));
    if !late && !scan.exhausted {
      var k :| IsNextRow(g.index, scan.author, scan.after, Some(k))
        && Current(g.index.rows[k], scan.observed) && g.index.rows[k].bytes == scan.blockedBytes.value;
      assert Oversized(g.index, a, k, allowance, retryAt, scan.observed);
    }
  }

  predicate Covered(cursor: PressureCursor, a: RetentionScan.Author) {
    cursor.authorsDone || (cursor.after.Some? && a <= cursor.after.value)
  }

  predicate PinnedTo(g: Ground, cursor: PressureCursor) {
    g.revision < U64_MAX && cursor.revision == Some(g.revision) && cursor.indexRevision == Some(g.index.revision)
  }

  /** The pass at the current revisions has settled every author it covers. */
  ghost predicate PassSound(g: Ground, trace: seq<Visit>, cursor: PressureCursor) {
    PinnedTo(g, cursor) ==>
      && cursor.observed.Some?
      && (cursor.selected.Some? ==> IsNext(g.totals.accounted, cursor.after, cursor.selected))
      && forall a | a in g.totals.accounted && Covered(cursor, a) :: Settled(g, trace, a, cursor.retryAt, cursor.observed.value)
  }

  /** A cursor without a revision has not started its pass. */
  predicate Started(cursor: PressureCursor) {
    if cursor.revision.Some? then cursor.indexRevision.Some? && cursor.observed.Some?
    else cursor.after.None? && cursor.selected.None? && !cursor.authorsDone
  }

  /** The revisions, the retry time and the clock still allow the pass. */
  predicate Stable(cursor: PressureCursor, revision: nat, indexRevision: nat, now: Timestamp) {
    && (cursor.revision.Some? ==> cursor.revision.value == revision)
    && (cursor.indexRevision.Some? ==> cursor.indexRevision.value == indexRevision)
    && (cursor.retryAt.Some? ==> now < cursor.retryAt.value)
    && (cursor.observed.Some? ==> cursor.observed.value <= now)
  }

  function Repinned(cursor: PressureCursor, revision: nat, indexRevision: nat, now: Timestamp): PressureCursor {
    cursor.(revision := Some(revision), indexRevision := Some(indexRevision), observed := Some(now))
  }

  lemma RepinPass(g: Ground, trace: seq<Visit>, cursor: PressureCursor, now: Timestamp)
    requires PassSound(g, trace, cursor) && Started(cursor) && Stable(cursor, g.revision, g.index.revision, now)
    ensures PassSound(g, trace, Repinned(cursor, g.revision, g.index.revision, now))
  {
    if g.revision < U64_MAX && cursor.revision.Some? {
      forall a | a in g.totals.accounted && Covered(cursor, a)
        ensures Settled(g, trace, a, cursor.retryAt, now)
      {
        SettledLater(g, trace, a, cursor.retryAt, cursor.observed.value, cursor.retryAt, now);
      }
    }
  }

  /** A visit to a scope the pass does not cover leaves the pass sound. */
  lemma PassOther(g: Ground, trace: seq<Visit>, v: Visit, cursor: PressureCursor)
    requires PassSound(g, trace, cursor) && (v.scope.Some? ==> !Covered(cursor, v.scope.value))
    ensures PassSound(g, trace + [v], cursor)
  {
    if PinnedTo(g, cursor) {
      forall a | a in g.totals.accounted && Covered(cursor, a)
        ensures Settled(g, trace + [v], a, cursor.retryAt, cursor.observed.value)
      {
        SettledOther(g, trace, v, a, cursor.retryAt, cursor.observed.value);
      }
    }
  }

  function Sooner(a: Option<Timestamp>, b: Option<Timestamp>): Option<Timestamp> {
    if b.Some? then EarlierOf(a, b.value) else a
  }

  function TurnTaken(cursor: PressureCursor, a: RetentionScan.Author, retryAt: Option<Timestamp>): PressureCursor {
    cursor.(retryAt := Sooner(cursor.retryAt, retryAt), after := Some(a), selected := None)
  }

  /** Finishing one author extends the pass by exactly that author. */
  lemma SettleAuthor(g: Ground, trace: seq<Visit>, cursor: PressureCursor, a: RetentionScan.Author,
                     retryAt: Option<Timestamp>)
    requires PassSound(g, trace, cursor) && PinnedTo(g, cursor)
    requires !cursor.authorsDone && IsNext(g.totals.accounted, cursor.after, Some(a))
    requires Settled(g, trace, a, Sooner(cursor.retryAt, retryAt), cursor.observed.value)
    ensures PassSound(g, trace, TurnTaken(cursor, a, retryAt))
  {
    var next := TurnTaken(cursor, a, retryAt);
    forall b | b in g.totals.accounted && Covered(next, b)
      ensures Settled(g, trace, b, next.retryAt, next.observed.value)
    {
      if b != a {
        assert Covered(cursor, b);
        SettledLater(g, trace, b, cursor.retryAt, cursor.observed.value, next.retryAt, next.observed.value);
      }
    }
  }

  lemma RetryPass(g: Ground, trace: seq<Visit>, cursor: PressureCursor, retryAt: Option<Timestamp>)
    requires PassSound(g, trace, cursor)
    ensures PassSound(g, trace, cursor.(retryAt := Sooner(cursor.retryAt, retryAt)))
  {
    if PinnedTo(g, cursor) {
      forall b | b in g.totals.accounted && Covered(cursor, b)
        ensures Settled(g, trace, b, Sooner(cursor.retryAt, retryAt), cursor.observed.value)
      {
        SettledLater(g, trace, b, cursor.retryAt, cursor.observed.value, Sooner(cursor.retryAt, retryAt), cursor.observed.value);
      }
    }
  }

  /** The stored row of an author, if it belongs to this epoch. */
  function RowOf(rows: map<RetentionScan.Author, AuthorPressure>, record: PressureRecord,
                 a: RetentionScan.Author): AuthorPressure {
    if a in rows && rows[a].epoch == record.epoch then rows[a] else AuthorPressure(record.epoch, false, None)
  }

  /** The author's stored latch says what the visits of this epoch say. */
  ghost predicate LatchAt(config: Config, rows: map<RetentionScan.Author, AuthorPressure>, record: PressureRecord,
                          trace: seq<Visit>, a: RetentionScan.Author) {
    RowOf(rows, record, a).active <==> Latched(config, trace, Some(a), record.epoch)
  }

  /** Every stored frontier of this epoch is sound, and every stored latch is the one the visits imply. */
  ghost predicate RowsSound(config: Config, index: Index, rows: map<RetentionScan.Author, AuthorPressure>,
                            record: PressureRecord, trace: seq<Visit>) {
    && (forall i | 0 <= i < |trace| :: trace[i].epoch <= record.epoch)
    && (forall a | a in rows :: rows[a].epoch <= record.epoch)
    && (forall a | a in rows && rows[a].epoch == record.epoch && rows[a].scan.Some? :: Sound(rows[a].scan.value, index, None))
    && (forall a: RetentionScan.Author :: LatchAt(config, rows, record, trace, a))
    && (record.global <==> Latched(config, trace, None, record.epoch))
  }

  ghost predicate CursorSound(g: Ground, trace: seq<Visit>, cursor: PressureCursor) {
    && (cursor.indexRevision.Some? ==> cursor.indexRevision.value <= g.index.revision)
    && (cursor.revision.Some? ==> cursor.revision.value <= g.revision)
    && g.revision <= U64_MAX
    && Started(cursor)
    && PassSound(g, trace, cursor)
  }

  /** A new epoch starts with no latch. */
  lemma FreshRows(config: Config, index: Index, rows: map<RetentionScan.Author, AuthorPressure>,
                  record: PressureRecord, trace: seq<Visit>)
    requires RowsSound(config, index, rows, record, trace)
    ensures RowsSound(config, index, rows, PressureRecord(record.epoch + 1, false), trace)
  {
    var next := PressureRecord(record.epoch + 1, false);
    forall a: RetentionScan.Author ensures LatchAt(config, rows, next, trace, a) {
    }
  }

  /** A visit to one scope leaves every other author's latch in place. */
  lemma KeepLatches(config: Config, trace: seq<Visit>, v: Visit, rows: map<RetentionScan.Author, AuthorPressure>,
                    record: PressureRecord)
    requires forall a: RetentionScan.Author :: LatchAt(config, rows, record, trace, a)
    ensures forall a: RetentionScan.Author | v.scope != Some(a) :: LatchAt(config, rows, record, trace + [v], a)
  {
    forall a: RetentionScan.Author | v.scope != Some(a) ensures LatchAt(config, rows, record, trace + [v], a) {
      assert LatchAt(config, rows, record, trace, a);
      OtherVisitKeeps(config, trace, v, Some(a), record.epoch);
    }
  }

  /** After a visit, the author's row is the one the visit implies. */
  ghost predicate RowAfter(rows: map<RetentionScan.Author, AuthorPressure>,
                           next: map<RetentionScan.Author, AuthorPressure>, record: PressureRecord,
                           a: RetentionScan.Author, active: bool, scan: Option<Scan>)
  {
    next == if active then rows[a := AuthorPressure(record.epoch, true, scan)] else rows - {a}
  }

  /** An author seen under pressure keeps its latch and stores its frontier; otherwise it loses its row. */
  lemma SaveRow(config: Config, index: Index, rows: map<RetentionScan.Author, AuthorPressure>,
                next: map<RetentionScan.Author, AuthorPressure>,
                record: PressureRecord, trace: seq<Visit>, v: Visit, a: RetentionScan.Author, active: bool,
                scan: Option<Scan>)
    requires RowsSound(config, index, rows, record, trace) && (scan.Some? ==> Sound(scan.value, index, None))
    requires v.scope == Some(a) && v.epoch == record.epoch
    requires active == Triggered(config, Some(a), RowOf(rows, record, a).active, v.total)
    requires RowAfter(rows, next, record, a, active, scan)
    ensures RowsSound(config, index, next, record, trace + [v])
  {
    assert LatchAt(config, rows, record, trace, a);
    KeepLatches(config, trace, v, rows, record);
    VisitLatches(config, trace, v);
    OtherVisitKeeps(config, trace, v, None, record.epoch);
    forall b: RetentionScan.Author ensures LatchAt(config, next, record, trace + [v], b) {
      assert b != a ==> LatchAt(config, rows, record, trace + [v], b);
    }
  }

  lemma SaveGlobal(config: Config, index: Index, rows: map<RetentionScan.Author, AuthorPressure>,
                   record: PressureRecord,
                   trace: seq<Visit>, v: Visit)
    requires RowsSound(config, index, rows, record, trace) && v.scope == None && v.epoch == record.epoch
    ensures RowsSound(config, index, rows, record.(global := Triggered(config, None, record.global, v.total)), trace + [v])
  {
    KeepLatches(config, trace, v, rows, record);
    VisitLatches(config, trace, v);
    var next := record.(global := Triggered(config, None, record.global, v.total));
    forall b: RetentionScan.Author ensures LatchAt(config, rows, next, trace + [v], b) {
      assert LatchAt(config, rows, record, trace + [v], b);
    }
  }

  ghost predicate AuthorsDone(g: Ground, trace: seq<Visit>, now: Timestamp) {
    forall a | a in g.totals.accounted :: AuthorDone(g, trace, a, now)
  }

  /** The justification of a prune in terms of the state before it. */
  ghost predicate PruneAuthorized(g: Ground, trace: seq<Visit>, now: Timestamp, maxBytes: nat, scope: Scope,
                                  victim: Key) {
    && Chosen(g.index, scope, now, maxBytes, victim)
    && Pressed(g.config, g.totals, trace, scope, g.epoch)
    && (scope.None? ==> AuthorsDone(g, trace, now))
  }

  /** Why a scope's turn ends without a victim: no pressure, the deadline, or nothing it could take. */
  ghost predicate Over(g: Ground, trace: seq<Visit>, now: Timestamp, maxBytes: nat, late: bool, scope: Scope) {
    Relaxed(g, trace, scope) || late || Unserved(g.index, scope, now, maxBytes)
  }

  /** The stored frontier passed one row over. */
  ghost predicate Moved(index: Index, scope: Scope, now: Timestamp, from: Option<Scan>, to: Option<Scan>) {
    to.Some? && Skips(index, StartOf(index, scope, from, now), to.value)
  }

  /** No other author's row changed. */
  predicate OnlyRow(rows: map<RetentionScan.Author, AuthorPressure>, next: map<RetentionScan.Author, AuthorPressure>,
                    scope: Scope) {
    if scope.None? then next == rows else next - {scope.value} == rows - {scope.value}
  }

  /** Whether the cursor has left the scope it served. */
  predicate TurnEnded(cursor: PressureCursor, scope: Scope) {
    if scope.Some? then cursor.after == scope else !cursor.authorsDone
  }

  function Minus(total: nat, bytes: nat): nat {
    if bytes <= total then total - bytes else 0
  }

  /** One payload less in its author's and in the database's bytes. */
  ghost predicate Relieved(totals: Totals, row: IndexRow, next: Totals) {
    && next.accounted == totals.accounted
    && next.database == (if row.bytes < totals.database then totals.database - row.bytes else 0)
    && forall a: RetentionScan.Author :: BytesIn(next, Some(a)) ==
         if a != row.author then BytesIn(totals, Some(a))
         else if row.bytes < BytesIn(totals, Some(a)) then BytesIn(totals, Some(a)) - row.bytes else 0
  }

  /** The counter rises by one, or stays at its 64-bit maximum. */
  ghost predicate Bumped(revision: nat, next: nat) {
    next == revision + 1 || (U64_MAX <= revision && next == revision)
  }

  /** The totals after a payload left its author and the database. */
  function Less(totals: Totals, row: IndexRow): Totals {
    Totals(totals.accounted, totals.authors[row.author := Minus(totals.Of(Some(row.author)), row.bytes)], Minus(totals.database, row.bytes))
  }

  function Raised(revision: nat): nat {
    if revision < U64_MAX then revision + 1 else revision
  }

  /** The scope whose turn it is: the next author, or the database once all authors had theirs. */
  ghost predicate Whose(accounted: set<RetentionScan.Author>, cursor: PressureCursor, scope: Scope) {
    if scope.None? then cursor.authorsDone else !cursor.authorsDone && IsNext(accounted, cursor.after, scope)
  }

  /** The last author had its turn; the next step belongs to the database. */
  ghost predicate PassEnds(accounted: set<RetentionScan.Author>, cursor: PressureCursor) {
    !cursor.authorsDone && IsNext(accounted, cursor.after, None)
  }

  class Pressure {
    const config: Config
    var record: PressureRecord
    var rows: map<RetentionScan.Author, AuthorPressure>
    var epoch: nat
    var cursor: PressureCursor
    var index: Index
    var totals: Totals
    var revision: nat
    /** Every visit so far. */
    ghost var trace: seq<Visit>

    ghost function Here(): Ground
      reads this`index, this`totals, this`revision, this`epoch
    {
      Ground(config, index, totals, revision, epoch)
    }

    ghost predicate Valid()
      reads this
    {
      && RowsSound(config, index, rows, record, trace)
      && (cursor.globalScan.Some? ==> Sound(cursor.globalScan.value, index, None))
      && CursorSound(Here(), trace, cursor)
    }

    /** The stored frontier of a scope. */
    ghost function Frontier(scope: Scope): Option<Scan>
      reads this`cursor, this`rows, this`record
    {
      if scope.None? then cursor.globalScan else RowOf(rows, record, scope.value).scan
    }

    constructor (config: Config, index: Index, totals: Totals)
      ensures Valid() && this.config == config && this.index == index && this.totals == totals && epoch == 0 && trace == []
    {
      this.config, this.index, this.totals := config, index, totals;
      record, rows, epoch, cursor, revision := PressureRecord(0, false), map[], 0, START, 0;
      trace := [];
      new;
      forall a: RetentionScan.Author ensures LatchAt(config, rows, record, trace, a) {
      }
    }

    /** Logical usage or leases changed in another transaction: the pass is invalidated first. */
    method ChangeTotals(next: Totals)
      requires Valid()
      modifies this`totals, this`revision
      ensures Valid()
      ensures totals == next && Bumped(old(revision), revision)
    {
      totals := next;
      revision := Raised(revision);
    }

    /** The candidate index changed in another transaction. */
    method ChangeIndex(next: Index)
      requires Valid() && index.revision < next.revision
      modifies this`index
      ensures Valid() && index == next
    {
      index := next;
    }

    /** Another runtime took over the durable record; this worker's epoch is now stale. */
    method OtherRuntime()
      requires Valid()
      modifies this`record
      ensures Valid() && record == PressureRecord(old(record).epoch + 1, false)
    {
      FreshRows(config, index, rows, record, trace);
      record := PressureRecord(record.epoch + 1, false);
    }

    /** Publish a fresh incarnation and discard any older cursor. */
    method Initialize()
      requires Valid()
      modifies this`record, this`epoch, this`cursor
      ensures Valid() && epoch == record.epoch == old(record).epoch + 1 && !record.global && cursor == START
    {
      FreshRows(config, index, rows, record, trace);
      record := PressureRecord(record.epoch + 1, false);
      epoch := record.epoch;
      cursor := START;
    }

    /** Drop the pass when anything it relied on changed; otherwise pin it to the current revisions. */
    method Reconcile(now: Timestamp) returns (stable: bool)
      requires Valid() && revision < U64_MAX
      modifies this`cursor
      ensures Valid()
      ensures stable <==> Stable(old(cursor), revision, index.revision, now)
      ensures cursor == if stable
        then old(cursor).(revision := Some(revision), indexRevision := Some(index.revision), observed := Some(now))
        else PressureCursor(None, None, false, None, None, None, None, None)
    {
      if (cursor.revision.Some? && cursor.revision.value != revision)
         || (cursor.indexRevision.Some? && cursor.indexRevision.value != index.revision)
         || (cursor.retryAt.Some? && cursor.retryAt.value <= now)
         || (cursor.observed.Some? && now < cursor.observed.value) {
        cursor := START;
        return false;
      }
      RepinPass(Here(), trace, cursor, now);
      cursor := Repinned(cursor, revision, index.revision, now);
      return true;
    }

    /** The cursor is pinned to this moment and these revisions. */
    ghost predicate Pinned(now: Timestamp)
      reads this
    {
      && epoch == record.epoch && PinnedTo(Here(), cursor) && cursor.observed == Some(now)
      && (cursor.retryAt.Some? ==> now < cursor.retryAt.value)
    }

    /** Choose the next author, or find that the pass is complete. */
    method NextScope(now: Timestamp) returns (author: Option<RetentionScan.Author>, finished: bool)
      requires Valid() && Pinned(now)
      modifies this`cursor
      ensures Valid() && Pinned(now)
      ensures finished <==> PassEnds(totals.accounted, old(cursor))
      ensures finished ==> author.None? && cursor == old(cursor).(authorsDone := true)
      ensures !finished ==> Whose(totals.accounted, old(cursor), author)
      ensures !finished ==> cursor == if author.Some? then old(cursor).(selected := author) else old(cursor)
    {
      if cursor.authorsDone {
        return None, false;
      }
      if cursor.selected.Some? {
        return cursor.selected, false;
      }
      var next := Next(totals.accounted, cursor.after);
      if next.Some? {
        cursor := cursor.(selected := Some(next.value));
        return Some(next.value), false;
      }
      cursor := cursor.(authorsDone := true);
      return None, true;
    }

    /** The author's turn is over. */
    method Finish(a: RetentionScan.Author, retryAt: Option<Timestamp>)
      requires CursorSound(Here(), trace, cursor) && PinnedTo(Here(), cursor)
      requires Whose(totals.accounted, cursor, Some(a))
      requires Settled(Here(), trace, a, Sooner(cursor.retryAt, retryAt), cursor.observed.value)
      modifies this`cursor
      ensures CursorSound(Here(), trace, cursor) && cursor == TurnTaken(old(cursor), a, retryAt)
    {
      SettleAuthor(Here(), trace, cursor, a, retryAt);
      cursor := TurnTaken(cursor, a, retryAt);
    }

    /** Keep the retry time of an author under pressure, and end its turn when its frontier is blocked. */
    method SaveAuthor(a: RetentionScan.Author, now: Timestamp, scan: Scan, blocked: bool)
      requires CursorSound(Here(), trace, cursor) && Pinned(now) && Whose(totals.accounted, cursor, Some(a))
      requires blocked ==> Settled(Here(), trace, a, Sooner(cursor.retryAt, scan.retryAt), now)
      modifies this`cursor
      ensures CursorSound(Here(), trace, cursor)
      ensures cursor == if blocked then TurnTaken(old(cursor), a, scan.retryAt)
                        else old(cursor).(retryAt := Sooner(old(cursor).retryAt, scan.retryAt))
    {
      if blocked {
        Finish(a, scan.retryAt);
      } else {
        RetryPass(Here(), trace, cursor, scan.retryAt);
        cursor := cursor.(retryAt := Sooner(cursor.retryAt, scan.retryAt));
      }
    }

    /** Store the frontier of an author under pressure. */
    method KeepRow(a: RetentionScan.Author, scan: Scan, ghost v: Visit, ghost before: seq<Visit>)
      requires RowsSound(config, index, rows, record, before) && Sound(scan, index, None)
      requires v.scope == Some(a) && v.epoch == record.epoch && trace == before + [v]
      requires Triggered(config, Some(a), RowOf(rows, record, a).active, v.total)
      modifies this`rows
      ensures RowsSound(config, index, rows, record, trace) && Frontier(Some(a)) == Some(scan) && OnlyRow(old(rows), rows, Some(a))
    {
      ghost var was := rows;
      rows := rows[a := AuthorPressure(record.epoch, true, Some(scan))];
      SaveRow(config, index, was, rows, record, before, v, a, true, Some(scan));
    }

    /** Select for an author under pressure; a blocked frontier settles it. */
    method SelectFor(a: RetentionScan.Author, now: Timestamp, maxBytes: nat, late: bool, ghost before: seq<Visit>)
      returns (scan: Scan, selection: Selection)
      requires SelectionReady(index, now) && (Frontier(Some(a)).Some? ==> Sound(Frontier(Some(a)).value, index, None))
      requires trace == before + [Seen(Here(), Some(a), maxBytes, late)]
      ensures Sound(scan, index, None)
      ensures selection.Prune? ==> !late && Chosen(index, Some(a), now, maxBytes, selection.key)
      ensures selection.Blocked? ==>
        && (late || Unserved(index, Some(a), now, maxBytes))
        && Settled(Here(), trace, a, Sooner(cursor.retryAt, scan.retryAt), now)
      ensures selection.Advanced? ==> Moved(index, Some(a), now, Frontier(Some(a)), Some(scan))
    {
      scan, selection := Select(index, Some(a), RowOf(rows, record, a).scan, now, maxBytes, late);
      if selection.Blocked? {
        BlockedSettles(Here(), before, a, scan, maxBytes, late, Sooner(cursor.retryAt, scan.retryAt));
      }
    }

    /** Select for an author under pressure, and keep its frontier. */
    method VisitPressed(a: RetentionScan.Author, now: Timestamp, maxBytes: nat, late: bool,
                        ghost before: seq<Visit>) returns (selection: Selection)
      requires RowsSound(config, index, rows, record, before) && CursorSound(Here(), trace, cursor)
      requires Pinned(now) && SelectionReady(index, now) && Whose(totals.accounted, cursor, Some(a))
      requires trace == before + [Seen(Here(), Some(a), maxBytes, late)]
      requires Triggered(config, Some(a), RowOf(rows, record, a).active, totals.Of(Some(a)))
      modifies this`rows, this`cursor
      ensures RowsSound(config, index, rows, record, trace) && CursorSound(Here(), trace, cursor)
      ensures OnlyRow(old(rows), rows, Some(a)) && cursor.globalScan == old(cursor).globalScan && PinnedTo(Here(), cursor)
      ensures selection.Prune? ==> !late && Chosen(index, Some(a), now, maxBytes, selection.key)
      ensures selection.Blocked? ==> (late || Unserved(index, Some(a), now, maxBytes)) && TurnEnded(cursor, Some(a))
      ensures selection.Advanced? ==>
        Moved(index, Some(a), now, old(Frontier(Some(a))), Frontier(Some(a))) && !TurnEnded(cursor, Some(a))
    {
      var scan;
      scan, selection := SelectFor(a, now, maxBytes, late, before);
      SaveAuthor(a, now, scan, selection.Blocked?);
      KeepRow(a, scan, Seen(Here(), Some(a), maxBytes, late), before);
    }

    /** An author seen without pressure loses its row, and its turn is over. */
    method VisitRelaxed(a: RetentionScan.Author, now: Timestamp, maxBytes: nat, late: bool, ghost before: seq<Visit>)
      requires RowsSound(config, index, rows, record, before) && CursorSound(Here(), trace, cursor)
      requires Pinned(now) && Whose(totals.accounted, cursor, Some(a))
      requires trace == before + [Seen(Here(), Some(a), maxBytes, late)]
      requires !Triggered(config, Some(a), RowOf(rows, record, a).active, totals.Of(Some(a)))
      modifies this`rows, this`cursor
      ensures RowsSound(config, index, rows, record, trace) && CursorSound(Here(), trace, cursor)
      ensures cursor == TurnTaken(old(cursor), a, None) && rows == old(rows) - {a}
    {
      assert LatchAt(config, rows, record, before, a);
      RelaxedSettles(Here(), before, a, maxBytes, late, cursor.retryAt, now);
      Finish(a, None);
      ghost var v, was := Seen(Here(), Some(a), maxBytes, late), rows;
      rows := rows - {a};
      SaveRow(config, index, was, rows, record, before, v, a, false, None);
    }

    /** Evaluate one author and advance its frontier by at most one row. */
    method VisitAuthor(a: RetentionScan.Author, now: Timestamp, maxBytes: nat,
                       late: bool) returns (selection: Selection)
      requires Valid() && Pinned(now) && SelectionReady(index, now) && Whose(totals.accounted, cursor, Some(a))
      modifies this`rows, this`cursor, this`trace
      ensures Valid()
      ensures trace == old(trace) + [Seen(Here(), Some(a), maxBytes, late)] && OnlyRow(old(rows), rows, Some(a))
      ensures selection.Prune? ==> PruneAuthorized(Here(), trace, now, maxBytes, Some(a), selection.key)
      ensures selection.Blocked? ==> Over(Here(), old(trace), now, maxBytes, late, Some(a)) && TurnEnded(cursor, Some(a))
      ensures selection.Advanced? ==>
        Moved(index, Some(a), now, old(Frontier(Some(a))), Frontier(Some(a))) && !TurnEnded(cursor, Some(a)) && PinnedTo(Here(), cursor)
    {
      ghost var before, v := trace, Seen(Here(), Some(a), maxBytes, late);
      PassOther(Here(), trace, v, cursor);
      trace := trace + [v];
      assert LatchAt(config, rows, record, before, a);
      VisitLatches(config, before, v);
      if Triggered(config, Some(a), RowOf(rows, record, a).active, totals.Of(Some(a))) {
        selection := VisitPressed(a, now, maxBytes, late, before);
      } else {
        VisitRelaxed(a, now, maxBytes, late, before);
        selection := Blocked;
      }
    }

    /** Evaluate the whole database after a complete author pass. */
    method VisitDatabase(now: Timestamp, maxBytes: nat, late: bool) returns (selection: Selection)
      requires Valid() && Pinned(now) && SelectionReady(index, now) && cursor.authorsDone
      modifies this`record, this`cursor, this`trace
      ensures Valid() && record.epoch == old(record).epoch
      ensures trace == old(trace) + [Seen(Here(), None, maxBytes, late)]
      ensures selection.Prune? ==> PruneAuthorized(Here(), trace, now, maxBytes, None, selection.key)
      ensures selection.Blocked? ==> Over(Here(), old(trace), now, maxBytes, late, None) && TurnEnded(cursor, None)
      ensures selection.Advanced? ==>
        Moved(index, None, now, old(Frontier(None)), Frontier(None)) && !TurnEnded(cursor, None) && PinnedTo(Here(), cursor)
    {
      ghost var v := Seen(Here(), None, maxBytes, late);
      SaveGlobal(config, index, rows, record, trace, v);
      PassOther(Here(), trace, v, cursor);
      VisitLatches(config, trace, v);
      record := record.(global := Triggered(config, None, record.global, totals.Of(None)));
      trace := trace + [v];
      PassComplete(now);
      if !record.global {
        cursor := START;
        return Blocked;
      }
      var scan;
      scan, selection := Select(index, None, cursor.globalScan, now, maxBytes, late);
      cursor := cursor.(globalScan := Some(scan));
      if selection.Blocked? {
        cursor := cursor.(after := None, selected := None, authorsDone := false, revision := None);
      }
    }

    /** Every accounted author is done at this moment, by the completed pass. */
    lemma PassComplete(now: Timestamp)
      requires CursorSound(Here(), trace, cursor) && Pinned(now) && SelectionReady(index, now) && cursor.authorsDone
      ensures AuthorsDone(Here(), trace, now)
    {
      forall a | a in totals.accounted
        ensures AuthorDone(Here(), trace, a, now)
      {
        SettledNow(Here(), trace, a, cursor.retryAt, now, now);
      }
    }

    /** Dematerialize one victim; its bytes leave its author's and the database's totals. */
    method Prune(k: Key)
      requires Valid() && k in index.rows
      modifies this`index, this`totals, this`revision
      ensures Valid()
      ensures index == Index(old(index).revision + 1, old(index).rows - {k}, old(index).grace)
      ensures Relieved(old(totals), old(index).rows[k], totals) && Bumped(old(revision), revision)
    {
      ChangeTotals(Less(totals, index.rows[k]));
      ChangeIndex(Index(index.revision + 1, index.rows - {k}, index.grace));
    }

    /** Serve the author whose turn it is, or the database once all authors had theirs. */
    method Serve(author: Option<RetentionScan.Author>, now: Timestamp, maxBytes: nat,
                 late: bool) returns (selection: Selection)
      requires Valid() && Pinned(now) && SelectionReady(index, now) && Whose(totals.accounted, cursor, author)
      modifies this`rows, this`record, this`cursor, this`trace
      ensures Valid() && record.epoch == old(record).epoch
      ensures trace == old(trace) + [Seen(Here(), author, maxBytes, late)] && OnlyRow(old(rows), rows, author)
      ensures selection.Prune? ==> PruneAuthorized(Here(), trace, now, maxBytes, author, selection.key)
      ensures selection.Blocked? ==> Over(Here(), old(trace), now, maxBytes, late, author) && TurnEnded(cursor, author)
      ensures selection.Advanced? ==>
        Moved(index, author, now, old(Frontier(author)), Frontier(author)) && !TurnEnded(cursor, author) && PinnedTo(Here(), cursor)
    {
      if author.Some? {
        selection := VisitAuthor(author.value, now, maxBytes, late);
      } else {
        selection := VisitDatabase(now, maxBytes, late);
      }
    }

    /** One visit to the scope whose turn it is, and what came of it. */
    twostate predicate Visited(new scope: Scope, now: Timestamp, maxBytes: nat, late: bool, step: PressureStep)
      reads this
    {
      && Whose(old(totals).accounted, old(cursor), scope)
      && trace == old(trace) + [Seen(old(Here()), scope, maxBytes, late)]
      && OnlyRow(old(rows), rows, scope)
      && if step.Pruned? then
           && step.scope == scope
           && PruneAuthorized(old(Here()), trace, now, maxBytes, scope, step.victim)
           && index == Index(old(index).revision + 1, old(index).rows - {step.victim}, old(index).grace)
           && Relieved(old(totals), old(index).rows[step.victim], totals) && Bumped(old(revision), revision)
         else
           && step == (if scope.Some? || !TurnEnded(cursor, scope) then Continue else Wait)
           && index == old(index) && totals == old(totals) && revision == old(revision)
           && if TurnEnded(cursor, scope) then Over(old(Here()), old(trace), now, maxBytes, late, scope)
              else PinnedTo(Here(), cursor) && Moved(index, scope, now, old(Frontier(scope)), Frontier(scope))
    }

    /** Everything but the cursor is as before. */
    twostate predicate Still()
      reads this
    {
      && trace == old(trace) && rows == old(rows) && record == old(record)
      && index == old(index) && totals == old(totals) && revision == old(revision)
    }

    /** End the pass, give up, or visit the scope whose turn it is. */
    twostate predicate Proceeded(new scope: Scope, now: Timestamp, maxBytes: nat, stalled: bool, late: bool,
                                 step: PressureStep)
      reads this
    {
      if PassEnds(old(totals).accounted, old(cursor)) then Still() && step.Continue? && cursor.authorsDone && PinnedTo(Here(), cursor)
      else if stalled then Still() && step.Wait?
      else Visited(scope, now, maxBytes, late, step)
    }

    /** What one turn does: drop a pass that no longer holds, or go on with it. */
    twostate predicate Turned(new scope: Scope, now: Timestamp, maxBytes: nat, stalled: bool, late: bool,
                              step: PressureStep)
      reads this
    {
      if Stable(old(cursor), old(revision), old(index).revision, now) then Proceeded(scope, now, maxBytes, stalled, late, step)
      else Still() && step.Wait? && cursor == START
    }

    /** Visit the scope and take its victim, if it has one. */
    method VisitScope(scope: Scope, now: Timestamp, maxBytes: nat, late: bool) returns (step: PressureStep)
      requires Valid() && Pinned(now) && SelectionReady(index, now) && Whose(totals.accounted, cursor, scope)
      modifies this`index, this`totals, this`revision, this`rows, this`record, this`cursor, this`trace
      ensures Valid() && record.epoch == old(record).epoch
      ensures Visited(scope, now, maxBytes, late, step)
    {
      var selection := Serve(scope, now, maxBytes, late);
      step := if scope.Some? || selection.Advanced? then Continue else Wait;
      if selection.Prune? {
        Prune(selection.key);
        step := Pruned(scope, selection.key);
      }
    }

    /** Reconcile the cursor and choose the scope whose turn it is. */
    method Resume(now: Timestamp) returns (stable: bool, finished: bool, scope: Scope)
      requires Valid() && revision < U64_MAX && epoch == record.epoch
      modifies this`cursor
      ensures Valid() && (stable ==> Pinned(now))
      ensures stable <==> Stable(old(cursor), revision, index.revision, now)
      ensures !stable ==> cursor == START
      ensures finished <==> stable && PassEnds(totals.accounted, old(cursor))
      ensures finished ==> cursor.authorsDone
      ensures stable && !finished ==>
        && Whose(totals.accounted, old(cursor), scope) && Whose(totals.accounted, cursor, scope)
        && cursor.globalScan == old(cursor).globalScan
    {
      finished, scope := false, None;
      stable := Reconcile(now);
      if stable {
        scope, finished := NextScope(now);
      }
    }

    /**
     Continue the pass at this moment, if it still holds. `stalled` says that the deadline passes
     while the leases are added up, `late` that it has passed when a candidate would be read.
     */
    method Turn(now: Timestamp, maxBytes: nat, stalled: bool,
                late: bool) returns (step: PressureStep, ghost scope: Scope)
      requires Valid() && SelectionReady(index, now) && epoch == record.epoch && revision < U64_MAX
      modifies this`index, this`totals, this`revision, this`rows, this`record, this`cursor, this`trace
      ensures Valid() && record.epoch == old(record).epoch
      ensures Turned(scope, now, maxBytes, stalled, late, step)
    {
      var stable, finished, author := Resume(now);
      scope := author;
      if !stable || (!finished && stalled) {
        return Wait, scope;
      }
      if finished {
        return Continue, scope;
      }
      step := VisitScope(author, now, maxBytes, late);
    }

    /**
     One bounded step. `ready` and `bound` are the readiness and configuration checks;
     `barred` says that a live demand owns or already fits the free room.
     */
    method Step(now: Timestamp, maxBytes: nat, ready: bool, bound: bool, barred: bool, stalled: bool, late: bool)
      returns (step: PressureStep, ghost scope: Scope)
      requires Valid() && (ready ==> SelectionReady(index, now))
      modifies this
      ensures Valid()
      ensures old(epoch) == 0 ==>
        && step.Continue? && epoch == record.epoch == old(record).epoch + 1 && cursor == START
        && trace == old(trace) && index == old(index) && totals == old(totals) && revision == old(revision)
      ensures old(epoch) != 0 ==> epoch == old(epoch) && record.epoch == old(record).epoch
      ensures old(epoch) != 0 && !ready ==> step.NotReady?
      ensures old(epoch) != 0 && ready ==>
        (step.Failed? <==> !bound || record.epoch != epoch || (!barred && old(revision) == U64_MAX))
      ensures old(epoch) != 0 && ready && !step.Failed? && barred ==> step.Wait?
      ensures old(epoch) != 0 && (!ready || step.Failed? || barred) ==> Still() && cursor == old(cursor)
      ensures old(epoch) != 0 && ready && !step.Failed? && !barred ==> Turned(scope, now, maxBytes, stalled, late, step)
    {
      if epoch == 0 {
        Initialize();
        return Continue, None;
      }
      if !ready {
        return NotReady, None;
      }
      if !bound || record.epoch != epoch {
        return Failed, None;
      }
      if barred {
        return Wait, None;
      }
      if revision == U64_MAX {
        return Failed, None;
      }
      step, scope := Turn(now, maxBytes, stalled, late);
    }
  }
}
