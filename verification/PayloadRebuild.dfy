/** The bounded, resumable rebuild of the accounting rows. */
module PayloadRebuild {
  import opened Wrappers
  import opened Sums
  import opened OrderedKeys
  import opened PayloadTables
  import opened PayloadLifecycle
  import opened PayloadAccounting
  import opened PayloadBracket
  import opened PayloadBracketProofs
  import opened PayloadRoom

  datatype Maintenance = Maintenance(visited: nat, ready: bool, removedBytes: int)

  /** The table a stage scans. */
  function StageKeys(l: Lifecycle, a: Accounting): set<int> {
    match a.stage
    case Events(_) => l.events.Keys
    case Content(_) => l.store.Keys
    case Hashes(_) => a.hashes.Keys
    case ReferenceCounts(_) => l.rc.Keys
    case Authors(_) => l.usage.Keys
    case ExpectedAuthors(_) => a.authors.Keys
    case Ready => {}
  }

  function StageCursor(stage: Stage): Option<int> {
    match stage
    case Events(c) => c
    case Content(c) => c
    case Hashes(c) => c
    case ReferenceCounts(c) => c
    case Authors(c) => c
    case ExpectedAuthors(c) => c
    case Ready => None
  }

  function Following(stage: Stage): Stage {
    match stage
    case Events(_) => Content(None)
    case Content(_) => Hashes(None)
    case Hashes(_) => ReferenceCounts(None)
    case ReferenceCounts(_) => Authors(None)
    case Authors(_) => ExpectedAuthors(None)
    case ExpectedAuthors(_) => Ready
    case Ready => Ready
  }

  /** How many stage changes are left. */
  function Remaining(stage: Stage): nat {
    match stage
    case Events(_) => 6
    case Content(_) => 5
    case Hashes(_) => 4
    case ReferenceCounts(_) => 3
    case Authors(_) => 2
    case ExpectedAuthors(_) => 1
    case Ready => 0
  }

  /** Visit one source row: count it or validate it, and move the cursor onto it. */
  function Visit(self: Author, l: Lifecycle, a: Accounting, key: nat): Result<Accounting>
    requires key in StageKeys(l, a)
  {
    match a.stage
    case Events(_) =>
      var c := CurrentContribution(self, l, key);
      if c.Err? then Err(c.error)
      else if c.value.None? then Err(AccountingInvariant)
      else
        var counted := AdjustContribution(a, c.value.value, true);
        if counted.Err? then counted else Ok(counted.value.(stage := Events(Some(key))))
    case Content(_) =>
      var unique := a.unique + l.store[key];
      if unique > U64_MAX then Err(Overflow)
      else if !HashValid(l, a, key) then Err(AccountingInvariant)
      else Ok(a.(unique := unique, stage := Content(Some(key))))
    case Hashes(_) =>
      if HashValid(l, a, key) then Ok(a.(stage := Hashes(Some(key)))) else Err(AccountingInvariant)
    case ReferenceCounts(_) =>
      if HashValid(l, a, key) then Ok(a.(stage := ReferenceCounts(Some(key)))) else Err(AccountingInvariant)
    case Authors(_) =>
      if l.usage[key] == Get(a.authors, key) then Ok(a.(stage := Authors(Some(key)))) else Err(AccountingInvariant)
    case ExpectedAuthors(_) =>
      if AuthorValid(l, a, key) then Ok(a.(stage := ExpectedAuthors(Some(key)))) else Err(AccountingInvariant)
    case Ready => Ok(a)
  }

  // Progress: how many rows of the six scanned tables the cursor has passed.

  /** The table scanned with `left` stage changes to go. */
  ghost function TableKeys(l: Lifecycle, a: Accounting, left: nat): set<int> {
    match left
    case 6 => l.events.Keys
    case 5 => l.store.Keys
    case 4 => a.hashes.Keys
    case 3 => l.rc.Keys
    case 2 => l.usage.Keys
    case 1 => a.authors.Keys
    case _ => {}
  }

  ghost function Scanned(keys: set<int>, left: nat, stage: Stage): set<int> {
    if Remaining(stage) < left then keys
    else if Remaining(stage) == left then set k | k in keys && !Beyond(StageCursor(stage), k)
    else {}
  }

  /** The rows the cursor has passed in the last `left` tables. */
  ghost function Passed(l: Lifecycle, a: Accounting, left: nat): nat {
    if left == 0 then 0 else |Scanned(TableKeys(l, a, left), left, a.stage)| + Passed(l, a, left - 1)
  }

  /** No table but the scanned one has more rows passed; a visited event may add rows to tables not scanned yet. */
  lemma ScannedSame(l: Lifecycle, a: Accounting, b: Accounting, left: nat)
    requires Remaining(b.stage) == Remaining(a.stage) != left
    requires a.stage.Events? || (b.hashes == a.hashes && b.authors == a.authors)
    ensures Scanned(TableKeys(l, b, left), left, b.stage) == Scanned(TableKeys(l, a, left), left, a.stage)
  {
  }

  lemma ScannedNext(keys: set<int>, left: nat, from: Stage, to: Stage, key: int)
    requires Remaining(from) == Remaining(to) == left && StageCursor(to) == Some(key) && IsNext(keys, StageCursor(from), Some(key))
    ensures |Scanned(keys, left, to)| == |Scanned(keys, left, from)| + 1
  {
    assert Scanned(keys, left, to) == Scanned(keys, left, from) + {key};
  }

  lemma {:induction false} PassesOne(l: Lifecycle, a: Accounting, b: Accounting, key: int, left: nat)
    requires Remaining(b.stage) == Remaining(a.stage) && StageCursor(b.stage) == Some(key)
    requires IsNext(TableKeys(l, a, Remaining(a.stage)), StageCursor(a.stage), Some(key))
    requires a.stage.Events? || (b.hashes == a.hashes && b.authors == a.authors)
    ensures Passed(l, b, left) == Passed(l, a, left) + if 0 < Remaining(a.stage) <= left then 1 else 0
  {
    if left != 0 {
      PassesOne(l, a, b, key, left - 1);
      if left == Remaining(a.stage) {
        ScannedNext(TableKeys(l, a, left), left, a.stage, b.stage, key);
      } else {
        ScannedSame(l, a, b, left);
      }
    }
  }

  lemma FollowingStage(stage: Stage)
    requires !stage.Ready?
    ensures Remaining(Following(stage)) == Remaining(stage) - 1 && StageCursor(Following(stage)).None?
  {
  }

  /** At the end of its table the cursor has passed all of it, and none of the next one. */
  lemma ScannedEnd(keys: set<int>, left: nat, stage: Stage)
    requires !stage.Ready? && (left == Remaining(stage) ==> IsNext(keys, StageCursor(stage), None))
    ensures Scanned(keys, left, Following(stage)) == Scanned(keys, left, stage)
  {
    FollowingStage(stage);
    if left == Remaining(stage) {
      assert Scanned(keys, left, stage) == keys;
    }
  }

  lemma {:induction false} PassesNone(l: Lifecycle, a: Accounting, left: nat)
    requires !a.stage.Ready? && IsNext(TableKeys(l, a, Remaining(a.stage)), StageCursor(a.stage), None)
    ensures Passed(l, a.(stage := Following(a.stage)), left) == Passed(l, a, left)
  {
    if left != 0 {
      PassesNone(l, a, left - 1);
      ScannedEnd(TableKeys(l, a, left), left, a.stage);
    }
  }

  /** One visited row is one more row passed. */
  lemma VisitPasses(self: Author, l: Lifecycle, a: Accounting, key: nat)
    requires IsNext(StageKeys(l, a), StageCursor(a.stage), Some(key)) && Visit(self, l, a, key).Ok?
    ensures Passed(l, Visit(self, l, a, key).value, 6) == Passed(l, a, 6) + 1
  {
    PassesOne(l, a, Visit(self, l, a, key).value, key, 6);
  }

  /** An accepted visit found its count or usage row in agreement with the recorded totals. */
  lemma VisitDetects(self: Author, l: Lifecycle, a: Accounting, key: nat)
    requires key in StageKeys(l, a) && Visit(self, l, a, key).Ok?
    ensures a.stage.Events? && key !in l.states ==>
      l.events[key].hash in l.store && l.store[l.events[key].hash] == l.events[key].len
    ensures a.stage.Content? || a.stage.Hashes? || a.stage.ReferenceCounts? ==> CountAgrees(l, a, key)
    ensures a.stage.Authors? || a.stage.ExpectedAuthors? ==> UsageAgrees(l, a, key)
  {
  }

  lemma AdvanceCovers(self: Author, l: Lifecycle, a: Accounting)
    requires !a.stage.Ready? && IsNext(StageKeys(l, a), StageCursor(a.stage), None)
    ensures Counted(self, l, a.stage) == Counted(self, l, Following(a.stage))
    ensures StoredCounted(l, a.stage) == StoredCounted(l, Following(a.stage))
    ensures forall id | id in l.events :: EventCounted(Following(a.stage), id) == EventCounted(a.stage, id)
  {
  }

  /** The end of a scan covers its whole table. */
  lemma AdvanceExact(self: Author, l: Lifecycle, a: Accounting)
    requires Exact(self, l, a) && BytesKept(l, a.stage)
    requires !a.stage.Ready? && IsNext(StageKeys(l, a), StageCursor(a.stage), None)
    ensures var b := a.(stage := Following(a.stage)); Exact(self, l, b) && BytesKept(l, b.stage)
  {
    AdvanceCovers(self, l, a);
  }

  lemma VisitEventBytes(self: Author, l: Lifecycle, a: Accounting, key: nat)
    requires BytesKept(l, a.stage)
    requires a.stage.Events? && IsNext(l.events.Keys, a.stage.event, Some(key))
    requires Visit(self, l, a, key).Ok?
    ensures BytesKept(l, Events(Some(key)))
  {
  }

  lemma CountedExtends(self: Author, l: Lifecycle, cursor: Option<EventId>, key: nat)
    requires IsNext(l.events.Keys, cursor, Some(key))
    ensures key !in Counted(self, l, Events(cursor))
    ensures Counted(self, l, Events(Some(key))) ==
      Counted(self, l, Events(cursor))[key := ContributionOf(self, l.events[key], StateOf(l, key))]
  {
  }

  lemma VisitEvent(self: Author, l: Lifecycle, a: Accounting, key: nat)
    requires Exact(self, l, a)
    requires a.stage.Events? && IsNext(l.events.Keys, a.stage.event, Some(key))
    requires Visit(self, l, a, key).Ok?
    ensures Exact(self, l, Visit(self, l, a, key).value)
  {
    var c := ContributionOf(self, l.events[key], StateOf(l, key));
    CountedExtends(self, l, a.stage.event, key);
    AddCounts(a, Counted(self, l, a.stage), key, c);
    assert StoredCounted(l, a.stage) == StoredCounted(l, Events(Some(key)));
  }

  lemma VisitContent(self: Author, l: Lifecycle, a: Accounting, key: nat)
    requires Exact(self, l, a) && BytesKept(l, a.stage)
    requires a.stage.Content? && IsNext(l.store.Keys, a.stage.stored, Some(key))
    requires Visit(self, l, a, key).Ok?
    ensures var b := Visit(self, l, a, key).value; Exact(self, l, b) && BytesKept(l, b.stage)
  {
    var b := Visit(self, l, a, key).value;
    CountedAll(self, l, a.stage);
    CountedAll(self, l, b.stage);
    SumUpdate<Hash>(StoredCounted(l, a.stage), key, l.store[key]);
    assert StoredCounted(l, b.stage) == StoredCounted(l, a.stage)[key := l.store[key]];
  }

  /** The validating stages move the cursor and nothing else. */
  lemma VisitValidates(self: Author, l: Lifecycle, a: Accounting, stage: Stage)
    requires Exact(self, l, a) && BytesKept(l, a.stage)
    requires !a.stage.Events? && !a.stage.Content? && !stage.Events? && !stage.Content?
    ensures Exact(self, l, a.(stage := stage)) && BytesKept(l, stage)
  {
    CountedAll(self, l, a.stage);
    CountedAll(self, l, stage);
    assert StoredCounted(l, a.stage) == StoredCounted(l, stage);
  }

  /** One visited row extends the covered prefix by exactly that row. */
  lemma VisitExact(self: Author, l: Lifecycle, a: Accounting, key: nat)
    requires Exact(self, l, a) && BytesKept(l, a.stage)
    requires IsNext(StageKeys(l, a), StageCursor(a.stage), Some(key))
    requires Visit(self, l, a, key).Ok?
    ensures var b := Visit(self, l, a, key).value; Exact(self, l, b) && BytesKept(l, b.stage)
  {
    if a.stage.Events? {
      VisitEvent(self, l, a, key);
      VisitEventBytes(self, l, a, key);
    } else if a.stage.Content? {
      VisitContent(self, l, a, key);
    } else {
      var b := Visit(self, l, a, key).value;
      assert b == a.(stage := b.stage);
      VisitValidates(self, l, a, b.stage);
    }
  }

  /** A Processed event the cursor has not reached, with bytes of another length. */
  ghost predicate MisStoredAhead(l: Lifecycle, stage: Stage) {
    exists id :: Processed(l, id) && !EventCounted(stage, id) && !WellStored(l, l.events[id])
  }

  lemma CountedWithin(self: Author, l: Lifecycle, stage: Stage)
    ensures Within(l.events, Counted(self, l, stage))
  {
    var cs := Counted(self, l, stage);
    forall id: EventId ensures WithinAt(l.events, cs, id) {
    }
  }

  lemma VisitEventFits(self: Author, l: Lifecycle, a: Accounting, key: nat)
    requires Exact(self, l, a) && Roomy(l)
    requires a.stage.Events? && IsNext(l.events.Keys, a.stage.event, Some(key))
    ensures AdjustContribution(a, ContributionOf(self, l.events[key], StateOf(l, key)), true).Ok?
  {
    var c := ContributionOf(self, l.events[key], StateOf(l, key));
    CountedExtends(self, l, a.stage.event, key);
    CountedWithin(self, l, Events(Some(key)));
    AddFits(l, a, Counted(self, l, a.stage), key, c);
  }

  lemma VisitContentFits(self: Author, l: Lifecycle, a: Accounting, key: nat)
    requires Exact(self, l, a) && Roomy(l) && NonNegative(l.store)
    requires a.stage.Content? && IsNext(l.store.Keys, a.stage.stored, Some(key))
    ensures a.unique + l.store[key] <= U64_MAX
  {
    var was := StoredCounted(l, a.stage);
    SumUpdate<Hash>(was, key, l.store[key]);
    SumMonotone<Hash>(was[key := l.store[key]], l.store);
  }

  /** What may stop the rebuild: a full counter, or bytes of a wrong length ahead of the cursor. */
  ghost predicate Stopped(l: Lifecycle, stage: Stage, error: DbError) {
    (error.Overflow? && !Roomy(l)) || MisStoredAhead(l, stage)
  }

  lemma VisitEventRefuses(self: Author, l: Lifecycle, a: Accounting, key: nat)
    requires Exact(self, l, a) && a.stage.Events? && IsNext(l.events.Keys, a.stage.event, Some(key))
    requires Visit(self, l, a, key).Err?
    ensures Stopped(l, a.stage, Visit(self, l, a, key).error)
  {
    if Processed(l, key) && !WellStored(l, l.events[key]) {
      assert !EventCounted(a.stage, key);
    } else {
      assert CurrentContribution(self, l, key) == Ok(Some(ContributionOf(self, l.events[key], StateOf(l, key))));
      if Roomy(l) {
        VisitEventFits(self, l, a, key);
      }
    }
  }

  /** A later stage finds exact totals, so only the sum of stored bytes can fail, by overflow. */
  lemma VisitLaterRefuses(self: Author, l: Lifecycle, a: Accounting, key: nat)
    requires Exact(self, l, a) && Base(self, l) && NonNegative(l.store) && !a.stage.Events?
    requires IsNext(StageKeys(l, a), StageCursor(a.stage), Some(key))
    requires Visit(self, l, a, key).Err?
    ensures Stopped(l, a.stage, Visit(self, l, a, key).error)
  {
    if a.stage.Authors? || a.stage.ExpectedAuthors? {
      AuthorAgrees(self, l, a, key);
    } else {
      HashAgrees(self, l, a, key);
      if a.stage.Content? && Roomy(l) {
        VisitContentFits(self, l, a, key);
      }
    }
  }

  /** No validation of the rebuild ever fails; only a full counter or mis-stored bytes stop it. */
  lemma VisitRefuses(self: Author, l: Lifecycle, a: Accounting, key: nat)
    requires Exact(self, l, a) && Base(self, l) && NonNegative(l.store)
    requires IsNext(StageKeys(l, a), StageCursor(a.stage), Some(key))
    requires Visit(self, l, a, key).Err?
    ensures Stopped(l, a.stage, Visit(self, l, a, key).error)
  {
    if a.stage.Events? {
      VisitEventRefuses(self, l, a, key);
    } else {
      VisitLaterRefuses(self, l, a, key);
    }
  }

  /** Cursor `b` covers what `a` covers, and nothing but the totals and the stage differ. */
  ghost predicate Continues(a: Accounting, b: Accounting) {
    && b.provenance == a.provenance && b.queue == a.queue && b.recovery == a.recovery
    && (forall id: EventId :: EventCounted(a.stage, id) ==> EventCounted(b.stage, id))
  }

  lemma VisitContinues(self: Author, l: Lifecycle, a: Accounting, key: nat)
    requires IsNext(StageKeys(l, a), StageCursor(a.stage), Some(key))
    requires Visit(self, l, a, key).Ok?
    ensures Continues(a, Visit(self, l, a, key).value)
    ensures Remaining(Visit(self, l, a, key).value.stage) == Remaining(a.stage)
  {
  }

  /** One turn of the rebuild loop: a free stage change or one visited row. */
  method RebuildStep(self: Author, l: Lifecycle, a: Accounting) returns (r: Result<Accounting>, visited: bool)
    requires Exact(self, l, a) && Base(self, l) && NonNegative(l.store) && BytesKept(l, a.stage) && !a.stage.Ready?
    ensures r.Ok? ==>
      && Exact(self, l, r.value) && BytesKept(l, r.value.stage)
      && Continues(a, r.value)
      && (visited <==> Remaining(r.value.stage) == Remaining(a.stage))
      && (!visited <==> Remaining(r.value.stage) == Remaining(a.stage) - 1)
      && Passed(l, r.value, 6) == Passed(l, a, 6) + if visited then 1 else 0
    ensures r.Err? ==> Stopped(l, a.stage, r.error)
  {
    var next := Next(StageKeys(l, a), StageCursor(a.stage));
    if next.None? {
      AdvanceExact(self, l, a);
      PassesNone(l, a, 6);
      r, visited := Ok(a.(stage := Following(a.stage))), false;
    } else {
      r, visited := Visit(self, l, a, next.value), true;
      if r.Ok? {
        VisitExact(self, l, a, next.value);
        VisitContinues(self, l, a, next.value);
        VisitPasses(self, l, a, next.value);
      } else {
        VisitRefuses(self, l, a, next.value);
      }
    }
  }

  /**
   Resume the rebuild for at most `limit` visited rows.

   A stage change costs no visit, so the loop terminates by the pair
   (remaining stages, remaining visits).
   */
  method Rebuild(self: Author, l: Lifecycle, a: Accounting, limit: nat) returns (r: Result<(Accounting, Maintenance)>)
    requires Exact(self, l, a) && Base(self, l) && NonNegative(l.store) && BytesKept(l, a.stage)
    ensures r.Ok? ==>
      && Exact(self, l, r.value.0) && BytesKept(l, r.value.0.stage)
      && Continues(a, r.value.0)
      && r.value.1.visited <= limit && r.value.1.removedBytes == 0
      && Passed(l, r.value.0, 6) == Passed(l, a, 6) + r.value.1.visited
      && (r.value.1.ready <==> r.value.0.stage.Ready?)
      && (r.value.1.ready || r.value.1.visited == limit)
    ensures r.Err? ==> Stopped(l, a.stage, r.error)
  {
    var record, visited := a, 0;
    while visited < limit && !record.stage.Ready?
      invariant Exact(self, l, record) && BytesKept(l, record.stage)
      invariant Continues(a, record)
      invariant visited <= limit && Passed(l, record, 6) == Passed(l, a, 6) + visited
      decreases Remaining(record.stage), limit - visited
    {
      var step, counted := RebuildStep(self, l, record);
      if step.Err? {
        return Err(step.error);
      }
      record := step.value;
      visited := visited + if counted then 1 else 0;
    }
    r := Ok((record, Maintenance(visited, record.stage.Ready?, 0)));
  }
}
