/** Quota-scoped collection of stored bytes and reconstruction of its nominations. */
module PayloadCollect {
  import opened Wrappers
  import opened Sums
  import opened OrderedKeys
  import opened PayloadTables
  import opened PayloadLifecycle
  import opened PayloadAccounting
  import opened PayloadBracket
  import opened PayloadBracketProofs
  import opened PayloadRebuild

  function Nominate(a: Accounting, h: Hash): Accounting {
    a.(provenance := a.provenance + {h}, queue := a.queue + {h})
  }

  /** A consumed nomination; its provenance stays. */
  function Consume(a: Accounting, h: Hash): Accounting {
    a.(queue := a.queue - {h})
  }

  function Erase(l: Lifecycle, h: Hash): Lifecycle {
    l.(store := l.store - {h})
  }

  datatype Collected = Collected(life: Lifecycle, acct: Accounting, removed: int)

  /** Visit one nomination: collect it, keep it because it is too large now, or consume it as blocked. */
  function Collect(l: Lifecycle, a: Accounting, h: Hash, maxBytes: int): Result<Collected> {
    if !HashValid(l, a, h) || h !in a.hashes then Err(AccountingInvariant)
    else if a.hashes[h].references != 0 || a.hashes[h].protectedHistory then Ok(Collected(l, Consume(a, h), 0))
    else if StoredLen(l, h) > maxBytes then Ok(Collected(l, a, 0))
    else if a.unique < StoredLen(l, h) then Err(Overflow)
    else Ok(Collected(
      Erase(l, h),
      Consume(a, h).(unique := a.unique - StoredLen(l, h)),
      StoredLen(l, h)))
  }

  /** What must hold between any two transactions. */
  ghost predicate StoreInvariant(self: Author, l: Lifecycle, a: Accounting) {
    && Base(self, l)
    && NonNegative(l.store)
    && Exact(self, l, a)
    && BytesKept(l, a.stage)
    && Queued(self, l, a)
    && Provenance(l, a)
  }

  lemma GuardExact(self: Author, l: Lifecycle, a: Accounting, h: Hash)
    requires Exact(self, l, a) && a.stage.Ready?
    ensures Row(a.hashes, h).references == |References(All(self, l), h)|
    ensures Row(a.hashes, h).protectedHistory == ProtectedBy(All(self, l), h)
    ensures KnownHash(l, h) ==> h in a.hashes
  {
    CountedAll(self, l, a.stage);
    if KnownHash(l, h) {
      var id :| id in l.events && l.events[id].hash == h;
      assert id in All(self, l) && All(self, l)[id].hash == h;
    }
  }

  lemma UniqueCovers(self: Author, l: Lifecycle, a: Accounting, h: Hash)
    requires Exact(self, l, a) && a.stage.Ready? && NonNegative(l.store)
    ensures a.unique == Sum<Hash>(l.store)
    ensures Sum<Hash>(l.store - {h}) == a.unique - StoredLen(l, h) && 0 <= StoredLen(l, h) <= a.unique
  {
    assert StoredCounted(l, a.stage) == l.store;
    SumRemove<Hash>(l.store, h);
    SumNonNegative<Hash>(l.store - {h});
  }

  /** At Ready a queued nomination is never refused. */
  lemma CollectSucceeds(self: Author, l: Lifecycle, a: Accounting, h: Hash, maxBytes: int)
    requires StoreInvariant(self, l, a) && a.stage.Ready? && h in a.queue
    ensures Collect(l, a, h, maxBytes).Ok?
  {
    HashAgrees(self, l, a, h);
    assert KnownHash(l, h);
    GuardExact(self, l, a, h);
    UniqueCovers(self, l, a, h);
  }

  /** Queue, provenance and recovery rows do not enter the totals. */
  lemma ExactKept(self: Author, l: Lifecycle, a: Accounting, b: Accounting)
    requires Exact(self, l, a)
    requires b.stage == a.stage && b.logical == a.logical && b.unique == a.unique
    requires b.hashes == a.hashes && b.authors == a.authors
    ensures Exact(self, l, b)
  {
  }

  lemma EraseExact(self: Author, l: Lifecycle, a: Accounting, b: Accounting, h: Hash)
    requires Exact(self, l, a) && a.stage.Ready? && NonNegative(l.store)
    requires b == Consume(a, h).(unique := a.unique - StoredLen(l, h))
    ensures Exact(self, Erase(l, h), b)
  {
    UniqueCovers(self, l, a, h);
    assert StoredCounted(Erase(l, h), b.stage) == l.store - {h};
    assert Counted(self, Erase(l, h), b.stage) == Counted(self, l, a.stage);
  }

  lemma EraseBase(self: Author, l: Lifecycle, h: Hash)
    requires Base(self, l)
    ensures All(self, Erase(l, h)) == All(self, l) && Base(self, Erase(l, h))
  {
    assert All(self, Erase(l, h)) == All(self, l);
  }

  /** Erased bytes belong to no Missing or Processed event. */
  lemma EraseKeepsBytes(self: Author, l: Lifecycle, h: Hash)
    requires References(All(self, l), h) == {}
    ensures forall stage :: BytesKept(l, stage) ==> BytesKept(Erase(l, h), stage)
    ensures forall lengthOf: Hash -> nat :: Honest(l, lengthOf) ==> Honest(Erase(l, h), lengthOf)
  {
    forall id | Processed(l, id)
      ensures l.events[id].hash != h
    {
      assert id in References(All(self, l), h) <==> l.events[id].hash == h;
    }
  }

  /** Every remaining collectable hash is still queued, also after a blocked visit. */
  lemma ConsumeQueues(self: Author, l: Lifecycle, m: Lifecycle, a: Accounting, b: Accounting, h: Hash)
    requires Queued(self, l, a)
    requires m == l || m == Erase(l, h)
    requires b.provenance == a.provenance && b.queue == a.queue - {h}
    requires h in m.store && h !in m.rc ==> ProtectedBy(All(self, l), h)
    ensures Queued(self, m, b)
  {
    assert All(self, m) == All(self, l);
    forall x | x in b.provenance
      ensures KnownHash(m, x)
    {
      var id :| id in l.events && l.events[id].hash == x;
      assert id in m.events && m.events[id].hash == x;
    }
    forall x: Hash | Collectable(self, m, b, x)
      ensures x in b.queue
    {
      assert Collectable(self, l, a, x);
    }
  }

  lemma ConsumeKeeps(self: Author, l: Lifecycle, a: Accounting, h: Hash)
    requires StoreInvariant(self, l, a) && a.stage.Ready?
    requires h in a.hashes && (a.hashes[h].references != 0 || a.hashes[h].protectedHistory)
    ensures StoreInvariant(self, l, Consume(a, h))
  {
    GuardExact(self, l, a, h);
    assert Get(l.rc, h) == |References(All(self, l), h)|;
    ExactKept(self, l, a, Consume(a, h));
    ConsumeQueues(self, l, l, a, Consume(a, h), h);
  }

  lemma EraseKeeps(self: Author, l: Lifecycle, a: Accounting, b: Accounting, h: Hash)
    requires StoreInvariant(self, l, a) && a.stage.Ready?
    requires Row(a.hashes, h).references == 0
    requires b == Consume(a, h).(unique := a.unique - StoredLen(l, h))
    ensures StoreInvariant(self, Erase(l, h), b)
    ensures References(All(self, l), h) == {}
  {
    GuardExact(self, l, a, h);
    EraseExact(self, l, a, b, h);
    EraseBase(self, l, h);
    EraseKeepsBytes(self, l, h);
    ConsumeQueues(self, l, Erase(l, h), a, b, h);
  }

  /** Only unreferenced, unprotected, nominated bytes leave the store, and exactly those are reported. */
  ghost predicate CollectedOnly(self: Author, l: Lifecycle, m: Lifecycle, a: Accounting, removed: int) {
    && m == l.(store := m.store)
    && (forall h | h in m.store :: h in l.store && m.store[h] == l.store[h])
    && (forall h | h in l.store && h !in m.store ::
         h in a.queue && References(All(self, l), h) == {} && !ProtectedBy(All(self, l), h))
    && removed == Sum<Hash>(l.store) - Sum<Hash>(m.store)
  }

  /** What one visit must leave behind. */
  ghost predicate CollectedWell(self: Author, l: Lifecycle, a: Accounting, maxBytes: int, r: Collected) {
    && StoreInvariant(self, r.life, r.acct) && r.acct.stage.Ready?
    && CollectedOnly(self, l, r.life, a, r.removed)
    && 0 <= r.removed && (0 < r.removed ==> r.removed <= maxBytes)
  }

  lemma NothingCollected(self: Author, l: Lifecycle, a: Accounting)
    ensures CollectedOnly(self, l, l, a, 0)
  {
  }

  lemma ErasesOnly(self: Author, l: Lifecycle, a: Accounting, h: Hash)
    requires Exact(self, l, a) && NonNegative(l.store) && a.stage.Ready? && h in a.queue
    requires Row(a.hashes, h).references == 0 && !Row(a.hashes, h).protectedHistory
    ensures CollectedOnly(self, l, Erase(l, h), a, StoredLen(l, h)) && 0 <= StoredLen(l, h)
  {
    UniqueCovers(self, l, a, h);
    GuardExact(self, l, a, h);
  }

  lemma CollectErases(self: Author, l: Lifecycle, a: Accounting, b: Accounting, h: Hash, maxBytes: int)
    requires StoreInvariant(self, l, a) && a.stage.Ready? && h in a.queue && StoredLen(l, h) <= maxBytes
    requires Row(a.hashes, h).references == 0 && !Row(a.hashes, h).protectedHistory
    requires b == Consume(a, h).(unique := a.unique - StoredLen(l, h))
    ensures CollectedWell(self, l, a, maxBytes, Collected(Erase(l, h), b, StoredLen(l, h)))
  {
    EraseKeeps(self, l, a, b, h);
    ErasesOnly(self, l, a, h);
  }

  /** Some retained event still wants bytes under this hash. */
  ghost predicate Used(l: Lifecycle, h: Hash) {
    exists id :: id in l.events && l.events[id].hash == h && (id !in l.states || l.states[id] == Missing)
  }

  /** Some event under this hash is the account's own, or no social post: its bytes are kept for replay. */
  ghost predicate Guarded(self: Author, l: Lifecycle, h: Hash) {
    exists id :: id in l.events && l.events[id].hash == h && (l.events[id].author == self || !l.events[id].social)
  }

  lemma UsedIff(self: Author, l: Lifecycle, h: Hash)
    ensures References(All(self, l), h) == {} <==> !Used(l, h)
  {
    if Used(l, h) {
      var id :| id in l.events && l.events[id].hash == h && (id !in l.states || l.states[id] == Missing);
      assert id in References(All(self, l), h);
    }
  }

  lemma GuardedIff(self: Author, l: Lifecycle, h: Hash)
    ensures ProtectedBy(All(self, l), h) <==> Guarded(self, l, h)
  {
    if Guarded(self, l, h) {
      var id :| id in l.events && l.events[id].hash == h && (l.events[id].author == self || !l.events[id].social);
      assert id in All(self, l) && All(self, l)[id].protected;
    }
  }

  /** A decision about a released social post of another author. */
  ghost predicate GoodDecision(self: Author, l: Lifecycle, id: EventId) {
    && id in l.events && l.events[id].author != self && l.events[id].social
    && id in l.states && (l.states[id] == Pruned || l.states[id] == Deleted)
  }

  ghost predicate BadDecision(self: Author, l: Lifecycle) {
    exists id :: id in l.quotaPruned && !GoodDecision(self, l, id)
  }

  /** What a visit does: blocked by a reference or by history it consumes the nomination, too large it keeps it, otherwise it collects. */
  ghost predicate Settles(self: Author, l: Lifecycle, a: Accounting, h: Hash, maxBytes: int, r: Collected) {
    var bytes := if h in l.store then l.store[h] else 0;
    if Used(l, h) || Guarded(self, l, h) then r == Collected(l, a.(queue := a.queue - {h}), 0)
    else if maxBytes < bytes then r == Collected(l, a, 0)
    else r == Collected(l.(store := l.store - {h}), a.(queue := a.queue - {h}, unique := a.unique - bytes), bytes)
  }

  /** The recorded guards decide as the true references and the true history do. */
  lemma CollectSettles(self: Author, l: Lifecycle, a: Accounting, h: Hash, maxBytes: int)
    requires Exact(self, l, a) && a.stage.Ready? && Collect(l, a, h, maxBytes).Ok?
    ensures h in a.hashes && Settles(self, l, a, h, maxBytes, Collect(l, a, h, maxBytes).value)
    ensures References(All(self, l), h) == {} <==> a.hashes[h].references == 0
  {
    GuardExact(self, l, a, h);
    UsedIff(self, l, h);
    GuardedIff(self, l, h);
  }

  /** The three outcomes of an accepted visit. */
  lemma CollectCases(l: Lifecycle, a: Accounting, h: Hash, maxBytes: int)
    requires Collect(l, a, h, maxBytes).Ok? && h in a.hashes
    ensures var r := Collect(l, a, h, maxBytes).value;
      if a.hashes[h].references != 0 || a.hashes[h].protectedHistory then r == Collected(l, Consume(a, h), 0)
      else if maxBytes < StoredLen(l, h) then r == Collected(l, a, 0)
      else r == Collected(Erase(l, h), Consume(a, h).(unique := a.unique - StoredLen(l, h)), StoredLen(l, h))
  {
  }

  /** Visiting a queued nomination at Ready is never refused, and collects only what nothing needs. */
  lemma CollectKeeps(self: Author, l: Lifecycle, a: Accounting, h: Hash, maxBytes: int)
    requires StoreInvariant(self, l, a) && a.stage.Ready? && h in a.queue
    ensures Collect(l, a, h, maxBytes).Ok? && CollectedWell(self, l, a, maxBytes, Collect(l, a, h, maxBytes).value)
  {
    CollectSucceeds(self, l, a, h, maxBytes);
    CollectCases(l, a, h, maxBytes);
    NothingCollected(self, l, a);
    if a.hashes[h].references != 0 || a.hashes[h].protectedHistory {
      ConsumeKeeps(self, l, a, h);
    } else if StoredLen(l, h) <= maxBytes {
      CollectErases(self, l, a, Consume(a, h).(unique := a.unique - StoredLen(l, h)), h, maxBytes);
    }
  }

  /** One bounded collection step after an exclusive cursor. */
  method CollectStep(self: Author, l: Lifecycle, a: Accounting, after: Option<Hash>, maxBytes: int)
    returns (r: Result<Collected>, visited: Option<Hash>)
    requires StoreInvariant(self, l, a)
    ensures r.Err? <==> !a.stage.Ready?
    ensures r.Ok? ==> CollectedWell(self, l, a, maxBytes, r.value)
    ensures r.Ok? ==> IsNext(a.queue, after, visited)
    ensures r.Ok? ==> if visited.None? then r.value == Collected(l, a, 0) else Settles(self, l, a, visited.value, maxBytes, r.value)
  {
    visited := None;
    if !a.stage.Ready? {
      return Err(AccountingNotReady), None;
    }
    var next := Next(a.queue, after);
    if next.None? {
      NothingCollected(self, l, a);
      return Ok(Collected(l, a, 0)), None;
    }
    visited := Some(next.value);
    CollectKeeps(self, l, a, next.value, maxBytes);
    CollectSettles(self, l, a, next.value, maxBytes);
    r := Collect(l, a, next.value, maxBytes);
  }

  lemma NominateKeeps(self: Author, l: Lifecycle, a: Accounting, id: EventId, recovery: QuotaRecovery)
    requires StoreInvariant(self, l, a) && id in l.events
    requires forall e | e in l.quotaPruned && Recovers(recovery, e) :: e == id || Recovers(a.recovery, e)
    ensures StoreInvariant(self, l, Nominate(a, l.events[id].hash).(recovery := recovery))
  {
    var h := l.events[id].hash;
    var b := Nominate(a, h).(recovery := recovery);
    assert KnownHash(l, h);
    forall x: Hash | Collectable(self, l, b, x)
      ensures x in b.queue
    {
      if x != h {
        assert Collectable(self, l, a, x);
      }
    }
  }

  predicate QuotaRowValid(self: Author, l: Lifecycle, id: EventId) {
    && id in l.events
    && l.events[id].author != self
    && l.events[id].social
    && (StateOf(l, id) == Some(Pruned) || StateOf(l, id) == Some(Deleted))
  }

  /** The decisions the recovery scan has passed. */
  function PassedDecisions(l: Lifecycle, recovery: QuotaRecovery): set<EventId> {
    set id | id in l.quotaPruned && Recovers(recovery, id)
  }

  /** The hashes of the decisions passed between two points of the scan. */
  function Between(l: Lifecycle, from: QuotaRecovery, to: QuotaRecovery): set<Hash> {
    set id | id in PassedDecisions(l, to) && id !in PassedDecisions(l, from) && id in l.events :: l.events[id].hash
  }

  /** The accounting with the recovery scan moved on, and its findings nominated. */
  function Nominated(l: Lifecycle, a: Accounting, recovery: QuotaRecovery): Accounting {
    var found := Between(l, a.recovery, recovery);
    a.(provenance := a.provenance + found, queue := a.queue + found, recovery := recovery)
  }

  /** The scan has not gone back. */
  ghost predicate Further(l: Lifecycle, from: QuotaRecovery, to: QuotaRecovery) {
    forall e | e in l.quotaPruned :: Recovers(from, e) ==> Recovers(to, e)
  }

  lemma NominateNext(l: Lifecycle, a: Accounting, record: Accounting, id: EventId)
    requires record == Nominated(l, a, record.recovery) && Further(l, a.recovery, record.recovery) && record.recovery.Scanning?
    requires IsNext(l.quotaPruned, record.recovery.cursor, Some(id)) && id in l.events
    ensures Nominate(record, l.events[id].hash).(recovery := Scanning(Some(id))) == Nominated(l, a, Scanning(Some(id)))
    ensures Further(l, a.recovery, Scanning(Some(id)))
    ensures |PassedDecisions(l, Scanning(Some(id)))| == |PassedDecisions(l, record.recovery)| + 1
  {
    var was, now := record.recovery, Scanning(Some(id));
    assert PassedDecisions(l, now) == PassedDecisions(l, was) + {id};
    assert Between(l, a.recovery, now) == Between(l, a.recovery, was) + {l.events[id].hash};
  }

  lemma NominateEnd(l: Lifecycle, a: Accounting, record: Accounting)
    requires record == Nominated(l, a, record.recovery) && record.recovery.Scanning?
    requires IsNext(l.quotaPruned, record.recovery.cursor, None)
    ensures record.(recovery := Recovered) == Nominated(l, a, Recovered)
    ensures PassedDecisions(l, Recovered) == PassedDecisions(l, record.recovery)
  {
    assert PassedDecisions(l, Recovered) == PassedDecisions(l, record.recovery);
  }

  /** Every decision passed between two points of the scan is a good one. */
  ghost predicate GoodBetween(self: Author, l: Lifecycle, from: QuotaRecovery, to: QuotaRecovery) {
    forall id | id in PassedDecisions(l, to) && id !in PassedDecisions(l, from) :: GoodDecision(self, l, id)
  }

  lemma GoodNext(self: Author, l: Lifecycle, from: QuotaRecovery, to: QuotaRecovery, id: EventId)
    requires GoodBetween(self, l, from, to) && to.Scanning? && IsNext(l.quotaPruned, to.cursor, Some(id))
    requires QuotaRowValid(self, l, id)
    ensures GoodBetween(self, l, from, Scanning(Some(id)))
  {
    forall e | e in PassedDecisions(l, Scanning(Some(id))) && e !in PassedDecisions(l, from)
      ensures GoodDecision(self, l, e)
    {
      assert e == id || e in PassedDecisions(l, to);
    }
  }

  lemma RecoveredKeeps(self: Author, l: Lifecycle, record: Accounting)
    requires StoreInvariant(self, l, record) && record.recovery.Scanning?
    requires IsNext(l.quotaPruned, record.recovery.cursor, None)
    ensures StoreInvariant(self, l, record.(recovery := Recovered))
  {
    forall h: Hash | Collectable(self, l, record.(recovery := Recovered), h) ensures h in record.queue {
      assert Collectable(self, l, record, h);
    }
  }

  /** One turn of the recovery scan: its end, or one decision. */
  method NominationStep(self: Author, l: Lifecycle, ghost a: Accounting,
                        record: Accounting) returns (r: Result<Accounting>)
    requires StoreInvariant(self, l, record) && record.recovery.Scanning?
    requires record == Nominated(l, a, record.recovery) && Further(l, a.recovery, record.recovery)
    requires GoodBetween(self, l, a.recovery, record.recovery)
    ensures r.Ok? ==> GoodBetween(self, l, a.recovery, r.value.recovery)
    ensures r.Ok? ==>
      && StoreInvariant(self, l, r.value)
      && r.value == Nominated(l, a, r.value.recovery) && Further(l, a.recovery, r.value.recovery)
    ensures r.Ok? ==>
      |PassedDecisions(l, r.value.recovery)| == |PassedDecisions(l, record.recovery)| + if r.value.recovery.Recovered? then 0 else 1
    ensures r.Err? ==> r.error.AccountingInvariant? && BadDecision(self, l)
  {
    var next := Next(l.quotaPruned, record.recovery.cursor);
    if next.None? {
      NominateEnd(l, a, record);
      RecoveredKeeps(self, l, record);
      return Ok(record.(recovery := Recovered));
    }
    var id: EventId := next.value;
    if !QuotaRowValid(self, l, id) {
      return Err(AccountingInvariant);
    }
    NominateKeeps(self, l, record, id, Scanning(Some(id)));
    NominateNext(l, a, record, id);
    GoodNext(self, l, a.recovery, record.recovery, id);
    return Ok(Nominate(record, l.events[id].hash).(recovery := Scanning(Some(id))));
  }

  /** Resume the scan of quota decisions; a finished scan leaves provenance for every decision. */
  method RebuildNominations(self: Author, l: Lifecycle, a: Accounting, limit: nat)
    returns (r: Result<(Accounting, Maintenance)>)
    requires StoreInvariant(self, l, a)
    ensures r.Ok? ==> StoreInvariant(self, l, r.value.0) && r.value.0 == Nominated(l, a, r.value.0.recovery)
    ensures r.Ok? ==> GoodBetween(self, l, a.recovery, r.value.0.recovery)
    ensures r.Ok? ==> var done := r.value.1;
      && done.visited <= limit && done.removedBytes == 0
      && (done.ready <==> r.value.0.recovery.Recovered?)
      && (done.ready || done.visited == limit)
      && |PassedDecisions(l, r.value.0.recovery)| == |PassedDecisions(l, a.recovery)| + done.visited
      && (done.ready ==> forall id | id in l.quotaPruned :: id in l.events && l.events[id].hash in r.value.0.provenance)
    ensures r.Err? ==> r.error.AccountingInvariant? && BadDecision(self, l)
  {
    var record, visited := a, 0;
    assert Between(l, a.recovery, a.recovery) == {};
    while visited < limit && record.recovery.Scanning?
      invariant StoreInvariant(self, l, record)
      invariant record == Nominated(l, a, record.recovery) && Further(l, a.recovery, record.recovery)
      invariant GoodBetween(self, l, a.recovery, record.recovery)
      invariant visited <= limit && |PassedDecisions(l, record.recovery)| == |PassedDecisions(l, a.recovery)| + visited
      decreases record.recovery.Scanning?, limit - visited
    {
      var step := NominationStep(self, l, a, record);
      if step.Err? {
        return Err(step.error);
      }
      record := step.value;
      visited := visited + if record.recovery.Recovered? then 0 else 1;
    }
    r := Ok((record, Maintenance(visited, record.recovery.Recovered?, 0)));
  }
}
