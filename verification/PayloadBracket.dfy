/**
 The accounting bracket around every lifecycle reducer: what it captures before,
 and the deltas it applies afterwards to whatever the rebuild cursor covers.
 */
module PayloadBracket {
  import opened Wrappers
  import opened Sums
  import opened PayloadTables
  import opened PayloadLifecycle
  import opened PayloadAccounting

  // The invariant that relates accounting rows to the lifecycle tables.

  /** Contributions of exactly the events the rebuild cursor has covered. */
  ghost function Counted(self: Author, l: Lifecycle, stage: Stage): map<EventId, Contribution> {
    map id | id in l.events && EventCounted(stage, id) :: ContributionOf(self, l.events[id], StateOf(l, id))
  }

  /** Stored lengths of exactly the hashes the rebuild cursor has covered. */
  ghost function StoredCounted(l: Lifecycle, stage: Stage): map<Hash, int> {
    map h | h in l.store && HashCounted(stage, h) :: l.store[h]
  }

  ghost predicate Exact(self: Author, l: Lifecycle, a: Accounting) {
    && Totals(a, Counted(self, l, a.stage))
    && a.unique == Sum(StoredCounted(l, a.stage))
  }

  /** Every covered Processed event still has stored bytes of its signed length. */
  ghost predicate BytesKept(l: Lifecycle, stage: Stage) {
    forall id | Processed(l, id) && EventCounted(stage, id) :: WellStored(l, l.events[id])
  }

  ghost predicate KnownHash(l: Lifecycle, h: Hash) {
    exists id :: id in l.events && l.events[id].hash == h
  }

  /** Stored bytes that quota released and nothing references or protects any more. */
  ghost predicate Collectable(self: Author, l: Lifecycle, a: Accounting, h: Hash) {
    h in l.store && h in a.provenance && h !in l.rc && !ProtectedBy(All(self, l), h)
  }

  /** Collection neither overreaches nor forgets. */
  ghost predicate Queued(self: Author, l: Lifecycle, a: Accounting) {
    && a.queue <= a.provenance
    && (forall h | h in a.provenance :: KnownHash(l, h))
    && (forall h: Hash :: Collectable(self, l, a, h) ==> h in a.queue)
  }

  predicate Recovers(recovery: QuotaRecovery, id: EventId) {
    match recovery
    case Scanning(cursor) => cursor.Some? && id <= cursor.value
    case Recovered => true
  }

  /** Every quota decision the recovery scan has passed left its provenance. */
  ghost predicate Provenance(l: Lifecycle, a: Accounting) {
    forall id | id in l.quotaPruned && Recovers(a.recovery, id) ::
      id in l.events && l.events[id].hash in a.provenance
  }

  // Capture.

  datatype Before = Before(events: seq<(EventId, Option<Contribution>)>, hashes: seq<(Hash, int)>)

  function CaptureHash(l: Lifecycle, hashes: seq<(Hash, int)>, c: Option<Contribution>): seq<(Hash, int)> {
    if c.Some? && forall i | 0 <= i < |hashes| :: hashes[i].0 != c.value.hash
    then hashes + [(c.value.hash, StoredLen(l, c.value.hash))]
    else hashes
  }

  /** Capture the event, its auxiliary parent, and every hash the reducer can write. */
  function PayloadBefore(self: Author, l: Lifecycle, id: EventId, hash: Hash,
                         parentAux: Option<EventId>): Result<Before> {
    var own := CurrentContribution(self, l, id);
    if own.Err? then Err(own.error)
    else
      var hashes := CaptureHash(l, [(hash, StoredLen(l, hash))], own.value);
      if parentAux.None? || parentAux.value == id then Ok(Before([(id, own.value)], hashes))
      else
        var parent := CurrentContribution(self, l, parentAux.value);
        if parent.Err? then Err(parent.error)
        else Ok(Before(
          [(id, own.value), (parentAux.value, parent.value)],
          CaptureHash(l, hashes, parent.value)))
  }

  ghost predicate CapturesEvents(self: Author, l: Lifecycle, es: seq<(EventId, Option<Contribution>)>,
                                 ids: set<EventId>) {
    && (forall i | 0 <= i < |es| :: es[i].1 ==
         if es[i].0 in l.events then Some(ContributionOf(self, l.events[es[i].0], StateOf(l, es[i].0))) else None)
    && (forall i, j | 0 <= i < j < |es| :: es[i].0 != es[j].0)
    && (forall i | 0 <= i < |es| :: es[i].0 in ids)
    && (forall id | id in ids :: exists i :: 0 <= i < |es| && es[i].0 == id)
  }

  ghost predicate CapturesHashes(l: Lifecycle, hs: seq<(Hash, int)>, hashes: set<Hash>) {
    && (forall i | 0 <= i < |hs| :: hs[i].1 == StoredLen(l, hs[i].0))
    && (forall i, j | 0 <= i < j < |hs| :: hs[i].0 != hs[j].0)
    && (forall i | 0 <= i < |hs| :: hs[i].0 in hashes)
    && (forall h | h in hashes :: exists i :: 0 <= i < |hs| && hs[i].0 == h)
  }

  lemma CaptureHashAdds(l: Lifecycle, hs: seq<(Hash, int)>, hashes: set<Hash>, c: Option<Contribution>)
    requires CapturesHashes(l, hs, hashes)
    ensures CapturesHashes(l, CaptureHash(l, hs, c), hashes + (if c.Some? then {c.value.hash} else {}))
  {
    var next := CaptureHash(l, hs, c);
    if next != hs {
      forall h | h in hashes
        ensures exists i :: 0 <= i < |next| && next[i].0 == h
      {
        var i :| 0 <= i < |hs| && hs[i].0 == h;
        assert next[i].0 == h;
      }
      assert next[|hs|].0 == c.value.hash;
    }
  }

  lemma BeforeEvents(self: Author, l: Lifecycle, id: EventId, hash: Hash, parentAux: Option<EventId>)
    requires PayloadBefore(self, l, id, hash, parentAux).Ok?
    ensures CapturesEvents(self, l, PayloadBefore(self, l, id, hash, parentAux).value.events, CapturedIds(id, parentAux))
  {
    var es := PayloadBefore(self, l, id, hash, parentAux).value.events;
    assert es[0].0 == id;
    if parentAux.Some? && parentAux.value != id {
      assert es[1].0 == parentAux.value;
    }
  }

  lemma BeforeHashes(self: Author, l: Lifecycle, id: EventId, hash: Hash, parentAux: Option<EventId>)
    requires PayloadBefore(self, l, id, hash, parentAux).Ok?
    ensures CapturesHashes(l, PayloadBefore(self, l, id, hash, parentAux).value.hashes, CapturedHashes(l, id, hash, parentAux))
  {
    var own := CurrentContribution(self, l, id).value;
    var first := [(hash, StoredLen(l, hash))];
    assert first[0].0 == hash;
    CaptureHashAdds(l, first, {hash}, own);
    var known := {hash} + (if own.Some? then {own.value.hash} else {});
    if parentAux.Some? && parentAux.value != id {
      var parent := CurrentContribution(self, l, parentAux.value).value;
      CaptureHashAdds(l, CaptureHash(l, first, own), known, parent);
      known := known + (if parent.Some? then {parent.value.hash} else {});
    }
    assert known == CapturedHashes(l, id, hash, parentAux);
  }

  /** The capture lists each affected row once, with its value before the reducer. */
  lemma BeforeCaptures(self: Author, l: Lifecycle, id: EventId, hash: Hash, parentAux: Option<EventId>)
    requires PayloadBefore(self, l, id, hash, parentAux).Ok?
    ensures var before := PayloadBefore(self, l, id, hash, parentAux).value;
      && CapturesEvents(self, l, before.events, CapturedIds(id, parentAux))
      && CapturesHashes(l, before.hashes, CapturedHashes(l, id, hash, parentAux))
  {
    BeforeEvents(self, l, id, hash, parentAux);
    BeforeHashes(self, l, id, hash, parentAux);
  }

  // Deltas.

  /** Withdraw the captured contribution of a covered event and add the current one. */
  function AfterEvent(self: Author, l: Lifecycle, a: Accounting,
                      e: (EventId, Option<Contribution>)): Result<Accounting> {
    if !EventCounted(a.stage, e.0) then Ok(a)
    else
      var current := CurrentContribution(self, l, e.0);
      if current.Err? then Err(current.error)
      else
        var withdrawn := if e.1.Some? then AdjustContribution(a, e.1.value, false) else Ok(a);
        if withdrawn.Err? || current.value.None? then withdrawn
        else AdjustContribution(withdrawn.value, current.value.value, true)
  }

  function AfterEvents(self: Author, l: Lifecycle, a: Accounting,
                       es: seq<(EventId, Option<Contribution>)>): Result<Accounting> {
    if es == [] then Ok(a)
    else
      var done := AfterEvents(self, l, a, es[..|es| - 1]);
      if done.Err? then done else AfterEvent(self, l, done.value, es[|es| - 1])
  }

  predicate AuthorsValid(l: Lifecycle, a: Accounting, es: seq<(EventId, Option<Contribution>)>) {
    a.stage.Ready? ==> forall i | 0 <= i < |es| && es[i].0 in l.events :: AuthorValid(l, a, l.events[es[i].0].author)
  }

  /** Replace the captured stored length, recheck the count, and requeue a final quota release. */
  function AfterHash(l: Lifecycle, a: Accounting, h: (Hash, int)): Result<Accounting> {
    var unique := if HashCounted(a.stage, h.0) then a.unique - h.1 + StoredLen(l, h.0) else a.unique;
    if HashCounted(a.stage, h.0) && (a.unique < h.1 || U64_MAX < unique) then Err(Overflow)
    else if a.stage.Ready? && !HashValid(l, a, h.0) then Err(AccountingInvariant)
    else Ok(a.(
      unique := unique,
      queue := if h.0 in a.provenance && h.0 !in l.rc then a.queue + {h.0} else a.queue))
  }

  function AfterHashes(l: Lifecycle, a: Accounting, hs: seq<(Hash, int)>): Result<Accounting> {
    if hs == [] then Ok(a)
    else
      var done := AfterHashes(l, a, hs[..|hs| - 1]);
      if done.Err? then done else AfterHash(l, done.value, hs[|hs| - 1])
  }

  function PayloadAfter(self: Author, l: Lifecycle, a: Accounting, before: Before): Result<Accounting> {
    var events := AfterEvents(self, l, a, before.events);
    if events.Err? then events
    else if !AuthorsValid(l, events.value, before.events) then Err(AccountingInvariant)
    else AfterHashes(l, events.value, before.hashes)
  }

  /** The reducer's finish as the store runs it: one pass over the events, one over the hashes. */
  method FinishPayload(self: Author, l: Lifecycle, a: Accounting, before: Before) returns (r: Result<Accounting>)
    ensures r == PayloadAfter(self, l, a, before)
  {
    r := Ok(a);
    for i := 0 to |before.events|
      invariant r == AfterEvents(self, l, a, before.events[..i])
    {
      assert before.events[..i + 1][..i] == before.events[..i];
      if r.Ok? {
        r := AfterEvent(self, l, r.value, before.events[i]);
      }
    }
    assert before.events[..|before.events|] == before.events;
    if r.Err? {
      return;
    }
    if !AuthorsValid(l, r.value, before.events) {
      return Err(AccountingInvariant);
    }
    var events := r.value;
    for i := 0 to |before.hashes|
      invariant r == AfterHashes(l, events, before.hashes[..i])
    {
      assert before.hashes[..i + 1][..i] == before.hashes[..i];
      if r.Ok? {
        r := AfterHash(l, r.value, before.hashes[i]);
      }
    }
    assert before.hashes[..|before.hashes|] == before.hashes;
  }
}
