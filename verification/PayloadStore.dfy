/** The transactional store: every run of ingestion, rebuild, nomination and collection steps. */
module PayloadStore {
  import opened Wrappers
  import opened Sums
  import opened OrderedKeys
  import opened PayloadTables
  import opened PayloadLifecycle
  import opened PayloadAccounting
  import opened PayloadBracket
  import opened PayloadBracketProofs
  import opened PayloadRoom
  import opened PayloadRebuild
  import opened PayloadCollect

  /** Received content, with the hash and length that verification compares to the envelope. */
  datatype Payload = Payload(hash: Hash, len: nat)

  datatype Op =
    | ReceiveEnvelope(envelope: Envelope)
    | ReceiveContent(event: EventId, parentAux: Option<EventId>, payload: Payload, valid: bool, admitted: bool)
    | PruneForQuota(victim: EventId, parent: Option<EventId>, processed: bool, authorized: bool)
    | RebuildAccounting(rebuildLimit: nat)
    | RebuildQuotaNominations(nominationLimit: nat)
    | CollectGarbage(after: Option<Hash>, maxBytes: int)

  /** Quota may release only a remote, non-empty social post in the state its caller selected. */
  predicate QuotaEligible(self: Author, l: Lifecycle, id: EventId, processed: bool, authorized: bool) {
    && id in l.events
    && (if processed then StateOf(l, id) == None else StateOf(l, id) == Some(Missing))
    && l.events[id].author != self && l.events[id].social && 0 < l.events[id].len
    && authorized
  }

  /** An event is pruned for quota once, and only while accounting is exact. */
  predicate QuotaAllowed(self: Author, l: Lifecycle, stage: Stage, id: EventId, processed: bool, authorized: bool) {
    stage.Ready? && QuotaEligible(self, l, id, processed, authorized) && id !in l.quotaPruned
  }

  /** What permits a quota prune, in terms of the tables alone. */
  ghost predicate QuotaPermits(self: Author, l: Lifecycle, stage: Stage, id: EventId, processed: bool, authorized: bool) {
    && stage == Ready && authorized && id in l.events && id !in l.quotaPruned
    && l.events[id].author != self && l.events[id].social && l.events[id].len != 0
    && if processed then id !in l.states else id in l.states && l.states[id] == Missing
  }

  /** A rebuild may start over on any consistent lifecycle tables. */
  lemma FreshValid(self: Author, l: Lifecycle)
    requires Base(self, l) && NonNegative(l.store)
    ensures StoreInvariant(self, l, FRESH)
  {
    var none := Counted(self, l, FRESH.stage);
    assert none == map[];
    assert StoredCounted(l, FRESH.stage) == map[];
    forall x: Author
      ensures Get(FRESH.authors, x) == Sum(LogicalsOf(none, x))
    {
      assert LogicalsOf(none, x) == map[];
    }
    assert Logicals(none) == map[];
    forall h: Hash
      ensures Row(FRESH.hashes, h).references == |References(none, h)|
    {
      assert References(none, h) == {};
    }
  }

  lemma ProvenanceKept(l: Lifecycle, m: Lifecycle, a: Accounting, b: Accounting, ids: set<EventId>, hashes: set<Hash>)
    requires Provenance(l, a) && NonNegative(l.store) && Touches(l, m, ids, hashes)
    requires forall id | id in m.quotaPruned && id !in l.quotaPruned :: id in m.events && m.events[id].hash in a.provenance
    requires b.provenance == a.provenance && b.recovery == a.recovery
    ensures Provenance(m, b) && NonNegative(m.store)
  {
  }

  /** One bracketed reducer keeps the whole invariant. */
  lemma ReducerKeeps(self: Author, l: Lifecycle, m: Lifecycle, a: Accounting, before: Before, ids: set<EventId>,
                     hashes: set<Hash>)
    requires StoreInvariant(self, l, a) && Reduces(self, l, m, ids, hashes)
    requires CapturesEvents(self, l, before.events, ids) && CapturesHashes(l, before.hashes, hashes)
    requires forall id | id in m.quotaPruned && id !in l.quotaPruned :: id in m.events && m.events[id].hash in a.provenance
    requires PayloadAfter(self, m, a, before).Ok?
    ensures StoreInvariant(self, m, PayloadAfter(self, m, a, before).value)
  {
    var b := PayloadAfter(self, m, a, before).value;
    BracketExact(self, l, m, a, before, ids, hashes);
    BracketKeepsBytes(self, l, m, a, before, ids, hashes);
    BracketQueues(self, l, m, a, b, ids, hashes);
    ProvenanceKept(l, m, a, b, ids, hashes);
  }

  /** At Ready the published totals are the true ones, and reference rows are the true counts. */
  lemma ReadyExact(self: Author, l: Lifecycle, a: Accounting)
    requires StoreInvariant(self, l, a) && a.stage.Ready?
    ensures a.logical == Sum(Logicals(All(self, l)))
    ensures forall x: Author :: Get(a.authors, x) == Sum(LogicalsOf(All(self, l), x)) == Get(l.usage, x)
    ensures a.unique == Sum<Hash>(l.store)
    ensures forall h: Hash :: Row(a.hashes, h).references == |References(All(self, l), h)| == Get(l.rc, h)
    ensures forall h: Hash :: Row(a.hashes, h).protectedHistory == ProtectedBy(All(self, l), h)
    ensures AllStored(l)
  {
    CountedAll(self, l, a.stage);
    assert StoredCounted(l, a.stage) == l.store;
    forall x: Author
      ensures Get(a.authors, x) == Sum(LogicalsOf(All(self, l), x)) == Get(l.usage, x)
    {
    }
    forall h: Hash
      ensures Row(a.hashes, h).references == |References(All(self, l), h)| == Get(l.rc, h)
    {
    }
  }

  // The published totals in terms of the tables alone.

  ghost function PayloadBytes(l: Lifecycle): map<EventId, int> {
    map id | id in l.events :: if id in l.states then 0 else l.events[id].len
  }

  ghost function PayloadBytesBy(l: Lifecycle, x: Author): map<EventId, int> {
    map id | id in l.events && l.events[id].author == x :: if id in l.states then 0 else l.events[id].len
  }

  ghost function Users(l: Lifecycle, h: Hash): set<EventId> {
    set id | id in l.events && l.events[id].hash == h && (id !in l.states || l.states[id] == Missing)
  }

  lemma SumsMean(self: Author, l: Lifecycle, x: Author, h: Hash)
    ensures Logicals(All(self, l)) == PayloadBytes(l) && LogicalsOf(All(self, l), x) == PayloadBytesBy(l, x)
    ensures References(All(self, l), h) == Users(l, h)
  {
  }

  /**
   What the totals of an account at Ready stand for: the lengths of its processed payloads, per author
   too, the lengths of its stored values, the events that want each hash, and the hashes kept for replay.
   */
  lemma ReadyMeans(self: Author, l: Lifecycle, a: Accounting, x: Author, h: Hash)
    requires StoreInvariant(self, l, a) && a.stage.Ready?
    ensures a.logical == Sum<EventId>(PayloadBytes(l)) && a.unique == Sum<Hash>(l.store)
    ensures Get<Author>(a.authors, x) == Get<Author>(l.usage, x) == Sum<EventId>(PayloadBytesBy(l, x))
    ensures (if h in a.hashes then a.hashes[h].references else 0) == Get<Hash>(l.rc, h) == |Users(l, h)|
    ensures (h in a.hashes && a.hashes[h].protectedHistory) <==> Guarded(self, l, h)
    ensures forall id | id in l.events && id !in l.states ::
      l.events[id].hash in l.store && l.store[l.events[id].hash] == l.events[id].len
  {
    ReadyExact(self, l, a);
    SumsMean(self, l, x, h);
    GuardedIff(self, l, h);
    assert Get(a.authors, x) == Sum(LogicalsOf(All(self, l), x)) == Get(l.usage, x);
    assert Row(a.hashes, h).references == |References(All(self, l), h)| == Get(l.rc, h);
    assert Row(a.hashes, h).protectedHistory == ProtectedBy(All(self, l), h);
    forall id | id in l.events && id !in l.states
      ensures l.events[id].hash in l.store && l.store[l.events[id].hash] == l.events[id].len
    {
      assert Processed(l, id) && WellStored(l, l.events[id]);
    }
  }

  /** What verification of received bytes establishes about their length. */
  predicate HonestOp(op: Op, lengthOf: Hash -> nat) {
    match op
    case ReceiveEnvelope(e) => e.header.len == 0 ==> lengthOf(e.header.hash) == 0
    case ReceiveContent(_, _, payload, _, _) => payload.len == lengthOf(payload.hash)
    case _ => true
  }

  ghost predicate BadBytes(l: Lifecycle, id: EventId) {
    Processed(l, id) && !WellStored(l, l.events[id])
  }

  /** No captured Processed event has stored bytes of a wrong length. */
  ghost predicate CapturedSound(l: Lifecycle, id: EventId, parentAux: Option<EventId>) {
    forall e | e in CapturedIds(id, parentAux) :: !BadBytes(l, e)
  }

  /** The tables after a reducer leave no captured and covered event without its bytes. */
  ghost predicate NoneMisStored(next: Lifecycle, stage: Stage, id: EventId, parentAux: Option<EventId>) {
    forall e | e in CapturedIds(id, parentAux) :: !MisStored(next, stage, e)
  }

  /** Every new quota decision has left its provenance. */
  ghost predicate DecisionsProven(l: Lifecycle, next: Lifecycle, a: Accounting) {
    forall e | e in next.quotaPruned && e !in l.quotaPruned :: e in next.events && next.events[e].hash in a.provenance
  }

  lemma CaptureIff(self: Author, l: Lifecycle, id: EventId, hash: Hash, parentAux: Option<EventId>)
    ensures PayloadBefore(self, l, id, hash, parentAux).Ok? <==> CapturedSound(l, id, parentAux)
  {
    assert id in CapturedIds(id, parentAux);
    assert parentAux.Some? ==> parentAux.value in CapturedIds(id, parentAux);
  }

  /** Bracket a reducer that moved the tables to `next`; a refusal rolls the transaction back. */
  method Bracket(self: Author, l: Lifecycle, next: Lifecycle, a: Accounting, id: EventId, hash: Hash,
                 parentAux: Option<EventId>)
    returns (r: Result<Accounting>)
    requires StoreInvariant(self, l, a)
    requires Reduces(self, l, next, CapturedIds(id, parentAux), CapturedHashes(l, id, hash, parentAux))
    requires DecisionsProven(l, next, a)
    ensures r.Ok? ==> StoreInvariant(self, next, r.value)
    ensures r.Ok? ==> r.value.stage == a.stage && r.value.provenance == a.provenance && r.value.recovery == a.recovery
    ensures r.Err? ==>
      r.error.Overflow? || exists e :: e in CapturedIds(id, parentAux) && (BadBytes(l, e) || BadBytes(next, e))
    ensures Roomy(next) ==>
      (r.Ok? <==> CapturedSound(l, id, parentAux) && NoneMisStored(next, a.stage, id, parentAux))
  {
    ghost var ids, hashes := CapturedIds(id, parentAux), CapturedHashes(l, id, hash, parentAux);
    CaptureIff(self, l, id, hash, parentAux);
    var before := PayloadBefore(self, l, id, hash, parentAux);
    if before.Err? {
      return Err(before.error);
    }
    BeforeCaptures(self, l, id, hash, parentAux);
    r := FinishPayload(self, next, a, before.value);
    if Roomy(next) {
      BracketAccepts(self, l, next, a, before.value, ids, hashes);
    }
    if r.Err? {
      BracketRefuses(self, l, next, a, before.value, ids, hashes);
    } else {
      ReducerKeeps(self, l, next, a, before.value, ids, hashes);
      BracketExact(self, l, next, a, before.value, ids, hashes);
    }
  }

  lemma QuotaRow(l: Lifecycle, id: EventId)
    requires id in l.events && QuotaPrune(l, id).Ok?
    ensures QuotaPrune(l, id).value.quotaPruned == l.quotaPruned + {id}
    ensures QuotaPrune(l, id).value.events == l.events
  {
  }

  /** A quota transition as a reducer, with its decision row and nomination. */
  lemma QuotaStep(self: Author, l: Lifecycle, a: Accounting, id: EventId, parentAux: Option<EventId>)
    requires StoreInvariant(self, l, a) && id in l.events && QuotaPrune(l, id).Ok?
    ensures var m, n := QuotaPrune(l, id).value, Nominate(a, l.events[id].hash);
      && Reduces(self, l, m, CapturedIds(id, parentAux), CapturedHashes(l, id, l.events[id].hash, parentAux))
      && StoreInvariant(self, l, n)
      && DecisionsProven(l, m, n)
  {
    QuotaReduces(self, l, id, l.events[id].hash, parentAux);
    QuotaRow(l, id);
    NominateKeeps(self, l, a, id, a.recovery);
    assert Nominate(a, l.events[id].hash) == Nominate(a, l.events[id].hash).(recovery := a.recovery);
  }

  /** While accounting is exact, a prune of a known event leaves no wrong bytes behind. */
  lemma QuotaSound(self: Author, l: Lifecycle, a: Accounting, id: EventId, parentAux: Option<EventId>)
    requires StoreInvariant(self, l, a) && a.stage.Ready? && id in l.events && QuotaPrune(l, id).Ok?
    ensures CapturedSound(l, id, parentAux) && NoneMisStored(QuotaPrune(l, id).value, a.stage, id, parentAux)
  {
    ReadyExact(self, l, a);
    QuotaStored(l, id);
  }

  lemma QuotaRoomy(l: Lifecycle, id: EventId)
    requires Roomy(l) && id in l.events && QuotaPrune(l, id).Ok?
    ensures Roomy(QuotaPrune(l, id).value)
  {
    if Held(StateOf(l, id)) {
      SetStateProcesses(l, id, Pruned);
    }
  }

  /** The quota transaction on the tables: checks, transition, decision row, nomination, bracket. */
  method QuotaTransaction(self: Author, l: Lifecycle, a: Accounting, id: EventId, parentAux: Option<EventId>)
    returns (r: Result<Accounting>)
    requires StoreInvariant(self, l, a) && id in l.events && QuotaPrune(l, id).Ok? && a.stage.Ready?
    ensures r.Ok? ==> StoreInvariant(self, QuotaPrune(l, id).value, r.value)
    ensures r.Ok? ==> r.value.stage == a.stage && r.value.provenance == a.provenance + {l.events[id].hash}
    ensures Roomy(l) ==> r.Ok?
  {
    QuotaStep(self, l, a, id, parentAux);
    QuotaSound(self, l, a, id, parentAux);
    if Roomy(l) {
      QuotaRoomy(l, id);
    }
    r := Bracket(self, l, QuotaPrune(l, id).value, Nominate(a, l.events[id].hash), id, l.events[id].hash, parentAux);
  }

  lemma EnvelopeQuota(l: Lifecycle, e: Envelope, maxLen: nat)
    requires IngestEnvelope(l, e, maxLen).Ok?
    ensures IngestEnvelope(l, e, maxLen).value.quotaPruned == l.quotaPruned
  {
    EnvelopeProcesses(l, e, maxLen);
  }

  lemma ContentQuota(l: Lifecycle, id: EventId, valid: bool, maxLen: nat)
    requires IngestContent(l, id, valid, maxLen).Ok?
    ensures IngestContent(l, id, valid, maxLen).value.quotaPruned == l.quotaPruned
  {
  }

  lemma RebuildKeeps(self: Author, l: Lifecycle, a: Accounting, b: Accounting)
    requires StoreInvariant(self, l, a) && Continues(a, b) && Exact(self, l, b) && BytesKept(l, b.stage)
    ensures StoreInvariant(self, l, b)
  {
    forall h: Hash | Collectable(self, l, b, h)
      ensures h in b.queue
    {
      assert Collectable(self, l, a, h);
    }
  }

  ghost predicate HonestKept(l: Lifecycle, m: Lifecycle) {
    forall lengthOf: Hash -> nat :: Honest(l, lengthOf) ==> Honest(m, lengthOf)
  }

  lemma CollectedHonest(self: Author, l: Lifecycle, m: Lifecycle, a: Accounting, removed: int)
    requires CollectedOnly(self, l, m, a, removed)
    ensures HonestKept(l, m)
  {
    forall id | Processed(l, id)
      ensures l.events[id].hash in l.store ==> l.events[id].hash in m.store
    {
      assert id in References(All(self, l), l.events[id].hash);
    }
  }

  /** One collection step after a cursor: nothing follows it, or the next nomination is settled. */
  ghost predicate CollectsNext(self: Author, l: Lifecycle, a: Accounting, after: Option<Hash>, maxBytes: int,
                               visited: Option<Hash>, r: Collected) {
    && IsNext(a.queue, after, visited)
    && if visited.None? then r == Collected(l, a, 0) else Settles(self, l, a, visited.value, maxBytes, r)
  }

  /** The rebuild visits `limit` more rows, or reaches its end. */
  ghost predicate Rebuilds(l: Lifecycle, a: Accounting, b: Accounting, limit: nat) {
    && Continues(a, b) && Passed(l, b, 6) <= Passed(l, a, 6) + limit
    && (b.stage.Ready? || Passed(l, b, 6) == Passed(l, a, 6) + limit)
  }

  /** The recovery scan nominates what it finds in `limit` more decisions, or reaches its end. */
  ghost predicate Renominates(self: Author, l: Lifecycle, a: Accounting, b: Accounting, limit: nat) {
    && b == Nominated(l, a, b.recovery) && GoodBetween(self, l, a.recovery, b.recovery)
    && (b.recovery.Recovered? || |PassedDecisions(l, b.recovery)| == |PassedDecisions(l, a.recovery)| + limit)
  }

  /** At Ready the next nomination is settled, and only its bytes may leave; otherwise nothing happens. */
  ghost predicate CollectsOne(self: Author, l: Lifecycle, a: Accounting, after: Option<Hash>, maxBytes: int,
                              ok: bool, visited: Option<Hash>, c: Collected) {
    && (ok <==> a.stage.Ready?)
    && StoreInvariant(self, c.life, c.acct) && c.acct.stage == a.stage && HonestKept(l, c.life)
    && if ok
       then CollectsNext(self, l, a, after, maxBytes, visited, c) && CollectedOnly(self, l, c.life, a, c.removed) && AllStored(c.life)
       else c == Collected(l, a, 0)
  }

  method CollectTransaction(self: Author, l: Lifecycle, a: Accounting, after: Option<Hash>, maxBytes: int)
    returns (ok: bool, visited: Option<Hash>, c: Collected)
    requires StoreInvariant(self, l, a)
    ensures CollectsOne(self, l, a, after, maxBytes, ok, visited, c)
  {
    var r;
    r, visited := CollectStep(self, l, a, after, maxBytes);
    if r.Err? {
      return false, None, Collected(l, a, 0);
    }
    CollectedHonest(self, l, r.value.life, a, r.value.removed);
    ReadyExact(self, r.value.life, r.value.acct);
    return true, visited, r.value;
  }

  /** What admits an envelope, checked against the tables before it. */
  ghost predicate EnvelopeAdmissible(l: Lifecycle, stage: Stage, e: Envelope, maxLen: nat) {
    && CapturedSound(l, e.id, e.parentAux)
    && !(TrustsEmptyHeader(l, e, maxLen) && EventCounted(stage, e.id) && Get(l.store, e.header.hash) != 0)
  }

  lemma EnvelopeAdmissibleIff(l: Lifecycle, stage: Stage, e: Envelope, maxLen: nat)
    requires IngestEnvelope(l, e, maxLen).Ok? && CapturedSound(l, e.id, e.parentAux)
    ensures EnvelopeAdmissible(l, stage, e, maxLen) <==>
      NoneMisStored(IngestEnvelope(l, e, maxLen).value, stage, e.id, e.parentAux)
  {
    EnvelopeProcesses(l, e, maxLen);
    var m := IngestEnvelope(l, e, maxLen).value;
    assert e.id in CapturedIds(e.id, e.parentAux);
    forall x | x in CapturedIds(e.id, e.parentAux) ensures MisStored(m, stage, x) ==> !EnvelopeAdmissible(l, stage, e, maxLen) {
      assert !BadBytes(l, x);
    }
    if !EnvelopeAdmissible(l, stage, e, maxLen) {
      assert MisStored(m, stage, e.id);
    }
  }

  /** Content would materialize its event, for which admission must have room. */
  predicate Materializes(l: Lifecycle, id: EventId, maxLen: nat) {
    id in l.events && l.events[id].len < maxLen && StateOf(l, id) == Some(Missing)
  }

  /** The condition under which content needs admission, in terms of the tables alone. */
  ghost predicate ContentPauses(l: Lifecycle, id: EventId, maxLen: nat) {
    id in l.events && l.events[id].len < maxLen && id in l.states && l.states[id] == Missing
  }

  /** What admits content: it matches its envelope, and covered bytes it would rely on have the signed length. */
  ghost predicate ContentAdmissible(l: Lifecycle, stage: Stage, id: EventId, parentAux: Option<EventId>,
                                    payload: Payload, valid: bool, maxLen: nat) {
    && (id in l.events ==> l.events[id].hash == payload.hash && l.events[id].len == payload.len)
    && CapturedSound(l, id, parentAux)
    && !(TrustsStoredBytes(l, id, valid, maxLen) && EventCounted(stage, id) && l.store[l.events[id].hash] != l.events[id].len)
  }

  lemma ContentAdmissibleIff(l: Lifecycle, stage: Stage, id: EventId, parentAux: Option<EventId>, payload: Payload,
                             valid: bool, maxLen: nat)
    requires IngestContent(l, id, valid, maxLen).Ok? && CapturedSound(l, id, parentAux)
    requires id in l.events ==> l.events[id].hash == payload.hash && l.events[id].len == payload.len
    ensures ContentAdmissible(l, stage, id, parentAux, payload, valid, maxLen) <==>
      NoneMisStored(IngestContent(l, id, valid, maxLen).value, stage, id, parentAux)
  {
    ContentProcesses(l, id, valid, maxLen);
    var m := IngestContent(l, id, valid, maxLen).value;
    assert id in CapturedIds(id, parentAux);
    forall x | x in CapturedIds(id, parentAux)
      ensures MisStored(m, stage, x) ==> !ContentAdmissible(l, stage, id, parentAux, payload, valid, maxLen)
    {
      assert !BadBytes(l, x);
    }
    if !ContentAdmissible(l, stage, id, parentAux, payload, valid, maxLen) {
      assert MisStored(m, stage, id);
    }
  }

  /** The reduction of an envelope is bracketed by what it captured, and its acceptance can be foretold. */
  lemma EnvelopePrepared(self: Author, l: Lifecycle, a: Accounting, e: Envelope, maxLen: nat)
    requires Base(self, l) && IngestEnvelope(l, e, maxLen).Ok?
    ensures var next := IngestEnvelope(l, e, maxLen).value;
      && Reduces(self, l, next, CapturedIds(e.id, e.parentAux), CapturedHashes(l, e.id, e.header.hash, e.parentAux))
      && DecisionsProven(l, next, a)
      && (CapturedSound(l, e.id, e.parentAux) && NoneMisStored(next, a.stage, e.id, e.parentAux) <==>
            EnvelopeAdmissible(l, a.stage, e, maxLen))
  {
    EnvelopeReduces(self, l, e, maxLen);
    EnvelopeQuota(l, e, maxLen);
    if CapturedSound(l, e.id, e.parentAux) {
      EnvelopeAdmissibleIff(l, a.stage, e, maxLen);
    }
  }

  method EnvelopeTransaction(self: Author, maxLen: nat, l: Lifecycle, a: Accounting, e: Envelope,
                             next: Lifecycle) returns (r: Result<Accounting>)
    requires StoreInvariant(self, l, a) && IngestEnvelope(l, e, maxLen) == Ok(next)
    ensures r.Ok? ==> StoreInvariant(self, next, r.value) && r.value.stage == a.stage
    ensures Roomy(next) ==> (r.Ok? <==> EnvelopeAdmissible(l, a.stage, e, maxLen))
  {
    EnvelopePrepared(self, l, a, e, maxLen);
    r := Bracket(self, l, next, a, e.id, e.header.hash, e.parentAux);
  }

  method ReceiveTransaction(self: Author, maxLen: nat, l: Lifecycle, a: Accounting, e: Envelope)
    returns (ok: bool, m: Lifecycle, b: Accounting)
    requires StoreInvariant(self, l, a)
    ensures StoreInvariant(self, m, b) && b.stage == a.stage
    ensures ok ==> IngestEnvelope(l, e, maxLen) == Ok(m) && EnvelopeEffect(l, e, maxLen, m)
    ensures !ok ==> m == l && b == a
    ensures RoomFor(l, e.header.len) ==> (ok <==> EnvelopeAdmissible(l, a.stage, e, maxLen))
  {
    if RoomFor(l, e.header.len) {
      EnvelopeAccepted(self, l, e, maxLen);
    }
    var next := IngestEnvelope(l, e, maxLen);
    if next.Err? {
      return false, l, a;
    }
    EnvelopeMeans(l, e, maxLen);
    var r := EnvelopeTransaction(self, maxLen, l, a, e, next.value);
    if r.Err? {
      return false, l, a;
    }
    return true, next.value, r.value;
  }

  lemma ContentPrepared(self: Author, l: Lifecycle, a: Accounting, id: EventId, parentAux: Option<EventId>,
                        payload: Payload, valid: bool, maxLen: nat)
    requires Base(self, l) && IngestContent(l, id, valid, maxLen).Ok?
    requires id in l.events ==> l.events[id].hash == payload.hash && l.events[id].len == payload.len
    ensures var next := IngestContent(l, id, valid, maxLen).value;
      && Reduces(self, l, next, CapturedIds(id, parentAux), CapturedHashes(l, id, payload.hash, parentAux))
      && DecisionsProven(l, next, a)
      && (CapturedSound(l, id, parentAux) && NoneMisStored(next, a.stage, id, parentAux) <==>
            ContentAdmissible(l, a.stage, id, parentAux, payload, valid, maxLen))
  {
    ContentReduces(self, l, id, payload.hash, parentAux, valid, maxLen);
    ContentQuota(l, id, valid, maxLen);
    if CapturedSound(l, id, parentAux) {
      ContentAdmissibleIff(l, a.stage, id, parentAux, payload, valid, maxLen);
    }
  }

  method ContentTransaction(self: Author, maxLen: nat, l: Lifecycle, a: Accounting, id: EventId,
                            parentAux: Option<EventId>,
                            payload: Payload, valid: bool, next: Lifecycle)
    returns (r: Result<Accounting>)
    requires StoreInvariant(self, l, a) && IngestContent(l, id, valid, maxLen) == Ok(next)
    requires id in l.events ==> l.events[id].hash == payload.hash && l.events[id].len == payload.len
    ensures r.Ok? ==> StoreInvariant(self, next, r.value) && r.value.stage == a.stage
    ensures Roomy(next) ==> (r.Ok? <==> ContentAdmissible(l, a.stage, id, parentAux, payload, valid, maxLen))
  {
    ContentPrepared(self, l, a, id, parentAux, payload, valid, maxLen);
    r := Bracket(self, l, next, a, id, payload.hash, parentAux);
  }

  datatype State = State(life: Lifecycle, acct: Accounting)

  /** Whether an operation took effect, and for a collection step the nomination it visited and the bytes it removed. */
  datatype Answer = Answer(ok: bool, visited: Option<Hash>, removed: int)

  /** What one operation does to the tables; a refusal changes nothing. */
  ghost predicate Transition(self: Author, maxLen: nat, s: State, op: Op, answer: Answer, t: State) {
    && (!answer.ok ==> t == s)
    && match op
       case ReceiveEnvelope(e) =>
         && (answer.ok ==> IngestEnvelope(s.life, e, maxLen) == Ok(t.life) && t.acct.stage == s.acct.stage)
         && (answer.ok ==> EnvelopeEffect(s.life, e, maxLen, t.life))
         && (RoomFor(s.life, e.header.len) ==> (answer.ok <==> EnvelopeAdmissible(s.life, s.acct.stage, e, maxLen)))
       case ReceiveContent(id, parentAux, payload, valid, admitted) =>
         && (answer.ok ==> IngestContent(s.life, id, valid, maxLen) == Ok(t.life) && t.acct.stage == s.acct.stage)
         && (answer.ok ==> ContentEffect(s.life, id, valid, maxLen, t.life))
         && (answer.ok && id in s.life.events ==> s.life.events[id].hash == payload.hash && s.life.events[id].len == payload.len)
         && (RoomFor(s.life, payload.len) ==>
              (answer.ok <==> ContentAdmissible(s.life, s.acct.stage, id, parentAux, payload, valid, maxLen)
                              && (ContentPauses(s.life, id, maxLen) ==> admitted)))
       case PruneForQuota(id, parentAux, processed, authorized) =>
         && (answer.ok ==> QuotaPermits(self, s.life, s.acct.stage, id, processed, authorized))
         && (answer.ok ==> QuotaPrune(s.life, id) == Ok(t.life) && s.life.events[id].hash in t.acct.provenance)
         && (answer.ok ==> QuotaEffect(s.life, id, t.life))
         && (Roomy(s.life) ==> (answer.ok <==> QuotaPermits(self, s.life, s.acct.stage, id, processed, authorized)))
       case RebuildAccounting(limit) =>
         && t.life == s.life
         && (if answer.ok then Rebuilds(s.life, s.acct, t.acct, limit) else !Roomy(s.life) || MisStoredAhead(s.life, s.acct.stage))
       case RebuildQuotaNominations(limit) =>
         && t.life == s.life
         && (if answer.ok then Renominates(self, s.life, s.acct, t.acct, limit)
             else BadDecision(self, s.life))
       case CollectGarbage(after, maxBytes) =>
         && (answer.ok <==> s.acct.stage.Ready?)
         && (answer.ok ==> CollectsNext(self, s.life, s.acct, after, maxBytes, answer.visited, Collected(t.life, t.acct, answer.removed)))
         && HonestKept(s.life, t.life)
  }

  /** The invariant, and with it the bytes of every covered Processed event. */
  ghost predicate SoundAt(self: Author, states: seq<State>, i: nat)
    requires i < |states|
  {
    StoreInvariant(self, states[i].life, states[i].acct)
  }

  ghost predicate AllSound(self: Author, states: seq<State>) {
    forall i | 0 <= i < |states| :: SoundAt(self, states, i)
  }

  lemma AllSoundNext(self: Author, states: seq<State>, t: State)
    requires AllSound(self, states) && StoreInvariant(self, t.life, t.acct)
    ensures AllSound(self, states + [t])
  {
    forall i | 0 <= i < |states + [t]| ensures SoundAt(self, states + [t], i) {
      assert i < |states| ==> SoundAt(self, states, i);
    }
  }

  /** Operation `i` leads from its state to the next. */
  ghost predicate Leads(self: Author, maxLen: nat, states: seq<State>, ops: seq<Op>, answers: seq<Answer>, i: nat)
    requires i < |ops| == |answers| && |ops| < |states|
  {
    Transition(self, maxLen, states[i], ops[i], answers[i], states[i + 1])
  }

  /** A run: each operation leads from one state to the next. */
  ghost predicate Execution(self: Author, maxLen: nat, states: seq<State>, ops: seq<Op>, answers: seq<Answer>) {
    && |answers| == |ops| && |states| == |ops| + 1
    && (forall i | 0 <= i < |ops| :: Leads(self, maxLen, states, ops, answers, i))
  }

  lemma ExecutionNext(self: Author, maxLen: nat, states: seq<State>, ops: seq<Op>, answers: seq<Answer>, op: Op,
                      answer: Answer, t: State)
    requires Execution(self, maxLen, states, ops, answers)
    requires Transition(self, maxLen, states[|ops|], op, answer, t)
    ensures Execution(self, maxLen, states + [t], ops + [op], answers + [answer])
  {
    var ss, os, rs := states + [t], ops + [op], answers + [answer];
    forall i | 0 <= i < |os| ensures Leads(self, maxLen, ss, os, rs, i) {
      if i < |ops| {
        assert Leads(self, maxLen, states, ops, answers, i);
      }
    }
  }

  ghost predicate AllHonest(ops: seq<Op>, lengthOf: Hash -> nat) {
    forall i | 0 <= i < |ops| :: HonestOp(ops[i], lengthOf)
  }

  ghost predicate HonestState(s: State, lengthOf: Hash -> nat) {
    Honest(s.life, lengthOf)
  }

  lemma TransitionHonest(self: Author, maxLen: nat, s: State, op: Op, answer: Answer, t: State, lengthOf: Hash -> nat)
    requires Transition(self, maxLen, s, op, answer, t) && HonestState(s, lengthOf) && HonestOp(op, lengthOf)
    ensures HonestState(t, lengthOf)
  {
    if answer.ok {
      match op {
        case ReceiveEnvelope(e) => EnvelopeHonest(s.life, e, maxLen, lengthOf);
        case ReceiveContent(id, parentAux, payload, valid, admitted) => ContentHonest(s.life, id, valid, maxLen, lengthOf);
        case PruneForQuota(id, parentAux, processed, authorized) => PruneHonest(s.life, id, lengthOf);
        case _ =>
      }
    }
  }

  lemma LeadsHonest(self: Author, maxLen: nat, states: seq<State>, ops: seq<Op>, answers: seq<Answer>,
                    lengthOf: Hash -> nat, i: nat)
    requires i < |ops| == |answers| && |ops| < |states| && Leads(self, maxLen, states, ops, answers, i)
    requires HonestState(states[i], lengthOf) && AllHonest(ops, lengthOf)
    ensures HonestState(states[i + 1], lengthOf)
  {
    assert HonestOp(ops[i], lengthOf);
    TransitionHonest(self, maxLen, states[i], ops[i], answers[i], states[i + 1], lengthOf);
  }

  lemma {:induction false} HonestRun(self: Author, maxLen: nat, states: seq<State>, ops: seq<Op>,
                                     answers: seq<Answer>, lengthOf: Hash -> nat, i: nat)
    requires Execution(self, maxLen, states, ops, answers) && i <= |ops|
    requires HonestState(states[0], lengthOf) && AllHonest(ops, lengthOf)
    ensures HonestState(states[i], lengthOf)
  {
    if i > 0 {
      HonestRun(self, maxLen, states, ops, answers, lengthOf, i - 1);
      LeadsHonest(self, maxLen, states, ops, answers, lengthOf, i - 1);
    }
  }

  ghost predicate StoredAt(states: seq<State>, i: nat)
    requires i < |states|
  {
    AllStored(states[i].life)
  }

  ghost predicate AlwaysStored(states: seq<State>) {
    forall i | 0 <= i < |states| :: StoredAt(states, i)
  }

  /** When every empty envelope names the empty payload, every Processed event has its bytes after every operation. */
  lemma HonestStates(self: Author, maxLen: nat, states: seq<State>, ops: seq<Op>, answers: seq<Answer>,
                     lengthOf: Hash -> nat)
    requires Execution(self, maxLen, states, ops, answers) && Honest(states[0].life, lengthOf) && AllHonest(ops, lengthOf)
    ensures AlwaysStored(states)
  {
    forall i | 0 <= i < |states| ensures StoredAt(states, i) {
      HonestRun(self, maxLen, states, ops, answers, lengthOf, i);
    }
  }

  // Signed deletions.

  /** The author has deleted this event of its own: it is Deleted if known, and noted until then. */
  ghost predicate Gone(s: State, author: Author, id: EventId) {
    if id in s.life.events then s.life.events[id].author == author ==> id in s.life.states && s.life.states[id] == Deleted
    else (author, id) in s.life.tombstones
  }

  /** An accepted new envelope that signs the deletion of its auxiliary parent deletes it, whether or not it has arrived. */
  lemma DeletionTakes(l: Lifecycle, e: PayloadLifecycle.Envelope, maxLen: nat, m: Lifecycle, acct: Accounting)
    requires EnvelopeEffect(l, e, maxLen, m) && e.id !in l.events && e.deletesParent && e.parentAux.Some?
    requires e.parentAux.value != e.id
    ensures Gone(State(m, acct), e.header.author, e.parentAux.value)
  {
    var parent := e.parentAux.value;
    assert StateAfter(l, e, m, parent) && NoteAfter(l, e, m, (e.header.author, parent));
  }

  lemma EnvelopeGone(l: Lifecycle, e: PayloadLifecycle.Envelope, maxLen: nat, m: Lifecycle, author: Author, id: EventId,
                     a: Accounting, b: Accounting)
    requires EnvelopeEffect(l, e, maxLen, m) && Gone(State(l, a), author, id)
    ensures Gone(State(m, b), author, id)
  {
    if e.id in l.events {
      assert id != e.id ==> SameState(l, m, id);
    } else {
      assert id != e.id ==> StateAfter(l, e, m, id);
      assert NoteAfter(l, e, m, (author, id));
    }
  }

  lemma TransitionGone(self: Author, maxLen: nat, s: State, op: Op, answer: Answer, t: State, author: Author, id: EventId)
    requires Transition(self, maxLen, s, op, answer, t) && Gone(s, author, id)
    ensures Gone(t, author, id)
  {
    if answer.ok {
      match op {
        case ReceiveEnvelope(e) => EnvelopeGone(s.life, e, maxLen, t.life, author, id, s.acct, t.acct);
        case ReceiveContent(x, _, _, valid, _) => assert x != id ==> SameState(s.life, t.life, id);
        case PruneForQuota(x, _, _, _) => assert x != id ==> SameState(s.life, t.life, id);
        case _ =>
      }
    }
  }

  /** Over every run a deleted event stays deleted, and one deleted before it arrives is never processed. */
  lemma {:induction false} DeletedForever(self: Author, maxLen: nat, states: seq<State>, ops: seq<Op>, answers: seq<Answer>,
                                          author: Author, id: EventId, i: nat, j: nat)
    requires Execution(self, maxLen, states, ops, answers) && i <= j <= |ops| && Gone(states[i], author, id)
    ensures Gone(states[j], author, id)
  {
    if i < j {
      DeletedForever(self, maxLen, states, ops, answers, author, id, i, j - 1);
      assert Leads(self, maxLen, states, ops, answers, j - 1);
      TransitionGone(self, maxLen, states[j - 1], ops[j - 1], answers[j - 1], states[j], author, id);
    }
  }

  class Store {
    const self: Author
    const maxLen: nat
    var life: Lifecycle
    var acct: Accounting

    ghost predicate Valid()
      reads this
    {
      StoreInvariant(self, life, acct)
    }

    /** Open over consistent lifecycle tables with no usable accounting. */
    constructor (self: Author, maxLen: nat, life: Lifecycle)
      requires Base(self, life) && NonNegative(life.store)
      ensures Valid() && this.self == self && this.maxLen == maxLen && this.life == life && acct == FRESH
    {
      this.self, this.maxLen, this.life, this.acct := self, maxLen, life, FRESH;
      FreshValid(self, life);
    }

    /** Reduce an envelope; with room it is refused exactly when captured or trusted bytes have a wrong length. */
    method Envelope(e: Envelope) returns (ok: bool)
      requires Valid()
      modifies this
      ensures Valid() && acct.stage == old(acct).stage
      ensures ok ==> IngestEnvelope(old(life), e, maxLen) == Ok(life) && EnvelopeEffect(old(life), e, maxLen, life)
      ensures !ok ==> life == old(life) && acct == old(acct)
      ensures RoomFor(old(life), e.header.len) ==> (ok <==> EnvelopeAdmissible(old(life), old(acct).stage, e, maxLen))
    {
      ok, life, acct := ReceiveTransaction(self, maxLen, life, acct, e);
    }

    /** Reduce received content; with room it is refused exactly when it is not admissible or admission pauses it (`admitted`). */
    method Content(id: EventId, parentAux: Option<EventId>, payload: Payload, valid: bool, admitted: bool) returns (ok: bool)
      requires Valid()
      modifies this
      ensures Valid() && acct.stage == old(acct).stage
      ensures ok ==> IngestContent(old(life), id, valid, maxLen) == Ok(life) && ContentEffect(old(life), id, valid, maxLen, life)
      ensures ok && id in old(life).events ==> old(life).events[id].hash == payload.hash && old(life).events[id].len == payload.len
      ensures !ok ==> life == old(life) && acct == old(acct)
      ensures RoomFor(old(life), payload.len) ==>
        (ok <==> ContentAdmissible(old(life), old(acct).stage, id, parentAux, payload, valid, maxLen)
                 && (ContentPauses(old(life), id, maxLen) ==> admitted))
    {
      if id in life.events && (life.events[id].hash != payload.hash || life.events[id].len != payload.len) {
        return false;
      }
      if Materializes(life, id, maxLen) && !admitted {
        return false;
      }
      if RoomFor(life, payload.len) {
        ContentAccepted(self, life, id, payload.len, valid, maxLen);
      }
      var next := IngestContent(life, id, valid, maxLen);
      if next.Err? {
        return false;
      }
      ContentMeans(life, id, valid, maxLen);
      var r := ContentTransaction(self, maxLen, life, acct, id, parentAux, payload, valid, next.value);
      ok := r.Ok?;
      if ok {
        life, acct := next.value, r.value;
      }
    }

    /** A checked quota transition, nominated for collection in the same transaction; with room every eligible event is pruned. */
    method Quota(id: EventId, parentAux: Option<EventId>, processed: bool, authorized: bool) returns (ok: bool)
      requires Valid()
      modifies this
      ensures Valid() && acct.stage == old(acct).stage
      ensures ok ==> QuotaPermits(self, old(life), old(acct).stage, id, processed, authorized)
      ensures ok ==> QuotaPrune(old(life), id) == Ok(life) && old(life).events[id].hash in acct.provenance
      ensures ok ==> QuotaEffect(old(life), id, life)
      ensures !ok ==> life == old(life) && acct == old(acct)
      ensures Roomy(old(life)) ==> (ok <==> QuotaPermits(self, old(life), old(acct).stage, id, processed, authorized))
    {
      if !QuotaAllowed(self, life, acct.stage, id, processed, authorized) {
        return false;
      }
      if Roomy(life) {
        PruneAccepted(self, life, id);
      }
      var next := QuotaPrune(life, id);
      if next.Err? {
        return false;
      }
      QuotaMeans(life, id);
      var r := QuotaTransaction(self, life, acct, id, parentAux);
      ok := r.Ok?;
      if ok {
        life, acct := next.value, r.value;
      }
    }

    method Rebuild(limit: nat) returns (ok: bool)
      requires Valid()
      modifies this`acct
      ensures Valid()
      ensures !ok ==> acct == old(acct) && (!Roomy(life) || MisStoredAhead(life, acct.stage))
      ensures ok ==> Rebuilds(life, old(acct), acct, limit)
    {
      var r := PayloadRebuild.Rebuild(self, life, acct, limit);
      ok := r.Ok?;
      if ok {
        RebuildKeeps(self, life, acct, r.value.0);
        acct := r.value.0;
      }
    }

    /** Nominate what the recovery scan finds, until it has passed `limit` more decisions or all of them. */
    method Nominations(limit: nat) returns (ok: bool)
      requires Valid()
      modifies this`acct
      ensures Valid() && acct.stage == old(acct).stage
      ensures !ok ==> acct == old(acct) && BadDecision(self, life)
      ensures ok ==> Renominates(self, life, old(acct), acct, limit)
    {
      var r := RebuildNominations(self, life, acct, limit);
      ok := r.Ok?;
      if ok {
        acct := r.value.0;
      }
    }

    /** At Ready the next nomination is settled: bytes leave exactly when unreferenced, unprotected and within the allowance. */
    method Collect(after: Option<Hash>, maxBytes: int) returns (ok: bool, visited: Option<Hash>, removed: int)
      requires Valid()
      modifies this
      ensures Valid() && CollectsOne(self, old(life), old(acct), after, maxBytes, ok, visited, Collected(life, acct, removed))
    {
      var c;
      ok, visited, c := CollectTransaction(self, life, acct, after, maxBytes);
      life, acct, removed := c.life, c.acct, c.removed;
    }

    /** One operation of a run. */
    method Apply(op: Op) returns (answer: Answer)
      requires Valid()
      modifies this
      ensures Valid() && Transition(self, maxLen, old(Here()), op, answer, Here())
    {
      var ok, visited, removed := false, None, 0;
      match op {
        case ReceiveEnvelope(e) => ok := Envelope(e);
        case ReceiveContent(id, parentAux, payload, valid, admitted) => ok := Content(id, parentAux, payload, valid, admitted);
        case PruneForQuota(id, parentAux, processed, authorized) => ok := Quota(id, parentAux, processed, authorized);
        case RebuildAccounting(limit) => ok := Rebuild(limit);
        case RebuildQuotaNominations(limit) => ok := Nominations(limit);
        case CollectGarbage(after, maxBytes) => ok, visited, removed := Collect(after, maxBytes);
      }
      answer := Answer(ok, visited, removed);
    }

    ghost function Here(): State
      reads this
    {
      State(life, acct)
    }

    /** One more operation of a run. */
    method Extend(op: Op, ghost states: seq<State>, ghost ops: seq<Op>,
                  ghost answers: seq<Answer>) returns (answer: Answer, ghost next: seq<State>)
      requires Valid() && AllSound(self, states) && Execution(self, maxLen, states, ops, answers) && states[|ops|] == Here()
      modifies this
      ensures Valid() && AllSound(self, next) && Execution(self, maxLen, next, ops + [op], answers + [answer])
      ensures next == states + [Here()]
    {
      answer := Apply(op);
      ExecutionNext(self, maxLen, states, ops, answers, op, answer, Here());
      AllSoundNext(self, states, Here());
      next := states + [Here()];
    }

    /** Every run: whatever the environment does next, the invariant holds after it. */
    method Run(ops: seq<Op>, ghost lengthOf: Hash -> nat) returns (answers: seq<Answer>, ghost states: seq<State>)
      requires Valid()
      modifies this
      ensures Valid() && Execution(self, maxLen, states, ops, answers) && states[0] == old(Here()) && states[|ops|] == Here()
      ensures AllSound(self, states)
      ensures Honest(states[0].life, lengthOf) && AllHonest(ops, lengthOf) ==> AlwaysStored(states)
    {
      answers, states := [], [Here()];
      assert SoundAt(self, states, 0);
      for i := 0 to |ops|
        invariant Valid() && AllSound(self, states) && Execution(self, maxLen, states, ops[..i], answers)
        invariant states[0] == old(Here()) && states[i] == Here()
      {
        assert ops[..i + 1] == ops[..i] + [ops[i]];
        var answer;
        answer, states := Extend(ops[i], states, ops[..i], answers);
        answers := answers + [answer];
      }
      assert ops[..|ops|] == ops;
      if Honest(states[0].life, lengthOf) && AllHonest(ops, lengthOf) {
        HonestStates(self, maxLen, states, ops, answers, lengthOf);
      }
    }
  }

  // The two ways in which the store trusts bytes it does not check.

  const STORED_POST := Header(1, 7, 5, true)
  const EMPTY_POST := Header(2, 7, 0, true)

  /** Five stored bytes, then an empty envelope that names their hash, before the rebuild has covered it. */
  lemma EmptyEnvelopeCounterexample()
    ensures var l := Lifecycle(map[1 := STORED_POST], map[], map[7 := 5], map[7 := 1], map[1 := 5], {}, {});
      var e := PayloadLifecycle.Envelope(2, EMPTY_POST, None, false);
      && AllStored(l)
      && IngestEnvelope(l, e, 100).Ok?
      && !AllStored(IngestEnvelope(l, e, 100).value)
  {
    var l := Lifecycle(map[1 := STORED_POST], map[], map[7 := 5], map[7 := 1], map[1 := 5], {}, {});
    var e := PayloadLifecycle.Envelope(2, EMPTY_POST, None, false);
    assert l.events.Keys == {1};
    EnvelopeStoredIff(l, e, 100);
  }

  /** The same envelope first: it stores no bytes under the hash, and the five-byte content that follows is not stored. */
  lemma SharedEmptyCounterexample()
    ensures var l := Lifecycle(map[1 := STORED_POST], map[1 := Missing], map[], map[7 := 1], map[1 := 0], {}, {});
      var e := PayloadLifecycle.Envelope(2, EMPTY_POST, None, false);
      && IngestEnvelope(l, e, 100).Ok?
      && var m := IngestEnvelope(l, e, 100).value;
      && AllStored(l) && AllStored(m)
      && IngestContent(m, 1, true, 100).Ok?
      && !AllStored(IngestContent(m, 1, true, 100).value)
  {
    var l := Lifecycle(map[1 := STORED_POST], map[1 := Missing], map[], map[7 := 1], map[1 := 0], {}, {});
    var e := PayloadLifecycle.Envelope(2, EMPTY_POST, None, false);
    assert l.events.Keys == {1};
    EnvelopeStoredIff(l, e, 100);
    ContentStoredIff(IngestEnvelope(l, e, 100).value, 1, true, 100);
  }
}
