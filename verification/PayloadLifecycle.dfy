/**
 The reducers that ingest envelopes and payloads: which state an event moves to,
 and how reference counts and per-author usage follow that move.
 */
module PayloadLifecycle {
  import opened Wrappers
  import opened Sums
  import opened PayloadTables

  // Reference counts and usage rows.

  function IncrementRc(rc: map<Hash, int>, h: Hash): Result<map<Hash, int>> {
    if h in rc && rc[h] == 0 then Err(AccountingInvariant)
    else if Get(rc, h) + 1 > U64_MAX then Err(Overflow)
    else Ok(rc[h := Get(rc, h) + 1])
  }

  /** The last release removes the row; the stored bytes stay for the collector. */
  function DecrementRc(rc: map<Hash, int>, h: Hash): Result<map<Hash, int>> {
    if h !in rc then Err(AccountingInvariant)
    else if rc[h] < 1 then Err(Overflow)
    else if rc[h] == 1 then Ok(rc - {h})
    else Ok(rc[h := rc[h] - 1])
  }

  function AdjustUsage(usage: map<Author, int>, a: Author, delta: int): Result<map<Author, int>> {
    var total := Get(usage, a) + delta;
    if total < 0 || total > U64_MAX then Err(Overflow) else Ok(usage[a := total])
  }

  predicate Held(state: Option<ContentState>) {
    state.None? || state.value.Missing?
  }

  function WithState(states: map<EventId, ContentState>, id: EventId,
                     next: Option<ContentState>): map<EventId, ContentState> {
    if next.None? then states - {id} else states[id := next.value]
  }

  /** Move one retained event to another content state. */
  function SetState(l: Lifecycle, id: EventId, next: Option<ContentState>): Result<Lifecycle>
    requires id in l.events
  {
    var header, was := l.events[id], StateOf(l, id);
    var rc :=
      if Held(was) && !Held(next) then DecrementRc(l.rc, header.hash)
      else if !Held(was) && Held(next) then IncrementRc(l.rc, header.hash)
      else Ok(l.rc);
    var usage := AdjustUsage(l.usage, header.author,
      (if next.None? then header.len else 0) - (if was.None? then header.len else 0));
    if rc.Err? then Err(rc.error)
    else if usage.Err? then Err(usage.error)
    else Ok(Lifecycle(
      l.events, WithState(l.states, id, next), l.store, rc.value, usage.value, l.tombstones, l.quotaPruned))
  }

  /** Terminal states are left alone; a held payload is released. */
  function PruneContent(l: Lifecycle, id: EventId): Result<Lifecycle>
    requires id in l.events
  {
    if Held(StateOf(l, id)) then SetState(l, id, Some(Pruned)) else Ok(l)
  }

  /** A signed deletion of an author's own event, or a note for when it arrives. */
  function DeleteParent(l: Lifecycle, author: Author, parent: EventId): Result<Lifecycle> {
    if parent in l.events && l.events[parent].author == author
    then SetState(l, parent, Some(Deleted))
    else Ok(l.(tombstones := l.tombstones + {(author, parent)}))
  }

  /** The content state an envelope starts in. */
  function Initial(header: Header, deleted: bool): Option<ContentState> {
    if deleted then Some(Deleted) else if 0 < header.len then Some(Missing) else None
  }

  /** Register a new envelope: Deleted on arrival, Missing, or empty and already Processed. */
  function AddHeader(l: Lifecycle, id: EventId, header: Header, deleted: bool): Result<Lifecycle> {
    var first := Initial(header, deleted);
    var rc := if deleted then Ok(l.rc) else IncrementRc(l.rc, header.hash);
    if rc.Err? then Err(rc.error)
    else Ok(Lifecycle(
      l.events[id := header],
      WithState(l.states, id, first),
      if first.None? && header.hash !in l.store then l.store[header.hash := 0] else l.store,
      rc.value,
      l.usage[header.author := Get(l.usage, header.author)],
      l.tombstones,
      l.quotaPruned))
  }

  datatype Envelope = Envelope(id: EventId, header: Header, parentAux: Option<EventId>, deletesParent: bool)

  function InsertEvent(l: Lifecycle, e: Envelope): Result<Lifecycle> {
    if e.id in l.events then Ok(l)
    else
      var note := (e.header.author, e.id);
      var cleared := l.(tombstones := l.tombstones - {note});
      var linked :=
        if e.parentAux.Some? && e.deletesParent
        then DeleteParent(cleared, e.header.author, e.parentAux.value)
        else Ok(cleared);
      if linked.Err? then linked
      else AddHeader(linked.value, e.id, e.header, note in l.tombstones)
  }

  /** Envelope reduction: insertion, replay of a stored quota decision, then the size rejection. */
  function IngestEnvelope(l: Lifecycle, e: Envelope, maxLen: nat): Result<Lifecycle> {
    var inserted := InsertEvent(l, e);
    if inserted.Err? then inserted
    else
      var replayed :=
        if e.id !in l.events && e.id in l.quotaPruned && e.id in inserted.value.events
        then PruneContent(inserted.value, e.id)
        else inserted;
      if replayed.Err? then replayed
      else if maxLen <= e.header.len && e.id in replayed.value.events
      then PruneContent(replayed.value, e.id)
      else replayed
  }

  /** Payload reduction of a Missing event, after content and length were verified. */
  function IngestContent(l: Lifecycle, id: EventId, valid: bool, maxLen: nat): Result<Lifecycle> {
    if id !in l.events || maxLen <= l.events[id].len || StateOf(l, id) != Some(Missing) then Ok(l)
    else if !valid then SetState(l, id, Some(Invalid))
    else
      var header := l.events[id];
      SetState(
        l.(store := if header.hash in l.store then l.store else l.store[header.hash := header.len]),
        id, None)
  }

  /** A checked quota transition records its immutable decision row. */
  function QuotaPrune(l: Lifecycle, id: EventId): Result<Lifecycle>
    requires id in l.events
  {
    var pruned := PruneContent(l, id);
    if pruned.Err? then pruned
    else Ok(pruned.value.(quotaPruned := pruned.value.quotaPruned + {id}))
  }

  // What every reducer keeps.

  ghost predicate RcExact(rc: map<Hash, int>, cs: map<EventId, Contribution>) {
    && (forall h: Hash :: Get(rc, h) == |References(cs, h)|)
    && (forall h | h in rc :: rc[h] != 0)
  }

  ghost predicate UsageExact(usage: map<Author, int>, cs: map<EventId, Contribution>) {
    && (forall a: Author :: Get(usage, a) == Sum(LogicalsOf(cs, a)))
    && (forall id | id in cs :: cs[id].author in usage)
  }

  /** Reference counts and usage rows say exactly what the event states say. */
  ghost predicate Base(self: Author, l: Lifecycle) {
    && l.states.Keys <= l.events.Keys
    && RcExact(l.rc, All(self, l))
    && UsageExact(l.usage, All(self, l))
  }

  /** Only the listed events and hashes differ; headers and stored bytes are never rewritten. */
  ghost predicate Touches(l: Lifecycle, m: Lifecycle, ids: set<EventId>, hashes: set<Hash>) {
    && (forall id | id in l.events :: id in m.events && m.events[id] == l.events[id])
    && (forall id | id in m.events :: id in l.events || id in ids)
    && (forall id: EventId :: id !in ids ==> StateOf(l, id) == StateOf(m, id))
    && (forall h | h in l.store :: h in m.store && m.store[h] == l.store[h])
    && (forall h | h in m.store :: h in l.store || (h in hashes && 0 <= m.store[h]))
    && (forall h: Hash :: h !in hashes ==> (h in l.rc <==> h in m.rc))
    && l.quotaPruned <= m.quotaPruned <= l.quotaPruned + ids
  }

  lemma TouchesTransitive(l: Lifecycle, m: Lifecycle, n: Lifecycle, ids: set<EventId>, hashes: set<Hash>)
    requires Touches(l, m, ids, hashes) && Touches(m, n, ids, hashes)
    ensures Touches(l, n, ids, hashes)
  {
  }

  /** The reference count of one hash follows one changed or added contribution. */
  lemma RcFollows(rc: map<Hash, int>, next: map<Hash, int>, cs: map<EventId, Contribution>, id: EventId,
                  c: Contribution)
    requires RcExact(rc, cs)
    requires id in cs ==> cs[id].hash == c.hash
    requires var held := id in cs && cs[id].referenced;
      if held && !c.referenced then DecrementRc(rc, c.hash) == Ok(next)
      else if !held && c.referenced then IncrementRc(rc, c.hash) == Ok(next)
      else next == rc
    ensures RcExact(next, cs[id := c])
  {
    ReferenceUpdate(cs, id, c);
    assert Get(rc, c.hash) == |References(cs, c.hash)|;
    forall h: Hash
      ensures Get(next, h) == |References(cs[id := c], h)|
    {
      assert Get(rc, h) == |References(cs, h)|;
    }
  }

  lemma UsageFollows(usage: map<Author, int>, next: map<Author, int>, cs: map<EventId, Contribution>, id: EventId,
                     c: Contribution)
    requires UsageExact(usage, cs)
    requires id in cs ==> cs[id].author == c.author
    requires var before := if id in cs then cs[id].logical else 0;
      next == usage[c.author := Get(usage, c.author) - before + c.logical]
    ensures UsageExact(next, cs[id := c])
  {
    AuthorLogicalUpdate(cs, id, c);
    forall a: Author
      ensures Get(next, a) == Sum(LogicalsOf(cs[id := c], a))
    {
      assert Get(usage, a) == Sum(LogicalsOf(cs, a));
    }
  }

  lemma SetStateFrame(l: Lifecycle, id: EventId, next: Option<ContentState>)
    requires id in l.events
    requires SetState(l, id, next).Ok?
    ensures var m := SetState(l, id, next).value;
      && Touches(l, m, {id}, {l.events[id].hash})
      && m.events == l.events && m.store == l.store && m.quotaPruned == l.quotaPruned
      && StateOf(m, id) == next
  {
  }

  lemma SetStateContributes(self: Author, l: Lifecycle, id: EventId, next: Option<ContentState>)
    requires id in l.events
    requires SetState(l, id, next).Ok?
    ensures All(self, SetState(l, id, next).value) ==
      All(self, l)[id := ContributionOf(self, l.events[id], next)]
  {
  }

  lemma SetStateKeeps(self: Author, l: Lifecycle, id: EventId, next: Option<ContentState>)
    requires id in l.events && Base(self, l)
    requires SetState(l, id, next).Ok?
    ensures Base(self, SetState(l, id, next).value)
  {
    SetStateContributes(self, l, id, next);
    var m, c := SetState(l, id, next).value, ContributionOf(self, l.events[id], next);
    RcFollows(l.rc, m.rc, All(self, l), id, c);
    UsageFollows(l.usage, m.usage, All(self, l), id, c);
  }

  /** A release of a held payload never underflows a counter. */
  lemma ReleaseSucceeds(self: Author, l: Lifecycle, id: EventId, next: ContentState)
    requires id in l.events && Base(self, l) && !next.Missing?
    requires forall a | a in l.usage :: l.usage[a] <= U64_MAX
    ensures SetState(l, id, Some(next)).Ok?
  {
    var header := l.events[id];
    var mine := LogicalsOf(All(self, l), header.author);
    assert Get(l.usage, header.author) == Sum(mine);
    assert NonNegative(mine);
    SumSplit(mine, id);
    SumNonNegative(mine - {id});
    if Held(StateOf(l, id)) {
      assert id in References(All(self, l), header.hash);
      assert Get(l.rc, header.hash) == |References(All(self, l), header.hash)|;
    }
  }

  lemma AddHeaderFrame(l: Lifecycle, id: EventId, header: Header, deleted: bool)
    requires id !in l.events
    requires AddHeader(l, id, header, deleted).Ok?
    ensures var m := AddHeader(l, id, header, deleted).value;
      && Touches(l, m, {id}, {header.hash})
      && id in m.events && m.events[id] == header
      && m.quotaPruned == l.quotaPruned
      && (forall h | h in m.store :: h in l.store || (h == header.hash && header.len == 0 && m.store[h] == 0))
      && (Processed(m, id) ==> header.len == 0 && header.hash in m.store)
  {
  }

  lemma AddHeaderContributes(self: Author, l: Lifecycle, id: EventId, header: Header, deleted: bool)
    requires id !in l.events
    requires AddHeader(l, id, header, deleted).Ok?
    ensures var m := AddHeader(l, id, header, deleted).value;
      All(self, m) == All(self, l)[id := ContributionOf(self, header, StateOf(m, id))]
  {
  }

  lemma AddHeaderKeeps(self: Author, l: Lifecycle, id: EventId, header: Header, deleted: bool)
    requires id !in l.events && Base(self, l)
    requires AddHeader(l, id, header, deleted).Ok?
    ensures Base(self, AddHeader(l, id, header, deleted).value)
  {
    AddHeaderContributes(self, l, id, header, deleted);
    var m := AddHeader(l, id, header, deleted).value;
    var c := ContributionOf(self, header, StateOf(m, id));
    RcFollows(l.rc, m.rc, All(self, l), id, c);
    UsageFollows(l.usage, m.usage, All(self, l), id, c);
  }

  // The reducers as a whole.

  /** The events a reducer of this envelope may change: its own and the auxiliary parent. */
  function CapturedIds(id: EventId, parentAux: Option<EventId>): set<EventId> {
    {id} + (if parentAux.Some? then {parentAux.value} else {})
  }

  /** The hashes a reducer may write or release. */
  function CapturedHashes(l: Lifecycle, id: EventId, hash: Hash, parentAux: Option<EventId>): set<Hash> {
    {hash} + (set e | e in CapturedIds(id, parentAux) && e in l.events :: l.events[e].hash)
  }

  lemma TouchesWiden(l: Lifecycle, m: Lifecycle, ids: set<EventId>, hashes: set<Hash>, ids': set<EventId>,
                     hashes': set<Hash>)
    requires Touches(l, m, ids, hashes) && ids <= ids' && hashes <= hashes'
    ensures Touches(l, m, ids', hashes')
  {
  }

  /** A reducer step: exact counters again, and nothing outside the captured rows moved. */
  ghost predicate Reduces(self: Author, l: Lifecycle, m: Lifecycle, ids: set<EventId>, hashes: set<Hash>) {
    Base(self, m) && Touches(l, m, ids, hashes)
  }

  lemma StateReduces(self: Author, l: Lifecycle, id: EventId, next: Option<ContentState>, ids: set<EventId>,
                     hashes: set<Hash>)
    requires id in l.events && Base(self, l) && SetState(l, id, next).Ok?
    requires id in ids && l.events[id].hash in hashes
    ensures Reduces(self, l, SetState(l, id, next).value, ids, hashes)
  {
    SetStateKeeps(self, l, id, next);
    SetStateFrame(l, id, next);
    TouchesWiden(l, SetState(l, id, next).value, {id}, {l.events[id].hash}, ids, hashes);
  }

  lemma PruneReduces(self: Author, l: Lifecycle, id: EventId, ids: set<EventId>, hashes: set<Hash>)
    requires id in l.events && Base(self, l) && PruneContent(l, id).Ok?
    requires id in ids && l.events[id].hash in hashes
    ensures Reduces(self, l, PruneContent(l, id).value, ids, hashes)
  {
    if Held(StateOf(l, id)) {
      StateReduces(self, l, id, Some(Pruned), ids, hashes);
    }
  }

  lemma TombstonesReduce(self: Author, l: Lifecycle, tombstones: set<(Author, EventId)>, ids: set<EventId>,
                         hashes: set<Hash>)
    requires Base(self, l)
    ensures Reduces(self, l, l.(tombstones := tombstones), ids, hashes)
  {
    assert All(self, l.(tombstones := tombstones)) == All(self, l);
  }

  lemma DeleteReduces(self: Author, l: Lifecycle, author: Author, parent: EventId, ids: set<EventId>, hashes: set<Hash>)
    requires Base(self, l) && DeleteParent(l, author, parent).Ok?
    requires parent in ids && (parent in l.events ==> l.events[parent].hash in hashes)
    ensures Reduces(self, l, DeleteParent(l, author, parent).value, ids, hashes)
    ensures DeleteParent(l, author, parent).value.events == l.events
  {
    if parent in l.events && l.events[parent].author == author {
      StateReduces(self, l, parent, Some(Deleted), ids, hashes);
    } else {
      TombstonesReduce(self, l, l.tombstones + {(author, parent)}, ids, hashes);
    }
  }

  lemma HeaderReduces(self: Author, l: Lifecycle, id: EventId, header: Header, deleted: bool, ids: set<EventId>,
                      hashes: set<Hash>)
    requires id !in l.events && Base(self, l) && AddHeader(l, id, header, deleted).Ok?
    requires id in ids && header.hash in hashes
    ensures Reduces(self, l, AddHeader(l, id, header, deleted).value, ids, hashes)
  {
    AddHeaderKeeps(self, l, id, header, deleted);
    AddHeaderFrame(l, id, header, deleted);
    TouchesWiden(l, AddHeader(l, id, header, deleted).value, {id}, {header.hash}, ids, hashes);
  }

  lemma InsertReduces(self: Author, l: Lifecycle, e: Envelope)
    requires Base(self, l) && InsertEvent(l, e).Ok?
    ensures var ids, hashes := CapturedIds(e.id, e.parentAux), CapturedHashes(l, e.id, e.header.hash, e.parentAux);
      Reduces(self, l, InsertEvent(l, e).value, ids, hashes)
    ensures var m := InsertEvent(l, e).value;
      e.id in m.events && m.events[e.id] == (if e.id in l.events then l.events[e.id] else e.header)
  {
    if e.id !in l.events {
      var ids, hashes := CapturedIds(e.id, e.parentAux), CapturedHashes(l, e.id, e.header.hash, e.parentAux);
      var note := (e.header.author, e.id);
      var cleared := l.(tombstones := l.tombstones - {note});
      TombstonesReduce(self, l, l.tombstones - {note}, ids, hashes);
      var linked := cleared;
      if e.parentAux.Some? && e.deletesParent {
        linked := DeleteParent(cleared, e.header.author, e.parentAux.value).value;
        DeleteReduces(self, cleared, e.header.author, e.parentAux.value, ids, hashes);
        TouchesTransitive(l, cleared, linked, ids, hashes);
      }
      HeaderReduces(self, linked, e.id, e.header, note in l.tombstones, ids, hashes);
      TouchesTransitive(l, linked, InsertEvent(l, e).value, ids, hashes);
    }
  }

  /** Envelope reduction touches only what the accounting bracket captured. */
  lemma EnvelopeReduces(self: Author, l: Lifecycle, e: Envelope, maxLen: nat)
    requires Base(self, l) && IngestEnvelope(l, e, maxLen).Ok?
    ensures var ids, hashes := CapturedIds(e.id, e.parentAux), CapturedHashes(l, e.id, e.header.hash, e.parentAux);
      Reduces(self, l, IngestEnvelope(l, e, maxLen).value, ids, hashes)
  {
    var ids, hashes := CapturedIds(e.id, e.parentAux), CapturedHashes(l, e.id, e.header.hash, e.parentAux);
    InsertReduces(self, l, e);
    var m := InsertEvent(l, e).value;
    var n := m;
    if e.id !in l.events && e.id in l.quotaPruned {
      n := PruneContent(m, e.id).value;
      PruneReduces(self, m, e.id, ids, hashes);
      TouchesTransitive(l, m, n, ids, hashes);
    }
    if maxLen <= e.header.len {
      PruneReduces(self, n, e.id, ids, hashes);
      TouchesTransitive(l, n, IngestEnvelope(l, e, maxLen).value, ids, hashes);
    }
  }

  /** Storing bytes under a captured hash that has none changes no state and no counter. */
  lemma StoreReduces(self: Author, l: Lifecycle, h: Hash, len: nat, ids: set<EventId>, hashes: set<Hash>)
    requires Base(self, l) && h in hashes
    ensures Reduces(self, l, l.(store := if h in l.store then l.store else l.store[h := len]), ids, hashes)
  {
    assert All(self, l.(store := if h in l.store then l.store else l.store[h := len])) == All(self, l);
  }

  lemma ContentReduces(self: Author, l: Lifecycle, id: EventId, hash: Hash, parentAux: Option<EventId>, valid: bool,
                       maxLen: nat)
    requires Base(self, l) && IngestContent(l, id, valid, maxLen).Ok?
    ensures Reduces(self, l, IngestContent(l, id, valid, maxLen).value,
              CapturedIds(id, parentAux), CapturedHashes(l, id, hash, parentAux))
  {
    var ids, hashes := CapturedIds(id, parentAux), CapturedHashes(l, id, hash, parentAux);
    if id in l.events && l.events[id].len < maxLen && StateOf(l, id) == Some(Missing) {
      if !valid {
        StateReduces(self, l, id, Some(Invalid), ids, hashes);
      } else {
        var header := l.events[id];
        var m := l.(store := if header.hash in l.store then l.store else l.store[header.hash := header.len]);
        StoreReduces(self, l, header.hash, header.len, ids, hashes);
        StateReduces(self, m, id, None, ids, hashes);
        TouchesTransitive(l, m, IngestContent(l, id, valid, maxLen).value, ids, hashes);
      }
    }
  }

  /** Recording a decision of a captured event changes no state and no counter. */
  lemma DecisionReduces(self: Author, l: Lifecycle, m: Lifecycle, id: EventId, ids: set<EventId>, hashes: set<Hash>)
    requires Reduces(self, l, m, ids, hashes) && id in ids
    ensures Reduces(self, l, m.(quotaPruned := m.quotaPruned + {id}), ids, hashes)
  {
    assert All(self, m.(quotaPruned := m.quotaPruned + {id})) == All(self, m);
  }

  lemma QuotaReduces(self: Author, l: Lifecycle, id: EventId, hash: Hash, parentAux: Option<EventId>)
    requires id in l.events && Base(self, l) && QuotaPrune(l, id).Ok?
    ensures Reduces(self, l, QuotaPrune(l, id).value,
              CapturedIds(id, parentAux), CapturedHashes(l, id, hash, parentAux))
  {
    var ids, hashes := CapturedIds(id, parentAux), CapturedHashes(l, id, hash, parentAux);
    PruneReduces(self, l, id, ids, hashes);
    DecisionReduces(self, l, PruneContent(l, id).value, id, ids, hashes);
  }

  // What each reducer does to the content states, row by row.

  ghost predicate InState(l: Lifecycle, id: EventId, s: Option<ContentState>) {
    if s.None? then id !in l.states else id in l.states && l.states[id] == s.value
  }

  ghost predicate SameState(l: Lifecycle, m: Lifecycle, id: EventId) {
    if id in l.states then InState(m, id, Some(l.states[id])) else id !in m.states
  }

  /** The payload of a retained event is still wanted: processed, or missing. */
  ghost predicate Wanted(l: Lifecycle, id: EventId) {
    id !in l.states || l.states[id] == Missing
  }

  /** The envelope signs the deletion of an event of its own author that is known. */
  ghost predicate DeletesKnown(l: Lifecycle, e: Envelope, x: EventId) {
    e.deletesParent && e.parentAux == Some(x) && x in l.events && l.events[x].author == e.header.author
  }

  ghost predicate StateAfter(l: Lifecycle, e: Envelope, m: Lifecycle, x: EventId) {
    if DeletesKnown(l, e, x) then InState(m, x, Some(Deleted)) else SameState(l, m, x)
  }

  /** A note is kept until its event arrives, and left for a signed deletion of an event that is not known. */
  ghost predicate NoteAfter(l: Lifecycle, e: Envelope, m: Lifecycle, note: (Author, EventId)) {
    note in m.tombstones <==>
      || (note in l.tombstones && note != (e.header.author, e.id))
      || (e.deletesParent && note.0 == e.header.author && e.parentAux == Some(note.1) && !DeletesKnown(l, e, note.1))
  }

  /** The state a new event starts in. */
  ghost predicate StartsIn(l: Lifecycle, e: Envelope, maxLen: nat, m: Lifecycle) {
    InState(m, e.id,
      if (e.header.author, e.id) in l.tombstones then Some(Deleted)
      else if e.id in l.quotaPruned || maxLen <= e.header.len then Some(Pruned)
      else if e.header.len != 0 then Some(Missing)
      else None)
  }

  /** A new envelope applies its own signed deletion to a known event, or leaves a note for it. */
  ghost predicate Linked(l: Lifecycle, e: Envelope, m: Lifecycle) {
    && m.events == l.events[e.id := e.header] && m.quotaPruned == l.quotaPruned
    && (forall x: EventId | x != e.id :: StateAfter(l, e, m, x))
    && (forall note: (Author, EventId) :: NoteAfter(l, e, m, note))
    && m.store == if e.header.len == 0 && (e.header.author, e.id) !in l.tombstones && e.header.hash !in l.store
                  then l.store[e.header.hash := 0] else l.store
  }

  ghost predicate NewEnvelopeEffect(l: Lifecycle, e: Envelope, maxLen: nat, m: Lifecycle) {
    Linked(l, e, m) && StartsIn(l, e, maxLen, m)
  }

  /** An envelope received again changes nothing, unless its payload is too long to keep. */
  ghost predicate KnownEnvelopeEffect(l: Lifecycle, e: Envelope, maxLen: nat, m: Lifecycle) {
    && m.events == l.events && m.tombstones == l.tombstones && m.store == l.store && m.quotaPruned == l.quotaPruned
    && (forall x: EventId | x != e.id :: SameState(l, m, x))
    && if maxLen <= e.header.len && Wanted(l, e.id) then InState(m, e.id, Some(Pruned)) else SameState(l, m, e.id)
  }

  ghost predicate EnvelopeEffect(l: Lifecycle, e: Envelope, maxLen: nat, m: Lifecycle) {
    if e.id in l.events then KnownEnvelopeEffect(l, e, maxLen, m) else NewEnvelopeEffect(l, e, maxLen, m)
  }

  /** Content settles its own Missing event and touches nothing else. */
  ghost predicate ContentEffect(l: Lifecycle, id: EventId, valid: bool, maxLen: nat, m: Lifecycle) {
    var settles := id in l.events && l.events[id].len < maxLen && InState(l, id, Some(Missing));
    && m.events == l.events && m.tombstones == l.tombstones && m.quotaPruned == l.quotaPruned
    && (forall x: EventId | x != id :: SameState(l, m, x))
    && (if settles then InState(m, id, if valid then None else Some(Invalid)) else SameState(l, m, id))
    && m.store == if settles && valid && l.events[id].hash !in l.store
                  then l.store[l.events[id].hash := l.events[id].len] else l.store
  }

  /** A quota decision is recorded, and takes the payload if it was still wanted. */
  ghost predicate QuotaEffect(l: Lifecycle, id: EventId, m: Lifecycle) {
    && m.events == l.events && m.tombstones == l.tombstones && m.store == l.store
    && m.quotaPruned == l.quotaPruned + {id}
    && (forall x: EventId | x != id :: SameState(l, m, x))
    && if Wanted(l, id) then InState(m, id, Some(Pruned)) else SameState(l, m, id)
  }

  lemma SetStateEffect(l: Lifecycle, id: EventId, next: Option<ContentState>)
    requires id in l.events && SetState(l, id, next).Ok?
    ensures var m := SetState(l, id, next).value;
      && m == l.(states := m.states, rc := m.rc, usage := m.usage)
      && InState(m, id, next) && forall x: EventId | x != id :: SameState(l, m, x)
  {
  }

  lemma PruneEffect(l: Lifecycle, id: EventId)
    requires id in l.events && PruneContent(l, id).Ok?
    ensures var m := PruneContent(l, id).value;
      && m == l.(states := m.states, rc := m.rc, usage := m.usage)
      && (if Wanted(l, id) then InState(m, id, Some(Pruned)) else SameState(l, m, id))
      && forall x: EventId | x != id :: SameState(l, m, x)
  {
    if Held(StateOf(l, id)) {
      SetStateEffect(l, id, Some(Pruned));
    }
  }

  lemma DeleteEffect(l: Lifecycle, author: Author, parent: EventId)
    requires DeleteParent(l, author, parent).Ok?
    ensures var m := DeleteParent(l, author, parent).value;
      var known := parent in l.events && l.events[parent].author == author;
      && m.events == l.events && m.store == l.store && m.quotaPruned == l.quotaPruned
      && m.tombstones == (if known then l.tombstones else l.tombstones + {(author, parent)})
      && forall x: EventId :: if known && x == parent then InState(m, x, Some(Deleted)) else SameState(l, m, x)
  {
    if parent in l.events && l.events[parent].author == author {
      SetStateEffect(l, parent, Some(Deleted));
    }
  }

  lemma AddHeaderEffect(l: Lifecycle, id: EventId, header: Header, deleted: bool)
    requires id !in l.events && AddHeader(l, id, header, deleted).Ok?
    ensures var m := AddHeader(l, id, header, deleted).value;
      && m.events == l.events[id := header] && m.tombstones == l.tombstones && m.quotaPruned == l.quotaPruned
      && InState(m, id, if deleted then Some(Deleted) else if header.len != 0 then Some(Missing) else None)
      && (forall x: EventId | x != id :: SameState(l, m, x))
      && m.store == if header.len == 0 && !deleted && header.hash !in l.store then l.store[header.hash := 0] else l.store
  {
  }

  /** Events and notes between the arrival of an envelope and the registration of its header. */
  ghost predicate LinkedBefore(l: Lifecycle, e: Envelope, k: Lifecycle) {
    && k.events == l.events && k.store == l.store && k.quotaPruned == l.quotaPruned
    && (forall x: EventId :: StateAfter(l, e, k, x))
    && (forall note: (Author, EventId) :: NoteAfter(l, e, k, note))
  }

  lemma LinkEffect(l: Lifecycle, e: Envelope)
    requires e.id !in l.events
    requires e.parentAux.Some? && e.deletesParent
    requires DeleteParent(l.(tombstones := l.tombstones - {(e.header.author, e.id)}), e.header.author, e.parentAux.value).Ok?
    ensures LinkedBefore(l, e,
      DeleteParent(l.(tombstones := l.tombstones - {(e.header.author, e.id)}), e.header.author, e.parentAux.value).value)
  {
    DeleteEffect(l.(tombstones := l.tombstones - {(e.header.author, e.id)}), e.header.author, e.parentAux.value);
  }

  lemma HeaderEffect(l: Lifecycle, e: Envelope, k: Lifecycle)
    requires e.id !in l.events && LinkedBefore(l, e, k)
    requires AddHeader(k, e.id, e.header, (e.header.author, e.id) in l.tombstones).Ok?
    ensures Linked(l, e, AddHeader(k, e.id, e.header, (e.header.author, e.id) in l.tombstones).value)
  {
    AddHeaderEffect(k, e.id, e.header, (e.header.author, e.id) in l.tombstones);
    var m := AddHeader(k, e.id, e.header, (e.header.author, e.id) in l.tombstones).value;
    forall x: EventId | x != e.id ensures StateAfter(l, e, m, x) {
      assert StateAfter(l, e, k, x);
    }
    forall note: (Author, EventId) ensures NoteAfter(l, e, m, note) {
      assert NoteAfter(l, e, k, note);
    }
  }

  lemma InsertEffect(l: Lifecycle, e: Envelope)
    requires e.id !in l.events && InsertEvent(l, e).Ok?
    ensures var m := InsertEvent(l, e).value;
      && Linked(l, e, m)
      && InState(m, e.id,
           if (e.header.author, e.id) in l.tombstones then Some(Deleted) else if e.header.len != 0 then Some(Missing) else None)
  {
    var note := (e.header.author, e.id);
    var linked := l.(tombstones := l.tombstones - {note});
    if e.parentAux.Some? && e.deletesParent {
      LinkEffect(l, e);
      linked := DeleteParent(linked, e.header.author, e.parentAux.value).value;
    }
    HeaderEffect(l, e, linked);
    AddHeaderEffect(linked, e.id, e.header, note in l.tombstones);
  }

  lemma LinkedOn(l: Lifecycle, e: Envelope, m: Lifecycle, n: Lifecycle)
    requires Linked(l, e, m) && n == m.(states := n.states, rc := n.rc, usage := n.usage)
    requires forall x: EventId | x != e.id :: SameState(m, n, x)
    ensures Linked(l, e, n)
  {
    forall x: EventId | x != e.id ensures StateAfter(l, e, n, x) {
      assert StateAfter(l, e, m, x) && SameState(m, n, x);
    }
    forall note: (Author, EventId) ensures NoteAfter(l, e, n, note) {
      assert NoteAfter(l, e, m, note);
    }
  }

  /** A prune of the inserted event changes its own state alone. */
  lemma PrunedNew(l: Lifecycle, e: Envelope, m: Lifecycle)
    requires Linked(l, e, m) && e.id in m.events && PruneContent(m, e.id).Ok?
    ensures var n := PruneContent(m, e.id).value;
      Linked(l, e, n) && if Wanted(m, e.id) then InState(n, e.id, Some(Pruned)) else SameState(m, n, e.id)
  {
    PruneEffect(m, e.id);
    LinkedOn(l, e, m, PruneContent(m, e.id).value);
  }

  /** Main result: what an accepted envelope does, in terms of the tables alone. */
  lemma EnvelopeMeans(l: Lifecycle, e: Envelope, maxLen: nat)
    requires IngestEnvelope(l, e, maxLen).Ok?
    ensures EnvelopeEffect(l, e, maxLen, IngestEnvelope(l, e, maxLen).value)
  {
    if e.id in l.events {
      if maxLen <= e.header.len {
        PruneEffect(l, e.id);
      }
    } else {
      InsertEffect(l, e);
      var m := InsertEvent(l, e).value;
      if e.id in l.quotaPruned {
        PrunedNew(l, e, m);
        m := PruneContent(m, e.id).value;
      }
      if maxLen <= e.header.len {
        PrunedNew(l, e, m);
      }
    }
  }

  lemma ContentMeans(l: Lifecycle, id: EventId, valid: bool, maxLen: nat)
    requires IngestContent(l, id, valid, maxLen).Ok?
    ensures ContentEffect(l, id, valid, maxLen, IngestContent(l, id, valid, maxLen).value)
  {
    if id in l.events && l.events[id].len < maxLen && StateOf(l, id) == Some(Missing) {
      var header := l.events[id];
      var stored := l.(store := if header.hash in l.store then l.store else l.store[header.hash := header.len]);
      SetStateEffect(if valid then stored else l, id, if valid then None else Some(Invalid));
    }
  }

  lemma QuotaMeans(l: Lifecycle, id: EventId)
    requires id in l.events && QuotaPrune(l, id).Ok?
    ensures QuotaEffect(l, id, QuotaPrune(l, id).value)
  {
    PruneEffect(l, id);
  }

  // Stored bytes of Processed events.

  /** Stored values have the length of the content that hashes to their key, and every Processed event has its bytes. */
  ghost predicate Honest(l: Lifecycle, lengthOf: Hash -> nat) {
    && (forall h | h in l.store :: l.store[h] == lengthOf(h))
    && (forall id | Processed(l, id) :: WellStored(l, l.events[id]))
  }

  lemma SetStateHonest(l: Lifecycle, id: EventId, next: Option<ContentState>, lengthOf: Hash -> nat)
    requires id in l.events && Honest(l, lengthOf) && SetState(l, id, next).Ok?
    requires next.None? ==> WellStored(l, l.events[id])
    ensures Honest(SetState(l, id, next).value, lengthOf)
  {
  }

  lemma PruneHonest(l: Lifecycle, id: EventId, lengthOf: Hash -> nat)
    requires id in l.events && Honest(l, lengthOf) && PruneContent(l, id).Ok?
    ensures Honest(PruneContent(l, id).value, lengthOf)
  {
    if Held(StateOf(l, id)) {
      SetStateHonest(l, id, Some(Pruned), lengthOf);
    }
  }

  lemma AddHeaderHonest(l: Lifecycle, id: EventId, header: Header, deleted: bool, lengthOf: Hash -> nat)
    requires id !in l.events && Honest(l, lengthOf) && AddHeader(l, id, header, deleted).Ok?
    requires header.len == 0 ==> lengthOf(header.hash) == 0
    ensures Honest(AddHeader(l, id, header, deleted).value, lengthOf)
  {
  }

  lemma DeleteHonest(l: Lifecycle, author: Author, parent: EventId, lengthOf: Hash -> nat)
    requires Honest(l, lengthOf) && DeleteParent(l, author, parent).Ok?
    ensures Honest(DeleteParent(l, author, parent).value, lengthOf)
    ensures DeleteParent(l, author, parent).value.events == l.events
  {
    if parent in l.events && l.events[parent].author == author {
      SetStateHonest(l, parent, Some(Deleted), lengthOf);
    }
  }

  lemma InsertHonest(l: Lifecycle, e: Envelope, lengthOf: Hash -> nat)
    requires Honest(l, lengthOf) && InsertEvent(l, e).Ok?
    requires e.header.len == 0 ==> lengthOf(e.header.hash) == 0
    ensures Honest(InsertEvent(l, e).value, lengthOf) && e.id in InsertEvent(l, e).value.events
  {
    if e.id !in l.events {
      var note := (e.header.author, e.id);
      var linked := l.(tombstones := l.tombstones - {note});
      assert Honest(linked, lengthOf);
      if e.parentAux.Some? && e.deletesParent {
        DeleteHonest(linked, e.header.author, e.parentAux.value, lengthOf);
        linked := DeleteParent(linked, e.header.author, e.parentAux.value).value;
      }
      AddHeaderHonest(linked, e.id, e.header, note in l.tombstones, lengthOf);
    }
  }

  /** An envelope that signs an empty payload must name the hash of the empty payload. */
  lemma EnvelopeHonest(l: Lifecycle, e: Envelope, maxLen: nat, lengthOf: Hash -> nat)
    requires Honest(l, lengthOf) && IngestEnvelope(l, e, maxLen).Ok?
    requires e.header.len == 0 ==> lengthOf(e.header.hash) == 0
    ensures Honest(IngestEnvelope(l, e, maxLen).value, lengthOf)
  {
    InsertHonest(l, e, lengthOf);
    var m := InsertEvent(l, e).value;
    if e.id !in l.events && e.id in l.quotaPruned {
      PruneHonest(m, e.id, lengthOf);
      m := PruneContent(m, e.id).value;
    }
    if maxLen <= e.header.len {
      PruneHonest(m, e.id, lengthOf);
    }
  }

  lemma SetStateProcesses(l: Lifecycle, id: EventId, next: ContentState)
    requires id in l.events && SetState(l, id, Some(next)).Ok?
    ensures var m := SetState(l, id, Some(next)).value;
      && m.events == l.events && m.store == l.store && m.quotaPruned == l.quotaPruned
      && (forall x: EventId :: Processed(m, x) <==> Processed(l, x) && x != id)
  {
  }

  lemma DeleteProcesses(l: Lifecycle, author: Author, parent: EventId)
    requires DeleteParent(l, author, parent).Ok?
    ensures var m := DeleteParent(l, author, parent).value;
      && m.events == l.events && m.store == l.store && m.quotaPruned == l.quotaPruned
      && (forall x: EventId :: Processed(m, x) ==> Processed(l, x))
  {
    if parent in l.events && l.events[parent].author == author {
      SetStateProcesses(l, parent, Deleted);
    }
  }

  lemma AddHeaderProcesses(l: Lifecycle, id: EventId, header: Header, deleted: bool)
    requires id !in l.events && AddHeader(l, id, header, deleted).Ok?
    ensures var m := AddHeader(l, id, header, deleted).value;
      && m.events == l.events[id := header] && m.quotaPruned == l.quotaPruned
      && (forall x: EventId :: x != id ==> (Processed(m, x) <==> Processed(l, x)))
      && (Processed(m, id) <==> header.len == 0 && !deleted)
      && m.store == if Processed(m, id) && header.hash !in l.store then l.store[header.hash := 0] else l.store
  {
  }

  lemma InsertProcesses(l: Lifecycle, e: Envelope)
    requires e.id !in l.events && InsertEvent(l, e).Ok?
    ensures var m := InsertEvent(l, e).value;
      && m.events == l.events[e.id := e.header] && m.quotaPruned == l.quotaPruned
      && (forall x: EventId :: Processed(m, x) && x != e.id ==> Processed(l, x))
      && (Processed(m, e.id) <==> e.header.len == 0 && (e.header.author, e.id) !in l.tombstones)
      && m.store == if Processed(m, e.id) && e.header.hash !in l.store then l.store[e.header.hash := 0] else l.store
  {
    var note := (e.header.author, e.id);
    var linked := l.(tombstones := l.tombstones - {note});
    if e.parentAux.Some? && e.deletesParent {
      DeleteProcesses(linked, e.header.author, e.parentAux.value);
      linked := DeleteParent(linked, e.header.author, e.parentAux.value).value;
    }
    AddHeaderProcesses(linked, e.id, e.header, note in l.tombstones);
  }

  ghost predicate AllStored(l: Lifecycle) {
    forall id | Processed(l, id) :: WellStored(l, l.events[id])
  }

  /** The one insertion the store accepts without looking at bytes: empty, new, not deleted, not pruned. */
  predicate TrustsEmptyHeader(l: Lifecycle, e: Envelope, maxLen: nat) {
    && e.id !in l.events
    && e.header.len == 0
    && (e.header.author, e.id) !in l.tombstones
    && e.id !in l.quotaPruned
    && 0 < maxLen
  }

  lemma EnvelopeProcesses(l: Lifecycle, e: Envelope, maxLen: nat)
    requires IngestEnvelope(l, e, maxLen).Ok?
    ensures var m := IngestEnvelope(l, e, maxLen).value;
      && m.quotaPruned == l.quotaPruned
      && (forall x: EventId :: Processed(m, x) && x != e.id ==> Processed(l, x) && m.events[x] == l.events[x])
      && (forall h | h in l.store :: h in m.store && m.store[h] == l.store[h])
      && (Processed(m, e.id) && e.id !in l.events <==> TrustsEmptyHeader(l, e, maxLen))
      && (Processed(m, e.id) && e.id in l.events ==> Processed(l, e.id) && m.events[e.id] == l.events[e.id])
      && (TrustsEmptyHeader(l, e, maxLen) ==>
            && m.events[e.id] == e.header
            && e.header.hash in m.store && m.store[e.header.hash] == Get(l.store, e.header.hash))
  {
    var m := InsertEvent(l, e).value;
    if e.id !in l.events {
      InsertProcesses(l, e);
      if e.id in l.quotaPruned && Held(StateOf(m, e.id)) {
        SetStateProcesses(m, e.id, Pruned);
        m := SetState(m, e.id, Some(Pruned)).value;
      }
    }
    if maxLen <= e.header.len && Held(StateOf(m, e.id)) {
      SetStateProcesses(m, e.id, Pruned);
    }
  }

  /**
   Inserting an envelope leaves every Processed event with bytes of its signed length
   exactly when it is not an empty envelope that names the hash of stored non-empty bytes.
   */
  lemma EnvelopeStoredIff(l: Lifecycle, e: Envelope, maxLen: nat)
    requires AllStored(l) && IngestEnvelope(l, e, maxLen).Ok?
    ensures AllStored(IngestEnvelope(l, e, maxLen).value) <==>
      !(TrustsEmptyHeader(l, e, maxLen) && Get(l.store, e.header.hash) != 0)
  {
    EnvelopeProcesses(l, e, maxLen);
    var m := IngestEnvelope(l, e, maxLen).value;
    if TrustsEmptyHeader(l, e, maxLen) {
      assert Processed(m, e.id);
    }
  }

  /** Valid content of a Missing event whose hash already has stored bytes: the store keeps those and compares nothing. */
  predicate TrustsStoredBytes(l: Lifecycle, id: EventId, valid: bool, maxLen: nat) {
    && id in l.events && l.events[id].len < maxLen && StateOf(l, id) == Some(Missing) && valid
    && l.events[id].hash in l.store
  }

  lemma ContentProcesses(l: Lifecycle, id: EventId, valid: bool, maxLen: nat)
    requires IngestContent(l, id, valid, maxLen).Ok?
    ensures var m := IngestContent(l, id, valid, maxLen).value;
      && m.events == l.events
      && (forall x: EventId :: Processed(m, x) && x != id ==> Processed(l, x))
      && (forall h | h in l.store :: h in m.store && m.store[h] == l.store[h])
      && (TrustsStoredBytes(l, id, valid, maxLen) ==> Processed(m, id) && m.store == l.store)
      && (Processed(m, id) && !Processed(l, id) && !TrustsStoredBytes(l, id, valid, maxLen) ==> WellStored(m, m.events[id]))
  {
  }

  /**
   Accepting content leaves every Processed event with bytes of its signed length exactly when
   the bytes already stored under its hash, if any, have that length.
   */
  lemma ContentStoredIff(l: Lifecycle, id: EventId, valid: bool, maxLen: nat)
    requires AllStored(l) && IngestContent(l, id, valid, maxLen).Ok?
    ensures AllStored(IngestContent(l, id, valid, maxLen).value) <==>
      !(TrustsStoredBytes(l, id, valid, maxLen) && l.store[l.events[id].hash] != l.events[id].len)
  {
    ContentProcesses(l, id, valid, maxLen);
    var m := IngestContent(l, id, valid, maxLen).value;
    if TrustsStoredBytes(l, id, valid, maxLen) {
      assert Processed(m, id);
    }
  }

  /** A prune only ends an event's claim to its bytes. */
  lemma QuotaStored(l: Lifecycle, id: EventId)
    requires id in l.events && AllStored(l) && QuotaPrune(l, id).Ok?
    ensures AllStored(QuotaPrune(l, id).value)
  {
    if Held(StateOf(l, id)) {
      SetStateProcesses(l, id, Pruned);
    }
  }

  lemma ContentHonest(l: Lifecycle, id: EventId, valid: bool, maxLen: nat, lengthOf: Hash -> nat)
    requires Honest(l, lengthOf) && IngestContent(l, id, valid, maxLen).Ok?
    requires id in l.events && valid ==> l.events[id].len == lengthOf(l.events[id].hash)
    ensures Honest(IngestContent(l, id, valid, maxLen).value, lengthOf)
  {
    if id in l.events && l.events[id].len < maxLen && StateOf(l, id) == Some(Missing) {
      var header := l.events[id];
      if valid {
        var m := l.(store := if header.hash in l.store then l.store else l.store[header.hash := header.len]);
        assert Honest(m, lengthOf);
        SetStateHonest(m, id, None, lengthOf);
      } else {
        SetStateHonest(l, id, Some(Invalid), lengthOf);
      }
    }
  }
}
