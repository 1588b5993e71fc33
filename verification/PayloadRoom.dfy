/**
 When the bracket accepts: as long as the retained events, their signed lengths and the stored
 bytes fit 64-bit counters, nothing but bytes of a wrong length refuses a transaction.
 */
module PayloadRoom {
  import opened Wrappers
  import opened Sums
  import opened PayloadTables
  import opened PayloadLifecycle
  import opened PayloadAccounting
  import opened PayloadBracket
  import opened PayloadBracketProofs

  ghost function Lens(events: map<EventId, Header>): map<EventId, int> {
    map id | id in events :: events[id].len
  }

  /** Everything that could ever be counted fits a counter. */
  ghost predicate Roomy(l: Lifecycle) {
    |l.events| <= U64_MAX && Sum<EventId>(Lens(l.events)) <= U64_MAX && Sum<Hash>(l.store) <= U64_MAX
  }

  ghost predicate WithinAt(events: map<EventId, Header>, cs: map<EventId, Contribution>, id: EventId) {
    id in cs ==> id in events && cs[id].logical <= events[id].len
  }

  /** Contributions of retained events, none above its signed length. */
  ghost predicate Within(events: map<EventId, Header>, cs: map<EventId, Contribution>) {
    forall id: EventId :: WithinAt(events, cs, id)
  }

  /** No total over such contributions exceeds its counter. */
  lemma WithinFits(l: Lifecycle, cs: map<EventId, Contribution>, a: Author, h: Hash)
    requires Roomy(l) && Within(l.events, cs)
    ensures 0 <= Sum(LogicalsOf(cs, a)) <= Sum(Logicals(cs)) <= U64_MAX
    ensures |References(cs, h)| <= U64_MAX
  {
    forall id | id in Logicals(cs) ensures id in Lens(l.events) && Logicals(cs)[id] <= Lens(l.events)[id] {
      assert WithinAt(l.events, cs, id);
    }
    SumMonotone<EventId>(Logicals(cs), Lens(l.events));
    LogicalsNonNegative(cs, a);
    forall id | id in References(cs, h) ensures id in l.events.Keys {
      assert WithinAt(l.events, cs, id);
    }
    SubsetCount(References(cs, h), l.events.Keys);
  }

  lemma WithinUpdate(events: map<EventId, Header>, cs: map<EventId, Contribution>, id: EventId, c: Contribution)
    requires Within(events, cs) && id in events && c.logical <= events[id].len
    ensures Within(events, cs[id := c])
  {
    var next := cs[id := c];
    forall x: EventId ensures WithinAt(events, next, x) {
      assert WithinAt(events, cs, x);
    }
  }

  lemma AddFits(l: Lifecycle, a: Accounting, cs: map<EventId, Contribution>, id: EventId, c: Contribution)
    requires Totals(a, cs) && id !in cs && Roomy(l) && Within(l.events, cs[id := c])
    ensures AdjustContribution(a, c, true).Ok?
  {
    WithinFits(l, cs[id := c], c.author, c.hash);
    if AdjustContribution(a, c, true).Err? {
      AddOverflows(a, cs, id, c);
    }
  }

  lemma WithdrawFits(l: Lifecycle, a: Accounting, cs: map<EventId, Contribution>, id: EventId)
    requires Totals(a, cs) && id in cs && Roomy(l) && Within(l.events, cs)
    ensures AdjustContribution(a, cs[id], false).Ok?
  {
    WithinFits(l, cs, cs[id].author, cs[id].hash);
    assert Row(a.hashes, cs[id].hash).references == |References(cs, cs[id].hash)|;
    WithdrawSucceeds(a, cs, id);
  }

  lemma ReplaceFits(l: Lifecycle, a: Accounting, b: Accounting, cs: map<EventId, Contribution>, id: EventId,
                    c: Contribution)
    requires Totals(a, cs) && id in cs && cs[id].author == c.author && cs[id].hash == c.hash
    requires AdjustContribution(a, cs[id], false) == Ok(b)
    requires Roomy(l) && Within(l.events, cs[id := c])
    ensures AdjustContribution(b, c, true).Ok?
  {
    LogicalUpdate(cs, id, c);
    AuthorLogicalUpdate(cs, id, c);
    ReferenceUpdate(cs, id, c);
    WithinFits(l, cs[id := c], c.author, c.hash);
    assert Get(a.authors, c.author) == Sum(LogicalsOf(cs, c.author));
    assert Row(a.hashes, c.hash).references == |References(cs, c.hash)|;
  }

  /** A covered event with bytes of its signed length is always counted. */
  lemma AfterEventFits(self: Author, l: Lifecycle, m: Lifecycle, a: Accounting, e: (EventId, Option<Contribution>),
                       mix: map<EventId, Contribution>)
    requires HeadersKept(l, m) && Captured(self, l, e) && !MisStored(m, a.stage, e.0)
    requires Totals(a, mix) && Roomy(m) && Within(m.events, mix)
    requires EventCounted(a.stage, e.0) ==>
      && (e.0 in mix <==> e.0 in l.events)
      && (e.0 in mix ==> e.1 == Some(mix[e.0]))
    ensures AfterEvent(self, m, a, e).Ok?
  {
    if EventCounted(a.stage, e.0) && e.0 in m.events {
      var c := ContributionOf(self, m.events[e.0], StateOf(m, e.0));
      WithinUpdate(m.events, mix, e.0, c);
      if e.0 in l.events {
        WithdrawFits(m, a, mix, e.0);
        ReplaceFits(m, a, AdjustContribution(a, mix[e.0], false).value, mix, e.0, c);
      } else {
        AddFits(m, a, mix, e.0, c);
      }
    }
  }

  lemma MixWithin(self: Author, l: Lifecycle, m: Lifecycle, stage: Stage, done: set<EventId>)
    requires HeadersKept(l, m)
    ensures Within(m.events, Mix<EventId, Contribution>(Counted(self, l, stage), Counted(self, m, stage), done))
  {
    var mix := Mix<EventId, Contribution>(Counted(self, l, stage), Counted(self, m, stage), done);
    forall id: EventId ensures WithinAt(m.events, mix, id) {
    }
  }

  lemma {:induction false} AfterEventsFit(self: Author, l: Lifecycle, m: Lifecycle, a: Accounting,
                                          es: seq<(EventId, Option<Contribution>)>)
    requires HeadersKept(l, m) && Roomy(m) && Totals(a, Counted(self, l, a.stage))
    requires forall i | 0 <= i < |es| :: Captured(self, l, es[i]) && !MisStored(m, a.stage, es[i].0)
    requires forall i, j | 0 <= i < j < |es| :: es[i].0 != es[j].0
    ensures AfterEvents(self, m, a, es).Ok?
  {
    if es != [] {
      var init, last := es[..|es| - 1], es[|es| - 1];
      AfterEventsFit(self, l, m, a, init);
      AfterEventsMix(self, l, m, a, init);
      AfterEventsFrame(self, m, a, init);
      var was, now, done := Counted(self, l, a.stage), Counted(self, m, a.stage), FirstIds(init);
      MixStep<EventId, Contribution>(was, now, done, last.0);
      MixWithin(self, l, m, a.stage, done);
      AfterEventFits(self, l, m, AfterEvents(self, m, a, init).value, last, Mix<EventId, Contribution>(was, now, done));
    }
  }

  /** Stored bytes only grow under a reducer, so no partial sum exceeds the final one. */
  lemma StoredMixFits(l: Lifecycle, m: Lifecycle, stage: Stage, done: set<Hash>, h: Hash)
    requires NonNegative(m.store) && (forall k | k in l.store :: k in m.store && m.store[k] == l.store[k])
    ensures var mix := Mix<Hash, int>(StoredCounted(l, stage), StoredCounted(m, stage), done);
      Get(mix, h) <= Sum<Hash>(mix) <= Sum<Hash>(m.store)
  {
    var mix := Mix<Hash, int>(StoredCounted(l, stage), StoredCounted(m, stage), done);
    SumMonotone<Hash>(mix, m.store);
    SumRemove<Hash>(mix, h);
    SumNonNegative<Hash>(mix - {h});
  }

  lemma StoredMixStep(l: Lifecycle, m: Lifecycle, stage: Stage, done: set<Hash>, h: Hash)
    requires (forall k | k in l.store :: k in m.store) && h !in done && HashCounted(stage, h)
    ensures var was, now := StoredCounted(l, stage), StoredCounted(m, stage);
      && Get(Mix<Hash, int>(was, now, done), h) == StoredLen(l, h)
      && Sum<Hash>(Mix<Hash, int>(was, now, done + {h})) == Sum<Hash>(Mix<Hash, int>(was, now, done)) - StoredLen(l, h) + StoredLen(m, h)
  {
    var was, now := StoredCounted(l, stage), StoredCounted(m, stage);
    MixStep<Hash, int>(was, now, done, h);
    if h in now {
      SumUpdate<Hash>(Mix<Hash, int>(was, now, done), h, now[h]);
    } else {
      SumRemove<Hash>(Mix<Hash, int>(was, now, done), h);
    }
  }

  lemma AfterHashFits(l: Lifecycle, m: Lifecycle, a: Accounting, h: (Hash, int), done: set<Hash>)
    requires Sum<Hash>(m.store) <= U64_MAX && NonNegative(m.store) && (forall k | k in l.store :: k in m.store && m.store[k] == l.store[k])
    requires a.stage.Ready? ==> HashValid(m, a, h.0)
    requires h.1 == StoredLen(l, h.0) && h.0 !in done
    requires a.unique == Sum<Hash>(Mix<Hash, int>(StoredCounted(l, a.stage), StoredCounted(m, a.stage), done))
    ensures AfterHash(m, a, h).Ok?
  {
    if HashCounted(a.stage, h.0) {
      StoredMixStep(l, m, a.stage, done, h.0);
      StoredMixFits(l, m, a.stage, done, h.0);
      StoredMixFits(l, m, a.stage, done + {h.0}, h.0);
    }
  }

  ghost predicate AllValid(l: Lifecycle, a: Accounting) {
    a.stage.Ready? ==> forall h: Hash :: HashValid(l, a, h)
  }

  lemma AllValidKept(l: Lifecycle, a: Accounting, b: Accounting, h: Hash)
    requires AllValid(l, a) && b.stage == a.stage && b.hashes == a.hashes
    ensures b.stage.Ready? ==> HashValid(l, b, h)
  {
    if a.stage.Ready? {
      assert HashValid(l, a, h);
    }
  }

  lemma {:induction false} AfterHashesFit(l: Lifecycle, m: Lifecycle, a: Accounting, hs: seq<(Hash, int)>)
    requires Sum<Hash>(m.store) <= U64_MAX && NonNegative(m.store) && (forall k | k in l.store :: k in m.store && m.store[k] == l.store[k])
    requires AllValid(m, a)
    requires forall i | 0 <= i < |hs| :: hs[i].1 == StoredLen(l, hs[i].0)
    requires forall i, j | 0 <= i < j < |hs| :: hs[i].0 != hs[j].0
    requires a.unique == Sum(StoredCounted(l, a.stage))
    ensures AfterHashes(m, a, hs).Ok?
  {
    if hs != [] {
      var init, last := hs[..|hs| - 1], hs[|hs| - 1];
      AfterHashesFit(l, m, a, init);
      AfterHashesStore(l, m, a, init);
      AllValidKept(m, a, AfterHashes(m, a, init).value, last.0);
      AfterHashFits(l, m, AfterHashes(m, a, init).value, last, FirstHashes(init));
    }
  }

  lemma BracketChecks(self: Author, l: Lifecycle, m: Lifecycle, a: Accounting, before: Before, ids: set<EventId>)
    requires CapturesEvents(self, l, before.events, ids) && PayloadAfter(self, m, a, before).Ok?
    ensures forall id | id in ids :: !MisStored(m, a.stage, id)
  {
    AfterEventsFrame(self, m, a, before.events);
    forall id | id in ids ensures !MisStored(m, a.stage, id) {
      var i :| 0 <= i < |before.events| && before.events[i].0 == id;
    }
  }

  /** Main result: with room, the bracket accepts unless a covered event was left with wrong bytes. */
  lemma BracketAccepts(self: Author, l: Lifecycle, m: Lifecycle, a: Accounting, before: Before, ids: set<EventId>,
                       hashes: set<Hash>)
    requires Exact(self, l, a) && Touches(l, m, ids, hashes) && Base(self, m) && Roomy(m) && NonNegative(m.store)
    requires CapturesEvents(self, l, before.events, ids) && CapturesHashes(l, before.hashes, hashes)
    ensures PayloadAfter(self, m, a, before).Ok? <==> forall id | id in ids :: !MisStored(m, a.stage, id)
  {
    if PayloadAfter(self, m, a, before).Ok? {
      BracketChecks(self, l, m, a, before, ids);
    }
    if forall id | id in ids :: !MisStored(m, a.stage, id) {
      AfterEventsFit(self, l, m, a, before.events);
      EventPassValid(self, l, m, a, before.events, ids, hashes);
      AfterEventsFrame(self, m, a, before.events);
      AfterHashesFit(l, m, AfterEvents(self, m, a, before.events).value, before.hashes);
    }
  }

  // When the reducers themselves accept.

  lemma UsageFits(self: Author, l: Lifecycle)
    requires Base(self, l) && Roomy(l)
    ensures forall a | a in l.usage :: l.usage[a] <= U64_MAX
    ensures forall h | h in l.rc :: l.rc[h] <= |l.events|
  {
    var all := All(self, l);
    forall id: EventId ensures WithinAt(l.events, all, id) {
    }
    forall a | a in l.usage ensures l.usage[a] <= U64_MAX {
      WithinFits(l, all, a, 0);
      assert Get(l.usage, a) == Sum(LogicalsOf(all, a));
    }
    forall h | h in l.rc ensures l.rc[h] <= |l.events| {
      SubsetCount(References(all, h), l.events.Keys);
      assert Get(l.rc, h) == |References(all, h)|;
    }
  }

  lemma ReleaseAccepted(self: Author, l: Lifecycle, id: EventId, next: ContentState)
    requires id in l.events && Base(self, l) && Roomy(l) && !next.Missing?
    ensures SetState(l, id, Some(next)).Ok?
  {
    UsageFits(self, l);
    ReleaseSucceeds(self, l, id, next);
  }

  /** Deletion, pruning and invalidation of a known event are never refused. */
  lemma PruneAccepted(self: Author, l: Lifecycle, id: EventId)
    requires id in l.events && Base(self, l) && Roomy(l)
    ensures PruneContent(l, id).Ok? && QuotaPrune(l, id).Ok?
  {
    if Held(StateOf(l, id)) {
      ReleaseAccepted(self, l, id, Pruned);
    }
  }

  lemma MaterializeAccepted(self: Author, l: Lifecycle, id: EventId)
    requires id in l.events && Base(self, l) && Roomy(l) && StateOf(l, id) == Some(Missing)
    ensures SetState(l, id, None).Ok?
  {
    var all, c := All(self, l), ContributionOf(self, l.events[id], None);
    AuthorLogicalUpdate(all, id, c);
    forall x: EventId ensures WithinAt(l.events, all, x) {
    }
    WithinUpdate(l.events, all, id, c);
    WithinFits(l, all[id := c], c.author, c.hash);
    assert Get(l.usage, c.author) == Sum(LogicalsOf(all, c.author));
    LogicalsNonNegative(all, c.author);
  }

  /** One more event and one more payload of the given length still fit. */
  ghost predicate RoomFor(l: Lifecycle, len: nat) {
    && |l.events| < U64_MAX
    && Sum<EventId>(Lens(l.events)) + len <= U64_MAX
    && Sum<Hash>(l.store) + len <= U64_MAX
  }

  lemma HeaderAccepted(self: Author, l: Lifecycle, id: EventId, header: Header, deleted: bool)
    requires Base(self, l) && id !in l.events && RoomFor(l, header.len)
    ensures AddHeader(l, id, header, deleted).Ok?
  {
    UsageFits(self, l);
    assert header.hash in l.rc ==> l.rc[header.hash] != 0;
  }

  lemma DeleteAccepted(self: Author, l: Lifecycle, author: Author, parent: EventId)
    requires Base(self, l) && Roomy(l)
    ensures DeleteParent(l, author, parent).Ok?
    ensures DeleteParent(l, author, parent).value.events == l.events && DeleteParent(l, author, parent).value.store == l.store
  {
    if parent in l.events && l.events[parent].author == author {
      ReleaseAccepted(self, l, parent, Deleted);
    }
  }

  lemma OneMore<K, V>(m: map<K, V>, k: K, v: V)
    requires k !in m
    ensures |m[k := v]| == |m| + 1
  {
    assert m[k := v].Keys == m.Keys + {k};
  }

  lemma LensAdded(events: map<EventId, Header>, id: EventId, header: Header)
    requires id !in events
    ensures Sum<EventId>(Lens(events[id := header])) == Sum<EventId>(Lens(events)) + header.len
  {
    SumUpdate<EventId>(Lens(events), id, header.len);
    assert Lens(events[id := header]) == Lens(events)[id := header.len];
  }

  lemma StoredAdded(store: map<Hash, int>, h: Hash, len: nat)
    requires h !in store
    ensures Sum<Hash>(store[h := len]) == Sum<Hash>(store) + len
  {
    SumUpdate<Hash>(store, h, len);
  }

  /** The event table after an insertion, and the at most empty bytes it stores, still fit. */
  lemma InsertedRoomy(l: Lifecycle, m: Lifecycle, id: EventId, header: Header)
    requires RoomFor(l, header.len) && id !in l.events && m.events == l.events[id := header]
    requires m.store == l.store || (header.hash !in l.store && m.store == l.store[header.hash := 0])
    ensures Roomy(m)
  {
    OneMore<EventId, Header>(l.events, id, header);
    LensAdded(l.events, id, header);
    if header.hash !in l.store {
      StoredAdded(l.store, header.hash, 0);
    }
  }

  lemma InsertAccepted(self: Author, l: Lifecycle, e: Envelope)
    requires Base(self, l) && e.id !in l.events && RoomFor(l, e.header.len)
    ensures InsertEvent(l, e).Ok? && Roomy(InsertEvent(l, e).value)
  {
    var note := (e.header.author, e.id);
    var cleared := l.(tombstones := l.tombstones - {note});
    assert All(self, cleared) == All(self, l);
    var linked := cleared;
    if e.parentAux.Some? && e.deletesParent {
      DeleteAccepted(self, cleared, e.header.author, e.parentAux.value);
      linked := DeleteParent(cleared, e.header.author, e.parentAux.value).value;
      DeleteReduces(self, cleared, e.header.author, e.parentAux.value, CapturedIds(e.id, e.parentAux),
        CapturedHashes(cleared, e.id, e.header.hash, e.parentAux));
    }
    HeaderAccepted(self, linked, e.id, e.header, note in l.tombstones);
    InsertProcesses(l, e);
    InsertedRoomy(l, InsertEvent(l, e).value, e.id, e.header);
  }

  lemma PrunedSame(self: Author, l: Lifecycle, id: EventId)
    requires id in l.events && Base(self, l) && Roomy(l)
    ensures PruneContent(l, id).Ok? && Base(self, PruneContent(l, id).value) && Roomy(PruneContent(l, id).value)
    ensures PruneContent(l, id).value.events == l.events
  {
    PruneAccepted(self, l, id);
    PruneReduces(self, l, id, {id}, {l.events[id].hash});
    if Held(StateOf(l, id)) {
      SetStateProcesses(l, id, Pruned);
    }
  }

  lemma InsertionRoomy(self: Author, l: Lifecycle, e: Envelope)
    requires Base(self, l) && RoomFor(l, e.header.len)
    ensures InsertEvent(l, e).Ok?
    ensures var m := InsertEvent(l, e).value; Base(self, m) && Roomy(m) && e.id in m.events
  {
    if e.id !in l.events {
      InsertAccepted(self, l, e);
    }
    InsertReduces(self, l, e);
  }

  /** Reduction is insertion followed by at most two prunes of the inserted event. */
  lemma EnvelopeShape(l: Lifecycle, e: Envelope, maxLen: nat, m: Lifecycle, p: Lifecycle, q: Lifecycle)
    requires InsertEvent(l, e) == Ok(m) && e.id in m.events
    requires PruneContent(m, e.id) == Ok(p) && e.id in p.events && PruneContent(p, e.id) == Ok(q)
    ensures IngestEnvelope(l, e, maxLen) == Ok(m) || IngestEnvelope(l, e, maxLen) == Ok(p) || IngestEnvelope(l, e, maxLen) == Ok(q)
  {
  }

  /** With room, the reduction of an envelope never fails. */
  lemma EnvelopeAccepted(self: Author, l: Lifecycle, e: Envelope, maxLen: nat)
    requires Base(self, l) && RoomFor(l, e.header.len)
    ensures IngestEnvelope(l, e, maxLen).Ok? && Roomy(IngestEnvelope(l, e, maxLen).value)
  {
    InsertionRoomy(self, l, e);
    var m := InsertEvent(l, e).value;
    PrunedSame(self, m, e.id);
    var p := PruneContent(m, e.id).value;
    PrunedSame(self, p, e.id);
    EnvelopeShape(l, e, maxLen, m, p, PruneContent(p, e.id).value);
  }

  /** With room, the reduction of content never fails. */
  lemma ContentAccepted(self: Author, l: Lifecycle, id: EventId, len: nat, valid: bool, maxLen: nat)
    requires Base(self, l) && RoomFor(l, len) && (id in l.events ==> l.events[id].len == len)
    ensures IngestContent(l, id, valid, maxLen).Ok? && Roomy(IngestContent(l, id, valid, maxLen).value)
  {
    if id in l.events && l.events[id].len < maxLen && StateOf(l, id) == Some(Missing) {
      if !valid {
        ReleaseAccepted(self, l, id, Invalid);
      } else {
        var header := l.events[id];
        var m := l.(store := if header.hash in l.store then l.store else l.store[header.hash := header.len]);
        SumUpdate<Hash>(l.store, header.hash, header.len);
        assert All(self, m) == All(self, l);
        MaterializeAccepted(self, m, id);
      }
    }
  }
}
