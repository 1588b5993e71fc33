/**
 The bracket keeps the accounting invariant: for every stage of the rebuild and every
 reducer that stays within the captured rows, the totals stay the sums over exactly
 the covered rows.
 */
module PayloadBracketProofs {
  import opened Wrappers
  import opened Sums
  import opened PayloadTables
  import opened PayloadLifecycle
  import opened PayloadAccounting
  import opened PayloadBracket

  /** Rows of `done` already have their new value; the others still have the old one. */
  ghost function Mix<K, V>(m: map<K, V>, n: map<K, V>, done: set<K>): map<K, V> {
    map k | k in m.Keys + n.Keys && (if k in done then k in n else k in m) ::
      if k in done then n[k] else m[k]
  }

  lemma MixStep<K, V>(m: map<K, V>, n: map<K, V>, done: set<K>, k: K)
    requires k !in done
    ensures k in n ==> Mix(m, n, done + {k}) == Mix(m, n, done)[k := n[k]]
    ensures k !in n ==> Mix(m, n, done + {k}) == Mix(m, n, done) - {k}
    ensures k in Mix(m, n, done) <==> k in m
    ensures k in m ==> Mix(m, n, done)[k] == m[k]
  {
  }

  lemma MixAll<K, V>(m: map<K, V>, n: map<K, V>, done: set<K>)
    requires forall k | k in m.Keys + n.Keys && k !in done :: k in m && k in n && m[k] == n[k]
    ensures Mix(m, n, done) == n
  {
  }

  lemma MixNone<K, V>(m: map<K, V>, n: map<K, V>)
    ensures Mix(m, n, {}) == m
  {
  }

  ghost predicate Captured(self: Author, l: Lifecycle, e: (EventId, Option<Contribution>)) {
    e.1 == if e.0 in l.events then Some(ContributionOf(self, l.events[e.0], StateOf(l, e.0))) else None
  }

  ghost predicate HeadersKept(l: Lifecycle, m: Lifecycle) {
    forall id | id in l.events :: id in m.events && m.events[id] == l.events[id]
  }

  /** A covered Processed event whose stored bytes do not have the signed length. */
  ghost predicate MisStored(l: Lifecycle, stage: Stage, id: EventId) {
    Processed(l, id) && EventCounted(stage, id) && !WellStored(l, l.events[id])
  }

  /** Which table a covered event moves the totals to. */
  lemma AfterEventCounts(self: Author, l: Lifecycle, m: Lifecycle, a: Accounting, e: (EventId, Option<Contribution>),
                         mix: map<EventId, Contribution>)
    requires HeadersKept(l, m) && Captured(self, l, e)
    requires Totals(a, mix) && EventCounted(a.stage, e.0) && e.0 in m.events
    requires e.0 in mix <==> e.0 in l.events
    requires e.0 in mix ==> e.1 == Some(mix[e.0])
    requires AfterEvent(self, m, a, e).Ok?
    ensures Totals(AfterEvent(self, m, a, e).value, mix[e.0 := ContributionOf(self, m.events[e.0], StateOf(m, e.0))])
  {
    var c := ContributionOf(self, m.events[e.0], StateOf(m, e.0));
    if e.0 in l.events {
      var b := AdjustContribution(a, e.1.value, false).value;
      ReplaceCounts(a, b, mix, e.0, c);
      assert AfterEvent(self, m, a, e) == AdjustContribution(b, c, true);
    } else {
      AddCounts(a, mix, e.0, c);
      assert AfterEvent(self, m, a, e) == AdjustContribution(a, c, true);
    }
  }

  lemma AfterEventMixes(self: Author, l: Lifecycle, m: Lifecycle, a: Accounting, e: (EventId, Option<Contribution>),
                        done: set<EventId>)
    requires HeadersKept(l, m) && Captured(self, l, e) && e.0 !in done
    requires Totals(a, Mix<EventId, Contribution>(Counted(self, l, a.stage), Counted(self, m, a.stage), done))
    requires AfterEvent(self, m, a, e).Ok?
    ensures Totals(AfterEvent(self, m, a, e).value, Mix<EventId, Contribution>(Counted(self, l, a.stage), Counted(self, m, a.stage), done + {e.0}))
  {
    var was, now := Counted(self, l, a.stage), Counted(self, m, a.stage);
    var mix := Mix<EventId, Contribution>(was, now, done);
    MixStep<EventId, Contribution>(was, now, done, e.0);
    if EventCounted(a.stage, e.0) && e.0 in m.events {
      var c := ContributionOf(self, m.events[e.0], StateOf(m, e.0));
      assert now[e.0] == c;
      AfterEventCounts(self, l, m, a, e, mix);
      var next := Mix<EventId, Contribution>(was, now, done + {e.0});
      assert next == mix[e.0 := c];
      assert Totals(AfterEvent(self, m, a, e).value, next);
    } else {
      assert Mix<EventId, Contribution>(was, now, done + {e.0}) == mix;
      assert AfterEvent(self, m, a, e) == Ok(a);
    }
  }

  lemma AfterEventFrame(self: Author, m: Lifecycle, a: Accounting, e: (EventId, Option<Contribution>))
    requires AfterEvent(self, m, a, e).Ok?
    ensures var b := AfterEvent(self, m, a, e).value;
      && b == a.(logical := b.logical, hashes := b.hashes, authors := b.authors)
      && !MisStored(m, a.stage, e.0)
  {
  }

  lemma AfterEventRefuses(self: Author, m: Lifecycle, a: Accounting, e: (EventId, Option<Contribution>))
    requires AfterEvent(self, m, a, e).Err?
    ensures AfterEvent(self, m, a, e).error.Overflow? || MisStored(m, a.stage, e.0)
  {
  }

  ghost function FirstIds(es: seq<(EventId, Option<Contribution>)>): set<EventId> {
    set i | 0 <= i < |es| :: es[i].0
  }

  lemma {:induction false} AfterEventsFrame(self: Author, m: Lifecycle, a: Accounting,
                                            es: seq<(EventId, Option<Contribution>)>)
    requires AfterEvents(self, m, a, es).Ok?
    ensures var b := AfterEvents(self, m, a, es).value;
      && b == a.(logical := b.logical, hashes := b.hashes, authors := b.authors)
      && forall i | 0 <= i < |es| :: !MisStored(m, a.stage, es[i].0)
  {
    if es != [] {
      var init := es[..|es| - 1];
      AfterEventsFrame(self, m, a, init);
      AfterEventFrame(self, m, AfterEvents(self, m, a, init).value, es[|es| - 1]);
    }
  }

  lemma {:induction false} AfterEventsMix(self: Author, l: Lifecycle, m: Lifecycle, a: Accounting,
                                          es: seq<(EventId, Option<Contribution>)>)
    requires HeadersKept(l, m)
    requires forall i | 0 <= i < |es| :: Captured(self, l, es[i])
    requires forall i, j | 0 <= i < j < |es| :: es[i].0 != es[j].0
    requires Totals(a, Counted(self, l, a.stage))
    requires AfterEvents(self, m, a, es).Ok?
    ensures Totals(AfterEvents(self, m, a, es).value,
              Mix<EventId, Contribution>(Counted(self, l, a.stage), Counted(self, m, a.stage), FirstIds(es)))
  {
    if es == [] {
      assert FirstIds(es) == {};
      MixNone<EventId, Contribution>(Counted(self, l, a.stage), Counted(self, m, a.stage));
    } else {
      var init, last := es[..|es| - 1], es[|es| - 1];
      AfterEventsMix(self, l, m, a, init);
      AfterEventsFrame(self, m, a, init);
      assert FirstIds(es) == FirstIds(init) + {last.0};
      AfterEventMixes(self, l, m, AfterEvents(self, m, a, init).value, last, FirstIds(init));
    }
  }

  lemma {:induction false} AfterEventsRefuse(self: Author, m: Lifecycle, a: Accounting,
                                             es: seq<(EventId, Option<Contribution>)>)
    ensures var r := AfterEvents(self, m, a, es);
      match r
      case Ok(b) => b.stage == a.stage
      case Err(error) => error.Overflow? || exists i :: 0 <= i < |es| && MisStored(m, a.stage, es[i].0)
  {
    if es != [] {
      var init, last := es[..|es| - 1], es[|es| - 1];
      AfterEventsRefuse(self, m, a, init);
      var done := AfterEvents(self, m, a, init);
      if done.Ok? {
        if AfterEvent(self, m, done.value, last).Err? {
          AfterEventRefuses(self, m, done.value, last);
        }
      } else if !done.error.Overflow? {
        var i :| 0 <= i < |init| && MisStored(m, a.stage, init[i].0);
        assert es[i] == init[i];
      }
    }
  }

  // Unique stored bytes.

  ghost function FirstHashes(hs: seq<(Hash, int)>): set<Hash> {
    set i | 0 <= i < |hs| :: hs[i].0
  }

  lemma AfterHashStores(l: Lifecycle, m: Lifecycle, a: Accounting, h: (Hash, int), done: set<Hash>)
    requires h.1 == StoredLen(l, h.0) && h.0 !in done
    requires a.unique == Sum(Mix<Hash, int>(StoredCounted(l, a.stage), StoredCounted(m, a.stage), done))
    requires AfterHash(m, a, h).Ok?
    ensures AfterHash(m, a, h).value.unique ==
      Sum(Mix<Hash, int>(StoredCounted(l, a.stage), StoredCounted(m, a.stage), done + {h.0}))
  {
    var was, now := StoredCounted(l, a.stage), StoredCounted(m, a.stage);
    MixStep<Hash, int>(was, now, done, h.0);
    if h.0 in now {
      SumUpdate(Mix<Hash, int>(was, now, done), h.0, now[h.0]);
    } else {
      SumRemove(Mix<Hash, int>(was, now, done), h.0);
      assert Get(Mix<Hash, int>(was, now, done), h.0) == Get(was, h.0);
      if HashCounted(a.stage, h.0) {
        assert h.0 !in m.store && Get(was, h.0) == h.1;
      } else {
        assert h.0 !in was;
      }
      assert Mix<Hash, int>(was, now, done + {h.0}) == Mix<Hash, int>(was, now, done) - {h.0};
    }
  }

  lemma FirstHashesNext(hs: seq<(Hash, int)>)
    requires hs != []
    ensures FirstHashes(hs) == FirstHashes(hs[..|hs| - 1]) + {hs[|hs| - 1].0}
  {
  }

  lemma {:induction false} AfterHashesFrame(m: Lifecycle, a: Accounting, hs: seq<(Hash, int)>)
    requires AfterHashes(m, a, hs).Ok?
    ensures var b := AfterHashes(m, a, hs).value;
      && b == a.(unique := b.unique, queue := b.queue)
      && b.queue == a.queue + (set h | h in FirstHashes(hs) && h in a.provenance && h !in m.rc)
  {
    if hs == [] {
      assert FirstHashes(hs) == {};
    } else {
      AfterHashesFrame(m, a, hs[..|hs| - 1]);
      FirstHashesNext(hs);
    }
  }

  lemma {:induction false} AfterHashesSum(l: Lifecycle, m: Lifecycle, a: Accounting, hs: seq<(Hash, int)>)
    requires forall i | 0 <= i < |hs| :: hs[i].1 == StoredLen(l, hs[i].0)
    requires forall i, j | 0 <= i < j < |hs| :: hs[i].0 != hs[j].0
    requires a.unique == Sum(StoredCounted(l, a.stage))
    requires AfterHashes(m, a, hs).Ok?
    ensures AfterHashes(m, a, hs).value.unique ==
      Sum(Mix<Hash, int>(StoredCounted(l, a.stage), StoredCounted(m, a.stage), FirstHashes(hs)))
  {
    if hs == [] {
      assert FirstHashes(hs) == {};
      MixNone<Hash, int>(StoredCounted(l, a.stage), StoredCounted(m, a.stage));
    } else {
      var init, last := hs[..|hs| - 1], hs[|hs| - 1];
      AfterHashesSum(l, m, a, init);
      AfterHashesFrame(m, a, init);
      FirstHashesNext(hs);
      AfterHashStores(l, m, AfterHashes(m, a, init).value, last, FirstHashes(init));
    }
  }

  lemma AfterHashesStore(l: Lifecycle, m: Lifecycle, a: Accounting, hs: seq<(Hash, int)>)
    requires forall i | 0 <= i < |hs| :: hs[i].1 == StoredLen(l, hs[i].0)
    requires forall i, j | 0 <= i < j < |hs| :: hs[i].0 != hs[j].0
    requires a.unique == Sum(StoredCounted(l, a.stage))
    requires AfterHashes(m, a, hs).Ok?
    ensures var b := AfterHashes(m, a, hs).value;
      && b.unique == Sum(Mix<Hash, int>(StoredCounted(l, a.stage), StoredCounted(m, a.stage), FirstHashes(hs)))
      && b == a.(unique := b.unique, queue := b.queue)
      && b.queue == a.queue + (set h | h in FirstHashes(hs) && h in a.provenance && h !in m.rc)
  {
    AfterHashesSum(l, m, a, hs);
    AfterHashesFrame(m, a, hs);
  }

  lemma {:induction false} AfterHashesRefuse(m: Lifecycle, a: Accounting, hs: seq<(Hash, int)>)
    requires a.stage.Ready? ==> forall h: Hash :: HashValid(m, a, h)
    ensures var r := AfterHashes(m, a, hs);
      match r
      case Ok(b) => b.stage == a.stage && b.hashes == a.hashes
      case Err(error) => error.Overflow?
  {
    if hs != [] {
      AfterHashesRefuse(m, a, hs[..|hs| - 1]);
      var done := AfterHashes(m, a, hs[..|hs| - 1]);
      if done.Ok? && a.stage.Ready? {
        assert HashValid(m, a, hs[|hs| - 1].0);
      }
    }
  }

  // The bracket as a whole.

  lemma CountedFrame(self: Author, l: Lifecycle, m: Lifecycle, stage: Stage, ids: set<EventId>, hashes: set<Hash>)
    requires Touches(l, m, ids, hashes)
    ensures Mix<EventId, Contribution>(Counted(self, l, stage), Counted(self, m, stage), ids) == Counted(self, m, stage)
  {
    MixAll<EventId, Contribution>(Counted(self, l, stage), Counted(self, m, stage), ids);
  }

  lemma StoredFrame(l: Lifecycle, m: Lifecycle, stage: Stage, ids: set<EventId>, hashes: set<Hash>)
    requires Touches(l, m, ids, hashes)
    ensures Mix<Hash, int>(StoredCounted(l, stage), StoredCounted(m, stage), hashes) == StoredCounted(m, stage)
  {
    MixAll<Hash, int>(StoredCounted(l, stage), StoredCounted(m, stage), hashes);
  }

  /** After the event pass the totals are those of the new lifecycle tables. */
  lemma EventPassExact(self: Author, l: Lifecycle, m: Lifecycle, a: Accounting,
                       es: seq<(EventId, Option<Contribution>)>, ids: set<EventId>, hashes: set<Hash>)
    requires Touches(l, m, ids, hashes) && CapturesEvents(self, l, es, ids)
    requires Totals(a, Counted(self, l, a.stage))
    requires AfterEvents(self, m, a, es).Ok?
    ensures Totals(AfterEvents(self, m, a, es).value, Counted(self, m, a.stage))
  {
    AfterEventsMix(self, l, m, a, es);
    assert FirstIds(es) == ids;
    CountedFrame(self, l, m, a.stage, ids, hashes);
  }

  /** Main result: the bracket re-establishes the sums over exactly the covered rows. */
  lemma BracketExact(self: Author, l: Lifecycle, m: Lifecycle, a: Accounting, before: Before, ids: set<EventId>,
                     hashes: set<Hash>)
    requires Exact(self, l, a) && Touches(l, m, ids, hashes)
    requires CapturesEvents(self, l, before.events, ids) && CapturesHashes(l, before.hashes, hashes)
    requires PayloadAfter(self, m, a, before).Ok?
    ensures var b := PayloadAfter(self, m, a, before).value;
      && Exact(self, m, b)
      && b.stage == a.stage && b.provenance == a.provenance && b.recovery == a.recovery
      && b.queue == a.queue + (set h | h in hashes && h in a.provenance && h !in m.rc)
  {
    var mid := AfterEvents(self, m, a, before.events).value;
    EventPassExact(self, l, m, a, before.events, ids, hashes);
    AfterEventsFrame(self, m, a, before.events);
    AfterHashesStore(l, m, mid, before.hashes);
    assert FirstHashes(before.hashes) == hashes;
    StoredFrame(l, m, a.stage, ids, hashes);
  }

  lemma CountedAll(self: Author, l: Lifecycle, stage: Stage)
    requires !stage.Events?
    ensures Counted(self, l, stage) == All(self, l)
  {
  }

  /** With exact totals every validation of a count or of an author's usage row succeeds. */
  lemma ReadyValid(self: Author, l: Lifecycle, a: Accounting)
    requires Base(self, l) && Totals(a, All(self, l))
    ensures forall h: Hash :: HashValid(l, a, h)
    ensures forall id | id in l.events :: AuthorValid(l, a, l.events[id].author)
    ensures forall x | x in l.usage :: l.usage[x] == Get(a.authors, x)
    ensures forall x | x in a.authors :: AuthorValid(l, a, x)
  {
    forall h: Hash
      ensures HashValid(l, a, h)
    {
      assert Get(l.rc, h) == |References(All(self, l), h)|;
      assert Row(a.hashes, h).references == |References(All(self, l), h)|;
    }
    forall x: Author
      ensures Get(l.usage, x) == Get(a.authors, x)
    {
      assert Get(l.usage, x) == Sum(LogicalsOf(All(self, l), x));
    }
    forall id | id in l.events
      ensures AuthorValid(l, a, l.events[id].author)
    {
      assert id in All(self, l) && All(self, l)[id].author == l.events[id].author;
    }
    forall x | x in a.authors
      ensures AuthorValid(l, a, x)
    {
      assert HasAuthor(All(self, l), x);
      var id :| id in All(self, l) && All(self, l)[id].author == x;
    }
  }

  lemma EventPassValid(self: Author, l: Lifecycle, m: Lifecycle, a: Accounting,
                       es: seq<(EventId, Option<Contribution>)>, ids: set<EventId>, hashes: set<Hash>)
    requires Touches(l, m, ids, hashes) && CapturesEvents(self, l, es, ids) && Base(self, m)
    requires Totals(a, Counted(self, l, a.stage))
    requires AfterEvents(self, m, a, es).Ok?
    ensures var mid := AfterEvents(self, m, a, es).value;
      AuthorsValid(m, mid, es) && (mid.stage.Ready? ==> forall h: Hash :: HashValid(m, mid, h))
  {
    AfterEventsFrame(self, m, a, es);
    if a.stage.Ready? {
      EventPassExact(self, l, m, a, es, ids, hashes);
      CountedAll(self, m, a.stage);
      ReadyValid(self, m, AfterEvents(self, m, a, es).value);
    }
  }

  /** The bracket refuses a transaction only on counter overflow or mis-stored bytes. */
  lemma BracketRefuses(self: Author, l: Lifecycle, m: Lifecycle, a: Accounting, before: Before, ids: set<EventId>,
                       hashes: set<Hash>)
    requires Exact(self, l, a) && Touches(l, m, ids, hashes) && Base(self, m)
    requires CapturesEvents(self, l, before.events, ids)
    requires PayloadAfter(self, m, a, before).Err?
    ensures PayloadAfter(self, m, a, before).error.Overflow? || exists id :: id in ids && MisStored(m, a.stage, id)
  {
    AfterEventsRefuse(self, m, a, before.events);
    var mid := AfterEvents(self, m, a, before.events);
    if mid.Ok? {
      EventPassValid(self, l, m, a, before.events, ids, hashes);
      AfterHashesRefuse(m, mid.value, before.hashes);
    } else if !mid.error.Overflow? {
      var i :| 0 <= i < |before.events| && MisStored(m, a.stage, before.events[i].0);
      assert before.events[i].0 in ids;
    }
  }

  /** A reducer never strands a covered Processed event without its bytes. */
  lemma BracketKeepsBytes(self: Author, l: Lifecycle, m: Lifecycle, a: Accounting, before: Before, ids: set<EventId>,
                          hashes: set<Hash>)
    requires BytesKept(l, a.stage) && Touches(l, m, ids, hashes)
    requires CapturesEvents(self, l, before.events, ids)
    requires PayloadAfter(self, m, a, before).Ok?
    ensures BytesKept(m, a.stage)
  {
    AfterEventsFrame(self, m, a, before.events);
    forall id | Processed(m, id) && EventCounted(a.stage, id)
      ensures WellStored(m, m.events[id])
    {
      if id in ids {
        var i :| 0 <= i < |before.events| && before.events[i].0 == id;
        assert !MisStored(m, a.stage, before.events[i].0);
      } else {
        assert StateOf(l, id) == StateOf(m, id);
        assert Processed(l, id);
      }
    }
  }

  /** Replay protection only grows, because headers are retained forever. */
  lemma ProtectionKept(self: Author, l: Lifecycle, m: Lifecycle, h: Hash)
    requires HeadersKept(l, m) && ProtectedBy(All(self, l), h)
    ensures ProtectedBy(All(self, m), h)
  {
    var id :| id in All(self, l) && All(self, l)[id].hash == h && All(self, l)[id].protected;
    assert id in All(self, m) && All(self, m)[id].hash == h && All(self, m)[id].protected;
  }

  /** A final release of quota-owned bytes is requeued; nothing without provenance is. */
  lemma BracketQueues(self: Author, l: Lifecycle, m: Lifecycle, a: Accounting, b: Accounting, ids: set<EventId>,
                      hashes: set<Hash>)
    requires Queued(self, l, a) && Touches(l, m, ids, hashes)
    requires b.provenance == a.provenance
    requires b.queue == a.queue + (set h | h in hashes && h in a.provenance && h !in m.rc)
    ensures Queued(self, m, b)
  {
    forall h | h in b.provenance
      ensures KnownHash(m, h)
    {
      var id :| id in l.events && l.events[id].hash == h;
      assert id in m.events && m.events[id].hash == h;
    }
    forall h: Hash | Collectable(self, m, b, h)
      ensures h in b.queue
    {
      if h !in hashes {
        if ProtectedBy(All(self, l), h) {
          ProtectionKept(self, l, m, h);
        }
        assert Collectable(self, l, a, h);
      }
    }
  }

  /** Once every event is covered, the count of one hash is validated without fail. */
  lemma HashAgrees(self: Author, l: Lifecycle, a: Accounting, h: Hash)
    requires Base(self, l) && Exact(self, l, a) && !a.stage.Events?
    ensures HashValid(l, a, h)
  {
    CountedAll(self, l, a.stage);
    ReadyValid(self, l, a);
  }

  /** And so are the bytes of one author. */
  lemma AuthorAgrees(self: Author, l: Lifecycle, a: Accounting, x: Author)
    requires Base(self, l) && Exact(self, l, a) && !a.stage.Events?
    ensures x in l.usage ==> l.usage[x] == Get(a.authors, x)
    ensures x in a.authors ==> AuthorValid(l, a, x)
  {
    CountedAll(self, l, a.stage);
    ReadyValid(self, l, a);
  }

  // What the checks of the bracket detect, whatever rows they find.

  /** The count of a hash is a positive number or absent, and is the recorded number of references. */
  ghost predicate CountAgrees(l: Lifecycle, a: Accounting, h: Hash) {
    && (h in l.rc ==> l.rc[h] != 0)
    && (if h in l.rc then l.rc[h] else 0) == (if h in a.hashes then a.hashes[h].references else 0)
  }

  /** The usage row of an author exists and is the recorded total. */
  ghost predicate UsageAgrees(l: Lifecycle, a: Accounting, author: Author) {
    author in l.usage && l.usage[author] == if author in a.authors then a.authors[author] else 0
  }

  lemma {:induction false} HashesDetect(l: Lifecycle, a: Accounting, hs: seq<(Hash, int)>)
    requires a.stage.Ready? && AfterHashes(l, a, hs).Ok?
    ensures var b := AfterHashes(l, a, hs).value; b.stage == a.stage && b.hashes == a.hashes && b.authors == a.authors
    ensures forall i | 0 <= i < |hs| :: CountAgrees(l, a, hs[i].0)
  {
    if hs != [] {
      HashesDetect(l, a, hs[..|hs| - 1]);
    }
  }

  /** At Ready an accepted bracket leaves no captured count or usage row in disagreement with the recorded totals. */
  lemma BracketDetects(self: Author, l: Lifecycle, a: Accounting, before: Before)
    requires a.stage.Ready? && PayloadAfter(self, l, a, before).Ok?
    ensures var b := PayloadAfter(self, l, a, before).value;
      && (forall i | 0 <= i < |before.hashes| :: CountAgrees(l, b, before.hashes[i].0))
      && (forall i | 0 <= i < |before.events| && before.events[i].0 in l.events ::
           UsageAgrees(l, b, l.events[before.events[i].0].author))
  {
    AfterEventsFrame(self, l, a, before.events);
    var events := AfterEvents(self, l, a, before.events).value;
    HashesDetect(l, events, before.hashes);
    forall i | 0 <= i < |before.events| && before.events[i].0 in l.events
      ensures UsageAgrees(l, events, l.events[before.events[i].0].author)
    {
      assert AuthorValid(l, events, l.events[before.events[i].0].author);
    }
  }
}
