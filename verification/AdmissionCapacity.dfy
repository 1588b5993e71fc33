/**
 Logical admission capacity: retained bytes of Processed events plus the bytes
 reserved for Missing ones, per author and for the whole database.
 */
module AdmissionCapacity {
  import opened OrderedKeys
  import opened Sums

  type EventId = nat
  type Author = nat

  datatype Config = Config(
    databaseBytes: nat,
    authorBytes: nat,
    overrides: map<Author, nat>,
    inFlightCount: nat,
    inFlightBytes: nat)
  {
    /** The strict ceiling of one author. */
    function AuthorHigh(a: Author): nat {
      if a in overrides then overrides[a] else authorBytes
    }
  }

  /** Floor of ninety percent, without overflowing a word. */
  function LowWater(high: nat): (low: nat)
    ensures 10 * low <= 9 * high < 10 * low + 10
    ensures low <= high
  {
    (high / 10) * 9 + ((high % 10) * 9) / 10
  }

  datatype Charge = Charge(author: Author, bytes: nat)

  datatype ReservedEvent = ReservedEvent(charge: Charge, id: nat)

  datatype Pause = AccountingNotReady | InFlightCount | AlreadyReserved | AuthorCapacity | DatabaseCapacity

  /** Committed event states and the shared ledger's logical leases. */
  datatype World = World(
    config: Config,
    processed: map<EventId, Charge>,
    missing: map<EventId, Charge>,
    finished: set<EventId>,
    leases: map<EventId, ReservedEvent>,
    nextId: nat)

  // Weighted sums over charges.

  ghost function Bytes(m: map<EventId, Charge>): map<EventId, int> {
    map e | e in m :: m[e].bytes
  }

  ghost function BytesOf(m: map<EventId, Charge>, a: Author): map<EventId, int> {
    map e | e in m && m[e].author == a :: m[e].bytes
  }

  ghost function Charges(leases: map<EventId, ReservedEvent>): map<EventId, Charge> {
    map e | e in leases :: leases[e].charge
  }

  /** Reservations that are not yet retained bytes. */
  ghost function Pending(w: World): map<EventId, Charge> {
    map e | e in w.leases && e in w.missing :: w.leases[e].charge
  }

  ghost function Total(w: World): int {
    Sum<EventId>(Bytes(w.processed)) + Sum<EventId>(Bytes(Pending(w)))
  }

  ghost function TotalOf(w: World, a: Author): int {
    Sum<EventId>(BytesOf(w.processed, a)) + Sum<EventId>(BytesOf(Pending(w), a))
  }

  lemma PutBytes(m: map<EventId, Charge>, e: EventId, c: Charge, a: Author)
    requires e !in m
    ensures Sum<EventId>(Bytes(m[e := c])) == Sum<EventId>(Bytes(m)) + c.bytes
    ensures Sum<EventId>(BytesOf(m[e := c], a)) == Sum<EventId>(BytesOf(m, a)) + (if a == c.author then c.bytes else 0)
  {
    SumUpdate<EventId>(Bytes(m), e, c.bytes);
    assert Bytes(m[e := c]) == Bytes(m)[e := c.bytes];
    if a == c.author {
      SumUpdate<EventId>(BytesOf(m, a), e, c.bytes);
      assert BytesOf(m[e := c], a) == BytesOf(m, a)[e := c.bytes];
    } else {
      assert BytesOf(m[e := c], a) == BytesOf(m, a);
    }
  }

  lemma LessBytes(part: map<EventId, Charge>, whole: map<EventId, Charge>, a: Author)
    requires forall e | e in part :: e in whole && part[e] == whole[e]
    ensures Sum<EventId>(Bytes(part)) <= Sum<EventId>(Bytes(whole))
    ensures Sum<EventId>(BytesOf(part, a)) <= Sum<EventId>(BytesOf(whole, a))
  {
    SumMonotone<EventId>(Bytes(part), Bytes(whole));
    SumMonotone<EventId>(BytesOf(part, a), BytesOf(whole, a));
  }

  // The shared admission boundary.

  /** The ceiling that configuration sets for an author: its own override, or the common one. */
  ghost function Ceiling(config: Config, a: Author): nat {
    if a in config.overrides then config.overrides[a] else config.authorBytes
  }

  ghost function CapacityPause(w: World, e: EventId, c: Charge): (pause: set<Pause>) {
    var others := Charges(w.leases - {e});
    if Ceiling(w.config, c.author) <
       Sum<EventId>(BytesOf(w.processed, c.author)) + Sum<EventId>(BytesOf(others, c.author)) + c.bytes
    then {AuthorCapacity}
    else if w.config.databaseBytes < Sum<EventId>(Bytes(w.processed)) + Sum<EventId>(Bytes(others)) + c.bytes
    then {DatabaseCapacity}
    else {}
  }

  lemma OthersStep(leases: map<EventId, ReservedEvent>, done: set<EventId>, k: EventId, a: Author)
    requires k in leases && k !in done && done <= leases.Keys
    ensures var c := leases[k].charge;
      var m, n := Charges(leases - (leases.Keys - done)), Charges(leases - (leases.Keys - (done + {k})));
      && Sum<EventId>(Bytes(n)) == Sum<EventId>(Bytes(m)) + c.bytes
      && Sum<EventId>(BytesOf(n, a)) == Sum<EventId>(BytesOf(m, a)) + (if a == c.author then c.bytes else 0)
  {
    var m, n := Charges(leases - (leases.Keys - done)), Charges(leases - (leases.Keys - (done + {k})));
    assert n == m[k := leases[k].charge];
    PutBytes(m, k, leases[k].charge, a);
  }

  /** One pass over the leases, skipping the event's own. */
  method CheckCapacity(w: World, e: EventId, c: Charge, retained: int, retainedAuthor: int) returns (pause: set<Pause>)
    requires retained == Sum<EventId>(Bytes(w.processed))
    requires retainedAuthor == Sum<EventId>(BytesOf(w.processed, c.author))
    ensures pause == CapacityPause(w, e, c)
  {
    var others := w.leases - {e};
    var globalReserved, authorReserved := 0, 0;
    var rest := others.Keys;
    ghost var done: set<EventId> := {};
    assert Charges(others - (others.Keys - done)) == map[];
    assert Bytes(map[]) == map[] && BytesOf(map[], c.author) == map[];
    while rest != {}
      invariant rest == others.Keys - done && done <= others.Keys
      invariant globalReserved == Sum<EventId>(Bytes(Charges(others - (others.Keys - done))))
      invariant authorReserved == Sum<EventId>(BytesOf(Charges(others - (others.Keys - done)), c.author))
      decreases rest
    {
      var k := Any<EventId>(rest);
      OthersStep(others, done, k, c.author);
      globalReserved := globalReserved + others[k].charge.bytes;
      if others[k].charge.author == c.author {
        authorReserved := authorReserved + others[k].charge.bytes;
      }
      rest := rest - {k};
      done := done + {k};
    }
    assert others - (others.Keys - done) == others;
    if w.config.AuthorHigh(c.author) < retainedAuthor + authorReserved + c.bytes {
      return {AuthorCapacity};
    }
    if w.config.databaseBytes < retained + globalReserved + c.bytes {
      return {DatabaseCapacity};
    }
    return {};
  }

  // Steps of a run.

  datatype Op =
    | Arrive(event: EventId, charge: Charge)
    | Reserve(event: EventId)
    | Materialize(event: EventId, lease: nat, inline: bool)
    | Finish(event: EventId)
    | DropLease(event: EventId, lease: nat)
    | CommitHook(event: EventId)
    | Attach

  function Grant(w: World, e: EventId): World
    requires e in w.missing
  {
    w.(leases := w.leases[e := ReservedEvent(w.missing[e], w.nextId + 1)], nextId := w.nextId + 1)
  }

  ghost predicate Reservable(w: World, e: EventId) {
    e in w.missing && e !in w.leases && |w.leases| < w.config.inFlightCount && CapacityPause(w, e, w.missing[e]) == {}
  }

  /** Reserve a Missing event that has no lease, if a slot and both ceilings allow it. */
  ghost function ReserveStep(w: World, e: EventId): World {
    if Reservable(w, e) then Grant(w, e) else w
  }

  function Commit(w: World, e: EventId): World
    requires e in w.missing
  {
    w.(processed := w.processed[e := w.missing[e]], missing := w.missing - {e})
  }

  ghost predicate Committable(w: World, e: EventId) {
    e in w.missing && e in w.leases && CapacityPause(w, e, w.missing[e]) == {}
  }

  /** Commit of a payload: by the lease that was reserved for it, or by one taken in the same transaction. */
  ghost function MaterializeStep(w: World, e: EventId, lease: nat, inline: bool): World {
    if inline then
      if Reservable(w, e) && Committable(Grant(w, e), e) then Commit(Grant(w, e), e) else w
    else
      if Committable(w, e) && w.leases[e].id == lease then Commit(w, e) else w
  }

  /** A header of a payload that is not known yet. */
  function Arrived(w: World, e: EventId, c: Charge): World {
    if e in w.processed || e in w.missing || e in w.finished then w else w.(missing := w.missing[e := c])
  }

  /** Deletion, pruning or invalidation. */
  function Finished(w: World, e: EventId): World {
    if e in w.processed || e in w.missing
    then w.(processed := w.processed - {e}, missing := w.missing - {e}, finished := w.finished + {e})
    else w
  }

  /** A lease is dropped only by the identity that took it. */
  function Dropped(w: World, e: EventId, lease: nat): World {
    if e in w.leases && w.leases[e].id == lease then w.(leases := w.leases - {e}) else w
  }

  /** After a commit, an event that is no longer missing gives up its lease. */
  function Hooked(w: World, e: EventId): World {
    if e !in w.missing then w.(leases := w.leases - {e}) else w
  }

  /** One atomic step; a refused or stale request changes nothing. */
  ghost function Step(w: World, op: Op): World {
    match op
    case Arrive(e, c) => Arrived(w, e, c)
    case Reserve(e) => ReserveStep(w, e)
    case Materialize(e, lease, inline) => MaterializeStep(w, e, lease, inline)
    case Finish(e) => Finished(w, e)
    case DropLease(e, lease) => Dropped(w, e, lease)
    case CommitHook(e) => Hooked(w, e)
    case Attach => w.(leases := map[])
  }

  /** An event is processed, missing or finished, and a lease of a missing event carries its charge. */
  ghost predicate ValidAt(w: World, e: EventId) {
    && !(e in w.processed && e in w.missing)
    && (e in w.finished ==> e !in w.processed && e !in w.missing)
    && (e in w.leases ==>
          && (e in w.processed || e in w.missing || e in w.finished)
          && (e in w.missing ==> w.leases[e].charge == w.missing[e])
          && w.leases[e].id <= w.nextId)
  }

  ghost predicate Valid(w: World) {
    (forall e: EventId :: ValidAt(w, e)) && |w.leases| <= w.config.inFlightCount
  }

  function Max(x: int, y: int): int { if x < y then y else x }

  ghost predicate BoundedOf(w: World, v: World, a: Author) {
    TotalOf(v, a) <= Max(TotalOf(w, a), Ceiling(w.config, a))
  }

  /** The totals never grow past a ceiling they were within, nor further past one they exceeded. */
  ghost predicate Bounded(w: World, v: World) {
    && v.config == w.config
    && Total(v) <= Max(Total(w), w.config.databaseBytes)
    && forall a: Author :: BoundedOf(w, v, a)
  }

  lemma GrantTotals(w: World, e: EventId, a: Author)
    requires e in w.missing && e !in w.leases
    ensures Total(Grant(w, e)) == Total(w) + w.missing[e].bytes
    ensures TotalOf(Grant(w, e), a) == TotalOf(w, a) + (if a == w.missing[e].author then w.missing[e].bytes else 0)
  {
    assert Pending(Grant(w, e)) == Pending(w)[e := w.missing[e]];
    PutBytes(Pending(w), e, w.missing[e], a);
  }

  /** The check counts every other lease, so it bounds the pending ones. */
  lemma PauseBounds(w: World, e: EventId, c: Charge)
    requires CapacityPause(w, e, c) == {}
    ensures var others := Pending(w) - {e};
      && Sum<EventId>(Bytes(w.processed)) + Sum<EventId>(Bytes(others)) + c.bytes <= w.config.databaseBytes
      && Sum<EventId>(BytesOf(w.processed, c.author)) + Sum<EventId>(BytesOf(others, c.author)) + c.bytes <= Ceiling(w.config, c.author)
  {
    LessBytes(Pending(w) - {e}, Charges(w.leases - {e}), c.author);
  }

  lemma ReserveValid(w: World, e: EventId)
    requires Valid(w)
    ensures Valid(ReserveStep(w, e))
  {
    if Reservable(w, e) {
      var v := Grant(w, e);
      forall x: EventId ensures ValidAt(v, x) {
        assert ValidAt(w, x);
      }
      assert v.leases.Keys == w.leases.Keys + {e};
    }
  }

  lemma ReserveFits(w: World, e: EventId)
    requires Reservable(w, e)
    ensures Total(Grant(w, e)) <= w.config.databaseBytes
    ensures TotalOf(Grant(w, e), w.missing[e].author) <= Ceiling(w.config, w.missing[e].author)
  {
    PauseBounds(w, e, w.missing[e]);
    assert Pending(w) - {e} == Pending(w);
    GrantTotals(w, e, w.missing[e].author);
  }

  lemma ReserveBounded(w: World, e: EventId)
    requires Reservable(w, e)
    ensures Bounded(w, Grant(w, e))
  {
    ReserveFits(w, e);
    var v := Grant(w, e);
    forall a: Author ensures BoundedOf(w, v, a) {
      if a != w.missing[e].author {
        GrantTotals(w, e, a);
      }
    }
  }

  /** The event's own reservation turns into retained bytes and is counted once. */
  lemma CommitTotals(w: World, e: EventId, a: Author)
    requires Valid(w) && e in w.missing && e in w.leases
    ensures Total(Commit(w, e)) == Total(w) && TotalOf(Commit(w, e), a) == TotalOf(w, a)
  {
    var c := w.missing[e];
    var v := Commit(w, e);
    assert ValidAt(w, e);
    assert Pending(w) == Pending(v)[e := c];
    PutBytes(Pending(v), e, c, a);
    PutBytes(w.processed, e, c, a);
  }

  lemma CommitValid(w: World, e: EventId)
    requires Valid(w) && e in w.missing
    ensures Valid(Commit(w, e))
  {
    var v := Commit(w, e);
    forall x: EventId ensures ValidAt(v, x) {
      assert ValidAt(w, x);
    }
  }

  lemma CommitBounded(w: World, e: EventId)
    requires Valid(w) && e in w.missing && e in w.leases
    ensures Bounded(w, Commit(w, e))
  {
    var v := Commit(w, e);
    forall a: Author ensures BoundedOf(w, v, a) {
      CommitTotals(w, e, a);
    }
    CommitTotals(w, e, 0);
  }

  lemma BoundedTransitive(u: World, v: World, w: World)
    requires Bounded(u, v) && Bounded(v, w)
    ensures Bounded(u, w)
  {
    forall a: Author ensures BoundedOf(u, w, a) {
      assert BoundedOf(u, v, a) && BoundedOf(v, w, a);
    }
  }

  lemma StayBounded(w: World)
    ensures Bounded(w, w)
  {
    forall a: Author ensures BoundedOf(w, w, a) {
    }
  }

  lemma MaterializeKeeps(w: World, e: EventId, lease: nat, inline: bool)
    requires Valid(w)
    ensures Valid(MaterializeStep(w, e, lease, inline)) && Bounded(w, MaterializeStep(w, e, lease, inline))
  {
    if MaterializeStep(w, e, lease, inline) == w {
      StayBounded(w);
    } else if inline {
      ReserveValid(w, e);
      ReserveBounded(w, e);
      CommitValid(Grant(w, e), e);
      CommitBounded(Grant(w, e), e);
      BoundedTransitive(w, Grant(w, e), Commit(Grant(w, e), e));
    } else {
      CommitValid(w, e);
      CommitBounded(w, e);
    }
  }

  ghost predicate PartOf(part: map<EventId, Charge>, whole: map<EventId, Charge>) {
    forall e | e in part :: e in whole && part[e] == whole[e]
  }

  lemma ShrinkTotals(w: World, v: World, a: Author)
    requires PartOf(v.processed, w.processed) && PartOf(Pending(v), Pending(w))
    ensures Total(v) <= Total(w) && TotalOf(v, a) <= TotalOf(w, a)
  {
    LessBytes(v.processed, w.processed, a);
    LessBytes(Pending(v), Pending(w), a);
  }

  lemma ShrinkKeeps(w: World, v: World)
    requires v.config == w.config
    requires PartOf(v.processed, w.processed) && PartOf(Pending(v), Pending(w))
    ensures Bounded(w, v)
  {
    forall a: Author ensures BoundedOf(w, v, a) {
      ShrinkTotals(w, v, a);
    }
    ShrinkTotals(w, v, 0);
  }

  lemma FewerLeases(leases: map<EventId, ReservedEvent>, e: EventId)
    ensures |leases - {e}| <= |leases|
  {
    assert (leases - {e}).Keys == leases.Keys - {e};
    assert |leases.Keys - {e}| <= |leases.Keys|;
  }

  /** The same or fewer leases over the same charges. */
  lemma DropKeeps(w: World, v: World, e: EventId)
    requires Valid(w) && (v == w || v == w.(leases := w.leases - {e}))
    ensures Valid(v) && Bounded(w, v)
  {
    FewerLeases(w.leases, e);
    forall x: EventId ensures ValidAt(v, x) {
      assert ValidAt(w, x);
    }
    ShrinkKeeps(w, v);
  }

  lemma FinishKeeps(w: World, e: EventId)
    requires Valid(w)
    ensures Valid(Finished(w, e)) && Bounded(w, Finished(w, e))
  {
    var v := Finished(w, e);
    forall x: EventId ensures ValidAt(v, x) {
      assert ValidAt(w, x);
    }
    ShrinkKeeps(w, v);
  }

  lemma ArriveKeeps(w: World, e: EventId, c: Charge)
    requires Valid(w)
    ensures Valid(Arrived(w, e, c)) && Bounded(w, Arrived(w, e, c))
  {
    var v := Arrived(w, e, c);
    forall x: EventId ensures ValidAt(v, x) {
      assert ValidAt(w, x);
    }
    assert PartOf(Pending(v), Pending(w)) by {
      assert ValidAt(w, e);
    }
    ShrinkKeeps(w, v);
  }

  /** Attaching to a newly opened database ends every logical lease; identities go on counting. */
  lemma AttachKeeps(w: World)
    requires Valid(w)
    ensures Valid(Step(w, Attach)) && Bounded(w, Step(w, Attach))
  {
    var v := Step(w, Attach);
    forall x: EventId ensures ValidAt(v, x) {
      assert ValidAt(w, x);
    }
    ShrinkKeeps(w, v);
  }

  lemma HookedLeases(w: World, e: EventId)
    ensures Hooked(w, e) == w || Hooked(w, e) == w.(leases := w.leases - {e})
  {
  }

  /** Every atomic step keeps both ceilings. */
  lemma StepKeeps(w: World, op: Op)
    requires Valid(w)
    ensures Valid(Step(w, op)) && Bounded(w, Step(w, op))
  {
    match op
    case Reserve(e) =>
      ReserveValid(w, e);
      if Reservable(w, e) {
        ReserveBounded(w, e);
      } else {
        StayBounded(w);
      }
    case Materialize(e, lease, inline) => MaterializeKeeps(w, e, lease, inline);
    case Attach => AttachKeeps(w);
    case Arrive(e, c) => ArriveKeeps(w, e, c);
    case Finish(e) => FinishKeeps(w, e);
    case DropLease(e, lease) => DropKeeps(w, Dropped(w, e, lease), e);
    case CommitHook(e) =>
      HookedLeases(w, e);
      DropKeeps(w, Hooked(w, e), e);
  }

  ghost function Run(w: World, ops: seq<Op>): World {
    if ops == [] then w else Step(Run(w, ops[..|ops| - 1]), ops[|ops| - 1])
  }

  /** Main result: over every run, totals within the ceilings stay within them. */
  lemma {:induction false} RunKeeps(w: World, ops: seq<Op>)
    requires Valid(w)
    ensures Valid(Run(w, ops)) && Bounded(w, Run(w, ops))
  {
    if ops == [] {
      StayBounded(w);
    } else {
      var init := ops[..|ops| - 1];
      RunKeeps(w, init);
      StepKeeps(Run(w, init), ops[|ops| - 1]);
      BoundedTransitive(w, Run(w, init), Run(w, ops));
    }
  }

  /** Lease identities are never reused: no step brings an absent one back. */
  lemma StaleStep(w: World, op: Op, e: EventId, stale: nat)
    requires (e !in w.leases || w.leases[e].id != stale) && stale <= w.nextId
    ensures stale <= Step(w, op).nextId && (e !in Step(w, op).leases || Step(w, op).leases[e].id != stale)
  {
  }

  lemma {:induction false} StaleStays(w: World, ops: seq<Op>, e: EventId, stale: nat)
    requires (e !in w.leases || w.leases[e].id != stale) && stale <= w.nextId
    ensures stale <= Run(w, ops).nextId && (e !in Run(w, ops).leases || Run(w, ops).leases[e].id != stale)
  {
    if ops != [] {
      var init := ops[..|ops| - 1];
      StaleStays(w, init, e, stale);
      StaleStep(Run(w, init), ops[|ops| - 1], e, stale);
    }
  }

  /** A stale owner's drop never cancels a lease taken after it. */
  lemma StaleDropHarmless(w: World, ops: seq<Op>, e: EventId, stale: nat)
    requires (e !in w.leases || w.leases[e].id != stale) && stale <= w.nextId
    ensures Step(Run(w, ops), DropLease(e, stale)) == Run(w, ops)
  {
    StaleStays(w, ops, e, stale);
  }
}
