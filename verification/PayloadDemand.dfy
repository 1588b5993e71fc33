/**
 Ranked preemption: a live demand for a Missing payload may evict one lower-ranked
 retained payload, or be durably rejected when everything retained outranks it.

 The writer lock makes one step atomic. When a cooperative deadline passes is a nondeterministic
 choice, open only to a step in which it passes at all (`late`).
 */
module PayloadDemand {
  import opened Wrappers
  import opened Sums
  import opened AdmissionCapacity
  import opened RetentionScan

  /** Rank and size of one Missing payload, rederived from its durable envelope. */
  datatype Incoming = Incoming(author: RetentionScan.Author, bytes: nat, key: Key)

  datatype DemandEntry = DemandEntry(scan: Option<Scan>, id: nat, bytes: nat, created: Timestamp, expires: Timestamp)

  /** Identity of a policy generation and of an immutable configuration. */
  datatype Binding = Binding(generation: nat, config: nat)

  datatype DemandState = DemandState(
    active: Option<(EventId, nat)>,
    binding: Option<Binding>,
    entries: map<EventId, DemandEntry>,
    nextId: nat)
  {
    /** Forget every demand without reusing identities. */
    function Clear(): DemandState {
      DemandState(None, None, map[], nextId)
    }

    function Expire(now: Timestamp): DemandState {
      this.(entries := map e | e in entries && entries[e].created <= now < entries[e].expires :: entries[e])
    }

    function RemoveAll(events: set<EventId>): DemandState {
      this.(entries := entries - events)
    }

    /** A dropped owner removes only the entry with its own identity. */
    function DropOwner(event: EventId, id: nat): DemandState {
      if event in entries && entries[event].id == id then this.(entries := entries - {event}) else this
    }

    /** The plan that already evicted, while its exact demand is still registered. */
    predicate ActiveLive() {
      active.Some? && active.value.0 in entries && entries[active.value.0].id == active.value.1
    }
  }

  datatype DemandStep =
    | Idle
    | NotReady
    | Fits(event: EventId)
    | NoVictim(retryAt: Timestamp)
    | Continue
    | Bounded
    | Pruned(demand: EventId, victim: Key)
    | Rejected(rejected: EventId)

  /** Retained and reserved totals at the moment of the step. */
  datatype Usage = Usage(
    config: Config,
    retained: nat,
    retainedOf: map<RetentionScan.Author, nat>,
    reserved: nat,
    reservedOf: map<RetentionScan.Author, nat>)
  {
    function Of(m: map<RetentionScan.Author, nat>, a: RetentionScan.Author): nat {
      if a in m then m[a] else 0
    }

    predicate AuthorFull(c: Incoming) {
      config.AuthorHigh(c.author) < Of(retainedOf, c.author) + Of(reservedOf, c.author) + c.bytes
    }

    predicate DatabaseFull(c: Incoming) {
      config.databaseBytes < retained + reserved + c.bytes
    }

    predicate Fits(c: Incoming) {
      !AuthorFull(c) && !DatabaseFull(c)
    }

    /** The scope whose pressure the demand must relieve: author before database. */
    function PressureScope(c: Incoming): Option<RetentionScan.Author> {
      if AuthorFull(c) then Some(c.author) else None
    }

    /** Retained bytes alone, without temporary reservations, leave no room. */
    predicate RetainedFull(c: Incoming, author: Option<RetentionScan.Author>) {
      if author.Some?
      then config.AuthorHigh(author.value) < Of(retainedOf, author.value) + c.bytes
      else config.databaseBytes < retained + c.bytes
    }
  }

  // Room and pressure in terms of the totals alone.

  ghost function Recorded(m: map<RetentionScan.Author, nat>, a: RetentionScan.Author): nat {
    if a in m then m[a] else 0
  }

  /** With the payload its author would pass its own ceiling. */
  ghost predicate OverAuthor(u: Usage, c: Incoming) {
    Ceiling(u.config, c.author) < Recorded(u.retainedOf, c.author) + Recorded(u.reservedOf, c.author) + c.bytes
  }

  /** With the payload the database would pass its ceiling. */
  ghost predicate OverDatabase(u: Usage, c: Incoming) {
    u.config.databaseBytes < u.retained + u.reserved + c.bytes
  }

  ghost predicate HasRoom(u: Usage, c: Incoming) {
    !OverAuthor(u, c) && !OverDatabase(u, c)
  }

  /** The scope a demand must relieve: its author's payloads while its author is over, otherwise every payload. */
  ghost function ScopeToRelieve(u: Usage, c: Incoming): Option<RetentionScan.Author> {
    if OverAuthor(u, c) then Some(c.author) else None
  }

  /** Without any reservation the scope would still be over. */
  ghost predicate RetainedOver(u: Usage, c: Incoming) {
    if OverAuthor(u, c) then Ceiling(u.config, c.author) < Recorded(u.retainedOf, c.author) + c.bytes
    else u.config.databaseBytes < u.retained + c.bytes
  }

  /** Usage read from the admission state before the event's own lease is counted. */
  ghost predicate ReadFrom(u: Usage, w: World, e: EventId, a: RetentionScan.Author) {
    var others := Charges(w.leases - {e});
    && u.config == w.config
    && u.retained == Sum<EventId>(Bytes(w.processed)) && u.reserved == Sum<EventId>(Bytes(others))
    && Recorded(u.retainedOf, a) == Sum<EventId>(BytesOf(w.processed, a))
    && Recorded(u.reservedOf, a) == Sum<EventId>(BytesOf(others, a))
  }

  /** Preemption and admission agree on what fits, and on the ceiling that does not allow it. */
  lemma FitsAsAdmission(u: Usage, w: World, e: EventId, c: Incoming)
    requires ReadFrom(u, w, e, c.author)
    ensures CapacityPause(w, e, Charge(c.author, c.bytes)) ==
      if u.AuthorFull(c) then {AuthorCapacity} else if u.DatabaseFull(c) then {DatabaseCapacity} else {}
    ensures u.Fits(c) <==> CapacityPause(w, e, Charge(c.author, c.bytes)) == {}
    ensures u.PressureScope(c) == if AuthorCapacity in CapacityPause(w, e, Charge(c.author, c.bytes)) then Some(c.author) else None
  {
  }

  // Scanning for one plan.

  datatype PlanOutcome =
    | Next
    | Stop(rowsSpent: bool)
    | Victim(key: Key)
    | Reject

  /** Nothing lower-ranked is eligible, or the first victim in order exceeds the allowance. */
  ghost predicate Unrelievable(index: Index, author: Option<RetentionScan.Author>, key: Key, now: Timestamp,
                               maxBytes: nat) {
    || (forall j: Key :: EligibleKey(index, author, now, j) ==> key <= j)
    || OversizedMinimum(index, author, now, maxBytes)
  }

  /** Justification of what one plan's scan decided. */
  ghost predicate Justified(index: Index, usage: Usage, c: Incoming, now: Timestamp, maxBytes: nat, barred: bool,
                            outcome: PlanOutcome) {
    var author := ScopeToRelieve(usage, c);
    match outcome
    case Victim(k) =>
      && k in index.rows && index.rows[k].bytes <= maxBytes
      && k < c.key && Evictable(index.rows[k], author, now) && IsMinimum(index, author, now, k)
    case Reject =>
      && !barred && RetainedOver(usage, c)
      && (forall k | k in index.rows && Belongs(index.rows[k], author) :: c.key < k)
      && (exists m: Key :: IsMinimum(index, author, now, m) && m in index.rows
            && forall k | k in index.rows && Belongs(index.rows[k], author) :: m <= k)
    case Next =>
      Unrelievable(index, author, c.key, now, maxBytes)
    case Stop(_) => true
  }

  lemma ExhaustedUnrelievable(scan: Scan, index: Index, key: Key, maxBytes: nat)
    requires Sound(scan, index, Some(key)) && scan.revision == index.revision && SelectionReady(index, scan.observed)
    requires scan.exhausted || (scan.blockedBytes.Some? && maxBytes < scan.blockedBytes.value)
    ensures Unrelievable(index, scan.author, key, scan.observed, maxBytes)
    ensures !scan.exhausted ==> OversizedMinimum(index, scan.author, scan.observed, maxBytes)
  {
    if scan.exhausted {
      forall j: Key | EligibleKey(index, scan.author, scan.observed, j)
        ensures key <= j
      {
        FrontierExhausted(scan, index, Some(key), j);
      }
    } else {
      var m := FrontierBlocked(scan, index, Some(key));
    }
  }

  /** What one visited row did: a decision, the end of the frontier, or nothing but a step forward. */
  datatype RowOutcome = Decided(outcome: PlanOutcome) | Ended(byteBlocked: bool) | Skipped

  /** Decide about the first row after a prepared frontier. */
  method ScanRow(index: Index, usage: Usage, c: Incoming, scan0: Scan, maxBytes: nat, barred: bool, k: Key)
    returns (scan: Scan, r: RowOutcome)
    requires Sound(scan0, index, Some(c.key)) && scan0.revision == index.revision && SelectionReady(index, scan0.observed)
    requires scan0.author == usage.PressureScope(c) && !scan0.exhausted
    requires IsNextRow(index, scan0.author, scan0.after, Some(k))
    ensures Sound(scan, index, Some(c.key)) && scan.revision == index.revision
    ensures scan.author == scan0.author && scan.observed == scan0.observed
    ensures r.Decided? ==> !r.outcome.Next? && !r.outcome.Stop? && Justified(index, usage, c, scan.observed, maxBytes, barred, r.outcome)
    ensures r.Ended? ==> if r.byteBlocked then OversizedMinimum(index, scan.author, scan.observed, maxBytes) else scan.exhausted
    ensures r.Skipped? ==> !scan.exhausted && scan.after == Some(k)
    ensures r.Ended? && r.byteBlocked ==> scan.blockedBytes.Some? && maxBytes < scan.blockedBytes.value
    ensures r.Ended? && !r.byteBlocked ==> scan.after == scan0.after
  {
    scan := scan0;
    var row := index.rows[k];
    var current := Current(row, scan.observed);
    if !current {
      BlockedCurrent(scan, index, Some(c.key), k);
      NoteRetrySound(scan, index, Some(c.key), row);
      scan := NoteRetry(scan, row);
    }
    if c.key <= k {
      if c.key < k && current && scan.after.None? && !barred && usage.RetainedFull(c, scan.author) {
        FrontierMinimum(scan, index, Some(c.key), k);
        return scan, Decided(Reject);
      }
      ExhaustSound(scan, index, Some(c.key), Some(k));
      scan := scan.(exhausted := true);
      return scan, Ended(false);
    }
    if !current {
      SkipSound(scan0, index, Some(c.key), k);
      scan := scan.(after := Some(k));
      return scan, RowOutcome.Skipped;
    }
    FrontierMinimum(scan, index, Some(c.key), k);
    if maxBytes < row.bytes {
      BlockSound(scan, index, Some(c.key), k);
      scan := scan.(blockedBytes := Some(row.bytes));
      return scan, Ended(true);
    }
    return scan, Decided(Victim(k));
  }

  /** Visit rows after a prepared frontier until one decides, none is left, or a bound stops the scan. */
  method ScanRows(index: Index, usage: Usage, c: Incoming, from: Scan, maxBytes: nat, limit: nat, barred: bool,
                  late: bool)
    returns (scan: Scan, outcome: PlanOutcome, remaining: nat, advanced: bool, byteBlocked: bool)
    requires Sound(from, index, Some(c.key)) && from.revision == index.revision && SelectionReady(index, from.observed)
    requires from.author == usage.PressureScope(c) && !from.exhausted && (from.blockedBytes.Some? ==> from.blockedBytes.value <= maxBytes)
    ensures Sound(scan, index, Some(c.key)) && scan.revision == index.revision
    ensures scan.author == from.author && scan.observed == from.observed
    ensures Justified(index, usage, c, from.observed, maxBytes, barred, outcome)
    ensures remaining <= limit
    ensures outcome.Stop? ==> if outcome.rowsSpent then remaining == 0 else late
    ensures outcome.Next? || outcome.Stop? ==> (advanced || remaining < limit ==> Learns(from, scan))
    ensures outcome.Next? && !byteBlocked ==> scan.exhausted
    ensures outcome.Next? && byteBlocked ==> OversizedMinimum(index, scan.author, scan.observed, maxBytes)
  {
    scan, remaining, advanced, byteBlocked := from, limit, false, false;
    outcome := Next;
    while true
      invariant Sound(scan, index, Some(c.key)) && scan.revision == index.revision
      invariant scan.author == from.author && scan.observed == from.observed && !scan.exhausted
      invariant remaining <= limit && (if remaining == limit then scan == from && !advanced else Ahead(from, scan))
      decreases remaining
    {
      var expired := *;
      if late && expired {
        outcome := Stop(false);
        return;
      }
      if remaining == 0 {
        outcome := Stop(true);
        return;
      }
      var next := NextRow(index, scan.author, scan.after);
      if next.None? {
        ExhaustSound(scan, index, Some(c.key), next);
        scan := scan.(exhausted := true);
        ExhaustedUnrelievable(scan, index, c.key, maxBytes);
        advanced := true;
        return;
      }
      remaining := remaining - 1;
      var r;
      scan, r := ScanRow(index, usage, c, scan, maxBytes, barred, next.value);
      match r {
        case Decided(decision) =>
          outcome := decision;
          return;
        case Ended(blocked) =>
          if !blocked {
            ExhaustedUnrelievable(scan, index, c.key, maxBytes);
          }
          advanced, byteBlocked := advanced || !blocked, blocked;
          return;
        case Skipped =>
          advanced := true;
      }
    }
  }

  /** Advance one demand's frontier until it decides, is exhausted, or a bound stops it. */
  method ScanPlan(index: Index, usage: Usage, c: Incoming, scan0: Option<Scan>, now: Timestamp, maxBytes: nat,
                  limit: nat, barred: bool, late: bool)
    returns (scan: Scan, outcome: PlanOutcome, remaining: nat, advanced: bool, byteBlocked: bool)
    requires SelectionReady(index, now)
    requires scan0.Some? ==> Sound(scan0.value, index, Some(c.key))
    ensures Sound(scan, index, Some(c.key)) && scan.revision == index.revision
    ensures scan.author == ScopeToRelieve(usage, c) && scan.observed == now
    ensures Justified(index, usage, c, now, maxBytes, barred, outcome)
    ensures remaining <= limit
    ensures outcome.Stop? ==> if outcome.rowsSpent then remaining == 0 else late
    ensures outcome.Next? || outcome.Stop? ==>
      (advanced || remaining < limit ==> Learns(StartOf(index, ScopeToRelieve(usage, c), scan0, now), scan))
    ensures outcome.Next? && !byteBlocked ==> scan.exhausted
    ensures outcome.Next? && byteBlocked ==> OversizedMinimum(index, scan.author, now, maxBytes)
  {
    var author := usage.PressureScope(c);
    NewSound(index, author, now, Some(c.key));
    PrepareSound(if scan0.Some? then scan0.value else New(index.revision, author, now), index, author, now, Some(c.key));
    scan := Resumed(index, author, scan0, now);
    if scan.exhausted || (scan.blockedBytes.Some? && maxBytes < scan.blockedBytes.value) {
      ExhaustedUnrelievable(scan, index, c.key, maxBytes);
      return scan, Next, limit, false, !scan.exhausted;
    }
    scan, outcome, remaining, advanced, byteBlocked := ScanRows(index, usage, c, scan, maxBytes, limit, barred, late);
  }
}
