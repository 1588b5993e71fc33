/** Account-local arbitration between live demands: one atomic preemption step at a time. */
module PayloadArbiter {
  import opened Wrappers
  import opened OrderedKeys
  import opened Sums
  import opened AdmissionCapacity
  import opened RetentionScan
  import opened PayloadDemand

  ghost function IntentBytes(entries: map<EventId, DemandEntry>): map<EventId, int> {
    map e | e in entries :: entries[e].bytes
  }

  lemma IntentStep(entries: map<EventId, DemandEntry>, done: set<EventId>, e: EventId)
    requires e in entries && e !in done
    ensures Sum<EventId>(IntentBytes(entries - done)) == entries[e].bytes + Sum<EventId>(IntentBytes(entries - (done + {e})))
  {
    var rest := entries - done;
    SumRemove<EventId>(IntentBytes(rest), e);
    assert IntentBytes(entries - (done + {e})) == IntentBytes(rest) - {e};
  }

  /** Intent counters: number of entries and sum of their signed lengths. */
  method IntentUsage(entries: map<EventId, DemandEntry>) returns (count: nat, bytes: int)
    ensures count == |entries| && bytes == Sum<EventId>(IntentBytes(entries))
  {
    count, bytes := |entries|, 0;
    var rest := entries.Keys;
    ghost var done: set<EventId> := {};
    assert entries - done == entries;
    while rest != {}
      invariant rest == entries.Keys - done && done <= entries.Keys
      invariant bytes + Sum<EventId>(IntentBytes(entries - done)) == Sum<EventId>(IntentBytes(entries))
      decreases rest
    {
      var e := Any<EventId>(rest);
      IntentStep(entries, done, e);
      bytes := bytes + entries[e].bytes;
      rest := rest - {e};
      done := done + {e};
    }
    assert IntentBytes(entries - done) == map[];
  }

  /** The first demand to expire. */
  method EarliestExpiry(entries: map<EventId, DemandEntry>, bound: Timestamp) returns (t: Timestamp)
    ensures t <= bound && forall e | e in entries :: t <= entries[e].expires
    ensures t == bound || exists e :: e in entries && entries[e].expires == t
  {
    t := bound;
    var rest := entries.Keys;
    while rest != {}
      invariant rest <= entries.Keys && t <= bound
      invariant forall e | e in entries && e !in rest :: t <= entries[e].expires
      invariant t == bound || exists e :: e in entries && entries[e].expires == t
      decreases rest
    {
      var e := Any<EventId>(rest);
      rest := rest - {e};
      if entries[e].expires < t {
        t := entries[e].expires;
      }
    }
  }

  /** Plans in service order: highest rank first. */
  ghost predicate Ranked(ranks: map<EventId, Incoming>, order: seq<EventId>, plans: set<EventId>) {
    && plans <= ranks.Keys
    && (forall i | 0 <= i < |order| :: order[i] in plans)
    && (forall e | e in plans :: e in order)
    && (forall i, j | 0 <= i < j < |order| :: order[i] != order[j])
    && (forall i, j | 0 <= i < j < |order| :: ranks[order[i]].key >= ranks[order[j]].key)
  }

  method Highest(ranks: map<EventId, Incoming>, plans: set<EventId>) returns (best: EventId)
    requires plans <= ranks.Keys && plans != {}
    ensures best in plans && forall e | e in plans :: ranks[e].key <= ranks[best].key
  {
    best := Any<EventId>(plans);
    var rest := plans;
    while rest != {}
      invariant rest <= plans && best in plans
      invariant forall e | e in plans && e !in rest :: ranks[e].key <= ranks[best].key
      decreases rest
    {
      var e := Any<EventId>(rest);
      rest := rest - {e};
      if ranks[best].key < ranks[e].key {
        best := e;
      }
    }
  }

  method Order(ranks: map<EventId, Incoming>, plans: set<EventId>) returns (order: seq<EventId>)
    requires plans <= ranks.Keys
    ensures Ranked(ranks, order, plans)
  {
    order := [];
    var rest := plans;
    while rest != {}
      invariant rest <= plans
      invariant Ranked(ranks, order, plans - rest)
      invariant forall e, i | e in rest && 0 <= i < |order| :: ranks[e].key <= ranks[order[i]].key
      decreases rest
    {
      var best := Highest(ranks, rest);
      order := order + [best];
      rest := rest - {best};
    }
    assert plans - rest == plans;
  }

  /** Demands within their lifetime. */
  ghost function LiveEntries(demands: DemandState, now: Timestamp): map<EventId, DemandEntry> {
    map e | e in demands.entries && demands.entries[e].created <= now < demands.entries[e].expires :: demands.entries[e]
  }

  /** Demands that are still live, Missing and not yet reserved. */
  ghost function LiveDemands(demands: DemandState, now: Timestamp, leased: set<EventId>,
                             missing: set<EventId>): set<EventId> {
    LiveEntries(demands, now).Keys * missing - leased
  }

  /** A plan has evicted and its exact demand is still live. */
  ghost predicate Barred(demands: DemandState, now: Timestamp, leased: set<EventId>, missing: set<EventId>) {
    && demands.active.Some?
    && demands.active.value.0 in LiveDemands(demands, now, leased, missing)
    && demands.entries[demands.active.value.0].id == demands.active.value.1
  }

  /** Who may be served: the active plan alone while its demand lives, otherwise everyone. */
  ghost function Applicable(demands: DemandState, now: Timestamp, leased: set<EventId>,
                            missing: set<EventId>): set<EventId> {
    if Barred(demands, now, leased, missing) then {demands.active.value.0} else LiveDemands(demands, now, leased, missing)
  }

  /** No plan that ranks above `e` could have been relieved. */
  ghost predicate Precedence(ranks: map<EventId, Incoming>, index: Index, usage: Usage, plans: set<EventId>,
                             e: EventId, now: Timestamp, maxBytes: nat)
    requires plans <= ranks.Keys && e in ranks
  {
    forall h | h in plans && ranks[e].key < ranks[h].key ::
      Unrelievable(index, ScopeToRelieve(usage, ranks[h]), ranks[h].key, now, maxBytes)
  }

  /** A demand fits now and no higher-ranked one does. */
  ghost predicate FitAuthorized(ranks: map<EventId, Incoming>, usage: Usage, plans: set<EventId>, d: EventId)
    requires plans <= ranks.Keys
  {
    d in plans && HasRoom(usage, ranks[d]) && forall h | h in plans && ranks[d].key < ranks[h].key :: !HasRoom(usage, ranks[h])
  }

  /** Until `t`, time alone makes no lower-ranked row of the scope eligible. */
  ghost predicate QuietUntil(index: Index, author: Option<RetentionScan.Author>, key: Key, now: Timestamp,
                             t: Option<Timestamp>) {
    forall k, later: Timestamp |
      k in index.rows && Belongs(index.rows[k], author) && now <= later && (t.Some? ==> later < t.value) && Evictable(index.rows[k], author, later) ::
        key <= k
  }

  lemma ExhaustedQuiet(scan: Scan, index: Index, key: Key)
    requires Sound(scan, index, Some(key)) && scan.revision == index.revision && scan.exhausted
    ensures QuietUntil(index, scan.author, key, scan.observed, scan.retryAt)
  {
  }

  /** A plan could not be relieved, and unless some plan was byte-blocked this stays so until `wait`. */
  ghost predicate PassedAt(ranks: map<EventId, Incoming>, index: Index, usage: Usage, e: EventId, now: Timestamp,
                           maxBytes: nat, blocked: bool, wait: Timestamp) {
    && e in ranks
    && Unrelievable(index, ScopeToRelieve(usage, ranks[e]), ranks[e].key, now, maxBytes)
    && (!blocked ==> QuietUntil(index, ScopeToRelieve(usage, ranks[e]), ranks[e].key, now, Some(wait)))
  }

  /** Every plan served so far was passed over. */
  ghost predicate AllPassed(ranks: map<EventId, Incoming>, index: Index, usage: Usage, served: seq<EventId>,
                            now: Timestamp, maxBytes: nat, blocked: bool, wait: Timestamp) {
    forall j | 0 <= j < |served| :: PassedAt(ranks, index, usage, served[j], now, maxBytes, blocked, wait)
  }

  lemma PassNext(ranks: map<EventId, Incoming>, index: Index, usage: Usage, order: seq<EventId>, i: nat,
                 now: Timestamp, maxBytes: nat,
                 wait: Timestamp, blocked: bool, retry: Option<Timestamp>, byteBlocked: bool, next: Timestamp)
    requires i < |order| && order[i] in ranks
    requires AllPassed(ranks, index, usage, order[..i], now, maxBytes, blocked, wait)
    requires Unrelievable(index, ScopeToRelieve(usage, ranks[order[i]]), ranks[order[i]].key, now, maxBytes)
    requires !byteBlocked ==> QuietUntil(index, ScopeToRelieve(usage, ranks[order[i]]), ranks[order[i]].key, now, retry)
    requires next <= wait && (retry.Some? ==> next <= retry.value)
    ensures AllPassed(ranks, index, usage, order[..i + 1], now, maxBytes, blocked || byteBlocked, next)
  {
    var served := order[..i + 1];
    forall j | 0 <= j < |served|
      ensures PassedAt(ranks, index, usage, served[j], now, maxBytes, blocked || byteBlocked, next)
    {
      if j < i {
        assert order[..i][j] == order[j];
        assert PassedAt(ranks, index, usage, order[..i][j], now, maxBytes, blocked, wait);
      }
    }
  }

  lemma ServedBefore(ranks: map<EventId, Incoming>, index: Index, usage: Usage, plans: set<EventId>,
                     order: seq<EventId>, i: nat, now: Timestamp, maxBytes: nat, blocked: bool, wait: Timestamp)
    requires Ranked(ranks, order, plans) && i < |order|
    requires AllPassed(ranks, index, usage, order[..i], now, maxBytes, blocked, wait)
    ensures Precedence(ranks, index, usage, plans, order[i], now, maxBytes)
  {
    forall h | h in plans && ranks[order[i]].key < ranks[h].key
      ensures Unrelievable(index, ScopeToRelieve(usage, ranks[h]), ranks[h].key, now, maxBytes)
    {
      var j :| 0 <= j < |order| && order[j] == h;
      assert order[..i][j] == h && PassedAt(ranks, index, usage, order[..i][j], now, maxBytes, blocked, wait);
    }
  }

  lemma AllServed(ranks: map<EventId, Incoming>, index: Index, usage: Usage, plans: set<EventId>, order: seq<EventId>,
                  now: Timestamp, maxBytes: nat, wait: Timestamp)
    requires Ranked(ranks, order, plans)
    requires AllPassed(ranks, index, usage, order[..|order|], now, maxBytes, false, wait)
    ensures forall h | h in plans ::
      && Unrelievable(index, ScopeToRelieve(usage, ranks[h]), ranks[h].key, now, maxBytes)
      && QuietUntil(index, ScopeToRelieve(usage, ranks[h]), ranks[h].key, now, Some(wait))
  {
    forall h | h in plans
      ensures Unrelievable(index, ScopeToRelieve(usage, ranks[h]), ranks[h].key, now, maxBytes)
      ensures QuietUntil(index, ScopeToRelieve(usage, ranks[h]), ranks[h].key, now, Some(wait))
    {
      var j :| 0 <= j < |order| && order[j] == h;
      assert order[..|order|][j] == h && PassedAt(ranks, index, usage, order[..|order|][j], now, maxBytes, false, wait);
    }
  }

  lemma AllRefused(ranks: map<EventId, Incoming>, index: Index, usage: Usage, plans: set<EventId>,
                   order: seq<EventId>, now: Timestamp, maxBytes: nat, blocked: bool, wait: Timestamp)
    requires Ranked(ranks, order, plans)
    requires AllPassed(ranks, index, usage, order[..|order|], now, maxBytes, blocked, wait)
    ensures forall h | h in plans :: Unrelievable(index, ScopeToRelieve(usage, ranks[h]), ranks[h].key, now, maxBytes)
  {
    forall h | h in plans
      ensures Unrelievable(index, ScopeToRelieve(usage, ranks[h]), ranks[h].key, now, maxBytes)
    {
      var j :| 0 <= j < |order| && order[j] == h;
      assert order[..|order|][j] == h && PassedAt(ranks, index, usage, order[..|order|][j], now, maxBytes, blocked, wait);
    }
  }

  /** Some plan's first victim in order is larger than the allowance. */
  ghost predicate SomeOversized(ranks: map<EventId, Incoming>, index: Index, usage: Usage, plans: set<EventId>,
                                now: Timestamp, maxBytes: nat)
    requires plans <= ranks.Keys
  {
    exists h :: h in plans && OversizedMinimum(index, ScopeToRelieve(usage, ranks[h]), now, maxBytes)
  }

  /**
   One request for a preemption step, with the facts it meets inside its transaction.

   `ready` says that the request's generation is indexed, accounting is exact and no grace deadline
   is due; `bound` that its configuration is the current one; `late` that its deadline passes during the step.
   */
  datatype Request = Request(
    binding: Binding,
    now: Timestamp,
    usage: Usage,
    leased: set<EventId>,
    missing: set<EventId>,
    scanLimit: nat,
    maxBytes: nat,
    ready: bool,
    bound: bool,
    late: bool)

  /** Nothing relieves any of the plans now. */
  ghost predicate NoneRelievable(ranks: map<EventId, Incoming>, index: Index, r: Request, plans: set<EventId>)
    requires plans <= ranks.Keys
  {
    forall h | h in plans ::
      !HasRoom(r.usage, ranks[h]) && Unrelievable(index, ScopeToRelieve(r.usage, ranks[h]), ranks[h].key, r.now, r.maxBytes)
  }

  /** What justifies the outcome, in terms of the state before the step. */
  ghost predicate StepAuthorized(ranks: map<EventId, Incoming>, index: Index, r: Request, plans: set<EventId>,
                                 barred: bool, step: DemandStep)
    requires plans <= ranks.Keys
  {
    match step
    case Pruned(d, victim) =>
      && d in plans && !HasRoom(r.usage, ranks[d])
      && Justified(index, r.usage, ranks[d], r.now, r.maxBytes, barred, Victim(victim))
      && Precedence(ranks, index, r.usage, plans, d, r.now, r.maxBytes)
    case Rejected(d) =>
      && d in plans && !HasRoom(r.usage, ranks[d])
      && Justified(index, r.usage, ranks[d], r.now, r.maxBytes, barred, Reject)
      && Precedence(ranks, index, r.usage, plans, d, r.now, r.maxBytes)
    case Idle => plans == {}
    case Fits(d) => FitAuthorized(ranks, r.usage, plans, d)
    case NoVictim(t) =>
      && plans != {} && r.now < t && NoneRelievable(ranks, index, r, plans)
      && forall h | h in plans :: QuietUntil(index, ScopeToRelieve(r.usage, ranks[h]), ranks[h].key, r.now, Some(t))
    case Bounded =>
      r.late || (NoneRelievable(ranks, index, r, plans) && SomeOversized(ranks, index, r.usage, plans, r.now, r.maxBytes))
    case _ => true
  }

  /** What the step changed: one victim and the active plan, one revision, or nothing indexed. */
  ghost predicate Effect(was: Index, index: Index, before: DemandState, demands: DemandState, step: DemandStep) {
    match step
    case Pruned(d, victim) =>
      && index == Index(was.revision + 1, was.rows - {victim}, was.grace)
      && d in before.entries && demands.active == Some((d, before.entries[d].id))
      && d in demands.entries && demands.entries[d].id == before.entries[d].id
    case Rejected(_) => index == was.(revision := was.revision + 1)
    case _ => index == was
  }

  ghost predicate LearnedAt(c: Incoming, index: Index, usage: Usage, now: Timestamp, before: DemandState,
                            after: DemandState, h: EventId) {
    && h in before.entries && h in after.entries && after.entries[h].scan.Some?
    && Learns(StartOf(index, ScopeToRelieve(usage, c), before.entries[h].scan, now), after.entries[h].scan.value)
  }

  /** Some plan's frontier moved on. */
  ghost predicate SomeLearned(ranks: map<EventId, Incoming>, index: Index, usage: Usage, plans: set<EventId>,
                              now: Timestamp,
                              before: DemandState, after: DemandState)
    requires plans <= ranks.Keys
  {
    exists h :: h in plans && LearnedAt(ranks[h], index, usage, now, before, after, h)
  }

  ghost predicate Registered(demands: DemandState, plan: (EventId, nat)) {
    plan.0 in demands.entries && demands.entries[plan.0].id == plan.1
  }

  /** A plan that has evicted is forgotten only together with its exact demand. */
  ghost predicate PlanKept(before: DemandState, after: DemandState) {
    before.active.Some? ==> after.active == before.active || !Registered(after, before.active.value)
  }

  /** Identities only grow, and a demand that is gone does not come back under its identity. */
  ghost predicate NoRevival(before: DemandState, after: DemandState) {
    && before.nextId <= after.nextId
    && forall plan: (EventId, nat) | plan.1 <= before.nextId && Registered(after, plan) :: Registered(before, plan)
  }

  /** What every operation on the demands keeps. */
  ghost predicate Continues(before: DemandState, after: DemandState) {
    PlanKept(before, after) && NoRevival(before, after)
  }

  /** The same demand, whatever frontier it remembers. */
  ghost predicate SameEntry(before: DemandState, after: DemandState, e: EventId) {
    && (e in after.entries <==> e in before.entries)
    && (e in before.entries ==> after.entries[e].(scan := None) == before.entries[e].(scan := None))
  }

  /** Only frontiers differ. */
  ghost predicate SameDemands(before: DemandState, after: DemandState) {
    after == before.(entries := after.entries) && forall e: EventId :: SameEntry(before, after, e)
  }

  lemma SameOn(a: DemandState, b: DemandState, c: DemandState)
    requires SameDemands(a, b) && SameDemands(b, c)
    ensures SameDemands(a, c)
  {
    forall e: EventId ensures SameEntry(a, c, e) {
      assert SameEntry(a, b, e) && SameEntry(b, c, e);
    }
  }

  /** Remembering frontiers, and making one registered demand the active plan, forgets nothing. */
  lemma SameContinues(before: DemandState, same: DemandState, after: DemandState)
    requires SameDemands(before, same) && after == same.(active := after.active)
    ensures NoRevival(before, after)
    ensures after.active == before.active ==> Continues(before, after)
    ensures before.active.None? ==> Continues(before, after)
  {
    forall plan: (EventId, nat) | Registered(after, plan) ensures Registered(before, plan) {
      assert SameEntry(before, same, plan.0);
    }
  }

  lemma ContinuesOn(a: DemandState, b: DemandState, c: DemandState)
    requires Continues(a, b) && Continues(b, c)
    requires a.active.Some? ==> a.active.value.1 <= a.nextId
    ensures Continues(a, c)
  {
    assert a.active.Some? && Registered(c, a.active.value) ==> Registered(b, a.active.value);
  }

  /** A remembered demand has a known rank, a sound frontier and an identity given out earlier. */
  ghost predicate EntryAt(ranks: map<EventId, Incoming>, index: Index, demands: DemandState, e: EventId) {
    e in demands.entries ==>
      && e in ranks && demands.entries[e].id <= demands.nextId
      && (demands.entries[e].scan.Some? ==> Sound(demands.entries[e].scan.value, index, Some(ranks[e].key)))
  }

  ghost predicate DemandsSound(ranks: map<EventId, Incoming>, index: Index, demands: DemandState) {
    && (forall e: EventId :: EntryAt(ranks, index, demands, e))
    && (demands.active.Some? ==> demands.active.value.1 <= demands.nextId)
  }

  lemma KnownRanks(ranks: map<EventId, Incoming>, index: Index, demands: DemandState)
    requires DemandsSound(ranks, index, demands)
    ensures demands.entries.Keys <= ranks.Keys
  {
    forall e | e in demands.entries ensures e in ranks {
      assert EntryAt(ranks, index, demands, e);
    }
  }

  /** Some demands left, none changed. */
  ghost predicate Fewer(before: DemandState, after: DemandState) {
    && after.nextId == before.nextId && (after.active == before.active || after.active.None?)
    && forall e | e in after.entries :: e in before.entries && after.entries[e] == before.entries[e]
  }

  lemma FewerSound(ranks: map<EventId, Incoming>, index: Index, before: DemandState, after: DemandState)
    requires DemandsSound(ranks, index, before) && Fewer(before, after)
    ensures DemandsSound(ranks, index, after) && NoRevival(before, after)
    ensures after.active == before.active ==> Continues(before, after)
    ensures before.active.Some? && !Registered(after, before.active.value) ==> Continues(before, after)
  {
    forall e: EventId ensures EntryAt(ranks, index, after, e) {
      assert EntryAt(ranks, index, before, e);
    }
  }

  /** The demands of the current policy generation and configuration that have not expired. */
  function Rebound(demands: DemandState, binding: Binding, now: Timestamp): DemandState {
    (if demands.binding != Some(binding) then demands.Clear().(binding := Some(binding)) else demands).Expire(now)
  }

  lemma ReboundSound(ranks: map<EventId, Incoming>, index: Index, demands: DemandState, binding: Binding,
                     now: Timestamp)
    requires DemandsSound(ranks, index, demands)
    ensures DemandsSound(ranks, index, Rebound(demands, binding, now)) && Continues(demands, Rebound(demands, binding, now))
  {
    FewerSound(ranks, index, demands, Rebound(demands, binding, now));
  }

  /** One more demand stays within the intent limits, could ever fit the ceilings, and gets a deadline and an identity. */
  ghost predicate IntentRoom(state: DemandState, usage: Usage, c: Incoming, now: Timestamp) {
    && now + 30 <= U64_MAX && state.nextId < U64_MAX
    && |state.entries| < usage.config.inFlightCount
    && Sum<EventId>(IntentBytes(state.entries)) + c.bytes <= usage.config.inFlightBytes
    && c.bytes <= usage.config.databaseBytes && c.bytes <= Ceiling(usage.config, c.author)
  }

  function Enrolled(state: DemandState, e: EventId, bytes: nat, now: Timestamp): DemandState {
    state.(entries := state.entries[e := DemandEntry(None, state.nextId + 1, bytes, now, now + 30)], nextId := state.nextId + 1)
  }

  lemma EnrolledSound(ranks: map<EventId, Incoming>, index: Index, state: DemandState, e: EventId, now: Timestamp)
    requires DemandsSound(ranks, index, state) && e in ranks && e !in state.entries
    ensures DemandsSound(ranks, index, Enrolled(state, e, ranks[e].bytes, now)) && Continues(state, Enrolled(state, e, ranks[e].bytes, now))
  {
    var after := Enrolled(state, e, ranks[e].bytes, now);
    forall f: EventId ensures EntryAt(ranks, index, after, f) {
      assert EntryAt(ranks, index, state, f);
    }
  }

  function Rescanned(state: DemandState, e: EventId, scan: Scan): DemandState
    requires e in state.entries
  {
    state.(entries := state.entries[e := state.entries[e].(scan := Some(scan))])
  }

  lemma RescannedSame(state: DemandState, e: EventId, scan: Scan)
    requires e in state.entries
    ensures SameDemands(state, Rescanned(state, e, scan))
  {
    var after := Rescanned(state, e, scan);
    forall f: EventId ensures SameEntry(state, after, f) {
    }
  }

  lemma RescannedSound(ranks: map<EventId, Incoming>, index: Index, state: DemandState, e: EventId, scan: Scan)
    requires DemandsSound(ranks, index, state) && e in state.entries && e in ranks && Sound(scan, index, Some(ranks[e].key))
    ensures DemandsSound(ranks, index, Rescanned(state, e, scan))
  {
    var after := Rescanned(state, e, scan);
    forall f: EventId ensures EntryAt(ranks, index, after, f) {
      assert EntryAt(ranks, index, state, f);
    }
  }

  /** Plans not served yet remember what they did. */
  ghost predicate Untouched(before: DemandState, after: DemandState, order: seq<EventId>, i: nat) {
    forall j | i <= j < |order| ::
      order[j] in before.entries && order[j] in after.entries && after.entries[order[j]] == before.entries[order[j]]
  }

  /** Some plan served so far moved its frontier on. */
  ghost predicate LearnedIn(ranks: map<EventId, Incoming>, index: Index, usage: Usage, order: seq<EventId>, i: nat,
                            now: Timestamp,
                            before: DemandState, after: DemandState)
    requires i <= |order| && forall j | 0 <= j < |order| :: order[j] in ranks
  {
    exists j | 0 <= j < i :: LearnedAt(ranks[order[j]], index, usage, now, before, after, order[j])
  }

  lemma ServedOne(ranks: map<EventId, Incoming>, index: Index, usage: Usage, plans: set<EventId>, order: seq<EventId>,
                  i: nat, now: Timestamp,
                  before: DemandState, mid: DemandState, scan: Scan, moved: bool)
    requires Ranked(ranks, order, plans) && i < |order|
    requires SameDemands(before, mid) && Untouched(before, mid, order, i) && order[i] in mid.entries
    requires moved ==> Learns(StartOf(index, ScopeToRelieve(usage, ranks[order[i]]), mid.entries[order[i]].scan, now), scan)
    ensures var next := Rescanned(mid, order[i], scan);
      && SameDemands(before, next) && Untouched(before, next, order, i + 1)
      && (moved || LearnedIn(ranks, index, usage, order, i, now, before, mid) ==>
            LearnedIn(ranks, index, usage, order, i + 1, now, before, next))
  {
    var next := Rescanned(mid, order[i], scan);
    RescannedSame(mid, order[i], scan);
    SameOn(before, mid, next);
    if moved {
      assert LearnedAt(ranks[order[i]], index, usage, now, before, next, order[i]);
    } else if LearnedIn(ranks, index, usage, order, i, now, before, mid) {
      var j :| 0 <= j < i && LearnedAt(ranks[order[j]], index, usage, now, before, mid, order[j]);
      assert LearnedAt(ranks[order[j]], index, usage, now, before, next, order[j]);
    }
  }

  lemma LearnedSome(ranks: map<EventId, Incoming>, index: Index, usage: Usage, plans: set<EventId>,
                    order: seq<EventId>, i: nat, now: Timestamp,
                    before: DemandState, after: DemandState)
    requires Ranked(ranks, order, plans) && i <= |order| && LearnedIn(ranks, index, usage, order, i, now, before, after)
    ensures SomeLearned(ranks, index, usage, plans, now, before, after)
  {
    var j :| 0 <= j < i && LearnedAt(ranks[order[j]], index, usage, now, before, after, order[j]);
    assert order[j] in plans;
  }

  /** The demands of a step that looks at the plans: expired, completed and leased ones are gone. */
  function Reconciled(demands: DemandState, now: Timestamp, leased: set<EventId>, missing: set<EventId>): DemandState {
    var state := demands.Expire(now).RemoveAll(set e | e in demands.entries && (e in leased || e !in missing));
    if state.ActiveLive() then state else state.(active := None)
  }

  /** The live demands that a step looks at, and the plan that has evicted while its exact demand is one of them. */
  ghost function Surviving(before: DemandState, now: Timestamp, leased: set<EventId>, missing: set<EventId>): DemandState {
    var entries := map e | e in LiveEntries(before, now) && e in missing && e !in leased :: before.entries[e];
    var keeps := before.active.Some? && before.active.value.0 in entries && entries[before.active.value.0].id == before.active.value.1;
    DemandState(if keeps then before.active else None, before.binding, entries, before.nextId)
  }

  lemma ReconciledSurvives(demands: DemandState, now: Timestamp, leased: set<EventId>, missing: set<EventId>)
    ensures Reconciled(demands, now, leased, missing) == Surviving(demands, now, leased, missing)
  {
    assert Reconciled(demands, now, leased, missing).entries == Surviving(demands, now, leased, missing).entries;
  }

  lemma ReconciledLive(demands: DemandState, now: Timestamp, leased: set<EventId>, missing: set<EventId>)
    ensures var state := Reconciled(demands, now, leased, missing);
      && state.entries.Keys == LiveDemands(demands, now, leased, missing)
      && (forall e | e in state.entries :: state.entries[e] == demands.entries[e] && now < state.entries[e].expires)
      && (state.active.Some? <==> Barred(demands, now, leased, missing))
      && (state.active.Some? ==> state.active == demands.active && state.ActiveLive())
      && Fewer(demands, state)
  {
  }

  /** What a step leaves of the demands, and which of them it looks at. */
  ghost predicate Follows(before: DemandState, after: DemandState, r: Request, step: DemandStep) {
    var live, reconciled := before.(entries := LiveEntries(before, r.now)), Surviving(before, r.now, r.leased, r.missing);
    if live.entries == map[] then step.Idle? && after == live
    else if !r.ready || !r.bound then step.NotReady? && after == live
    else if before.binding != Some(r.binding) then step.NotReady? && after == DemandState(None, None, map[], before.nextId)
    else
      && !step.NotReady?
      && ((SameDemands(reconciled.(active := after.active), after) && (step.Pruned? || after.active == reconciled.active))
          || (step.Bounded? && after == live))
  }

  lemma EntriesSound(ranks: map<EventId, Incoming>, index: Index, state: DemandState, after: DemandState)
    requires DemandsSound(ranks, index, state) && after.entries == state.entries && after.nextId == state.nextId
    requires after.active.Some? ==> after.active.value.1 <= after.nextId
    ensures DemandsSound(ranks, index, after)
  {
    forall e: EventId ensures EntryAt(ranks, index, after, e) {
      assert EntryAt(ranks, index, state, e);
    }
  }

  lemma IndexSound(ranks: map<EventId, Incoming>, index: Index, next: Index, demands: DemandState)
    requires DemandsSound(ranks, index, demands) && index.revision < next.revision
    ensures DemandsSound(ranks, next, demands)
  {
    forall e: EventId ensures EntryAt(ranks, next, demands, e) {
      assert EntryAt(ranks, index, demands, e);
    }
  }

  /** A step that evicts does so for the active plan, if there is one. */
  lemma ServedContinues(before: DemandState, after: DemandState, step: DemandStep, plans: set<EventId>)
    requires NoRevival(before, after) && (step.Pruned? || after.active == before.active)
    requires step.Pruned? ==>
      step.demand in plans && step.demand in before.entries && after.active == Some((step.demand, before.entries[step.demand].id))
    requires before.active.Some? ==> before.ActiveLive() && plans == {before.active.value.0}
    ensures Continues(before, after)
  {
  }

  lemma SameRefl(s: DemandState)
    ensures SameDemands(s, s)
  {
    forall e: EventId ensures SameEntry(s, s, e) {
    }
  }

  lemma SameActive(before: DemandState, same: DemandState, after: DemandState)
    requires SameDemands(before, same) && after == same.(active := after.active)
    ensures SameDemands(before.(active := after.active), after)
  {
    forall e: EventId ensures SameEntry(before.(active := after.active), after, e) {
      assert SameEntry(before, same, e);
    }
  }

  /** Where a step stands after it has served the first `i` plans. */
  ghost predicate Serving(ranks: map<EventId, Incoming>, index: Index, r: Request, plans: set<EventId>,
                          order: seq<EventId>, i: nat,
                          before: DemandState, after: DemandState, moved: bool, blocked: bool, retryAt: Timestamp)
  {
    && Ranked(ranks, order, plans) && i <= |order|
    && SameDemands(before, after) && Untouched(before, after, order, i)
    && (moved ==> LearnedIn(ranks, index, r.usage, order, i, r.now, before, after))
    && AllPassed(ranks, index, r.usage, order[..i], r.now, r.maxBytes, blocked, retryAt)
    && (blocked ==> SomeOversized(ranks, index, r.usage, plans, r.now, r.maxBytes))
  }

  /** What serving the plans did to the reconciled demands. */
  ghost predicate Concluded(ranks: map<EventId, Incoming>, was: Index, index: Index, r: Request, plans: set<EventId>,
                            before: DemandState, after: DemandState, step: DemandStep)
    requires plans <= ranks.Keys
  {
    && StepAuthorized(ranks, was, r, plans, before.active.Some?, step)
    && Effect(was, index, before, after, step)
    && (step.Continue? ==> SomeLearned(ranks, was, r.usage, plans, r.now, before, after))
    && !step.Fits? && !step.Idle? && !step.NotReady?
    && SameDemands(before.(active := after.active), after) && NoRevival(before, after)
    && (step.Pruned? || after.active == before.active)
  }

  /** One plan passed over. */
  lemma ServingNext(ranks: map<EventId, Incoming>, index: Index, r: Request, plans: set<EventId>, order: seq<EventId>,
                    i: nat,
                    before: DemandState, mid: DemandState, moved: bool, blocked: bool, wait: Timestamp,
                    scan: Scan, learned: bool, byteBlocked: bool, retry: Option<Timestamp>, next: Timestamp)
    requires Serving(ranks, index, r, plans, order, i, before, mid, moved, blocked, wait) && i < |order|
    requires var e := order[i];
      && e in mid.entries
      && (learned ==> Learns(StartOf(index, ScopeToRelieve(r.usage, ranks[e]), mid.entries[e].scan, r.now), scan))
      && Unrelievable(index, ScopeToRelieve(r.usage, ranks[e]), ranks[e].key, r.now, r.maxBytes)
      && (if byteBlocked then OversizedMinimum(index, ScopeToRelieve(r.usage, ranks[e]), r.now, r.maxBytes)
          else QuietUntil(index, ScopeToRelieve(r.usage, ranks[e]), ranks[e].key, r.now, retry))
    requires next <= wait && (retry.Some? ==> next <= retry.value)
    ensures Serving(ranks, index, r, plans, order, i + 1, before, Rescanned(mid, order[i], scan),
              moved || learned, blocked || byteBlocked, next)
  {
    ServedOne(ranks, index, r.usage, plans, order, i, r.now, before, mid, scan, learned);
    PassNext(ranks, index, r.usage, order, i, r.now, r.maxBytes, wait, blocked, retry, byteBlocked, next);
  }

  /** One plan that ended the step before its turn was over. */
  lemma ServingLast(ranks: map<EventId, Incoming>, index: Index, r: Request, plans: set<EventId>, order: seq<EventId>,
                    i: nat,
                    before: DemandState, mid: DemandState, moved: bool, blocked: bool, wait: Timestamp, scan: Scan,
                    learned: bool)
    requires Serving(ranks, index, r, plans, order, i, before, mid, moved, blocked, wait) && i < |order|
    requires order[i] in mid.entries
    requires learned ==> Learns(StartOf(index, ScopeToRelieve(r.usage, ranks[order[i]]), mid.entries[order[i]].scan, r.now), scan)
    ensures var after := Rescanned(mid, order[i], scan);
      && SameDemands(before, after)
      && (moved || learned ==> SomeLearned(ranks, index, r.usage, plans, r.now, before, after))
    ensures Precedence(ranks, index, r.usage, plans, order[i], r.now, r.maxBytes)
  {
    var after := Rescanned(mid, order[i], scan);
    ServedOne(ranks, index, r.usage, plans, order, i, r.now, before, mid, scan, learned);
    if moved || learned {
      LearnedSome(ranks, index, r.usage, plans, order, i + 1, r.now, before, after);
    }
    ServedBefore(ranks, index, r.usage, plans, order, i, r.now, r.maxBytes, blocked, wait);
  }

  /** Every plan passed over: the step ends without a victim. */
  lemma ServingAll(ranks: map<EventId, Incoming>, index: Index, r: Request, plans: set<EventId>, order: seq<EventId>,
                   barred: bool,
                   before: DemandState, after: DemandState, moved: bool, blocked: bool, wait: Timestamp)
    requires Serving(ranks, index, r, plans, order, |order|, before, after, moved, blocked, wait)
    requires order != [] && r.now < wait && forall h | h in plans :: !HasRoom(r.usage, ranks[h])
    ensures StepAuthorized(ranks, index, r, plans, barred, if blocked then Bounded else NoVictim(wait))
  {
    AllRefused(ranks, index, r.usage, plans, order, r.now, r.maxBytes, blocked, wait);
    if !blocked {
      assert order[0] in plans;
      AllServed(ranks, index, r.usage, plans, order, r.now, r.maxBytes, wait);
    }
  }

  /** The whole meaning of one preemption step. */
  ghost predicate Relieves(ranks: map<EventId, Incoming>, was: Index, index: Index, before: DemandState,
                           after: DemandState, r: Request, step: DemandStep)
    requires r.missing <= ranks.Keys
  {
    var plans := Applicable(before, r.now, r.leased, r.missing);
    && StepAuthorized(ranks, was, r, plans, Barred(before, r.now, r.leased, r.missing), step)
    && Effect(was, index, before, after, step)
    && Follows(before, after, r, step)
    && (step.Continue? ==> SomeLearned(ranks, was, r.usage, plans, r.now, Surviving(before, r.now, r.leased, r.missing), after))
    && (step.NoVictim? ==> forall e | e in after.entries :: step.retryAt <= after.entries[e].expires)
    && Continues(before, after)
  }

  /**
   While the demand's author is over its own ceiling the victim is that author's, and no other eligible row
   of that author has a smaller key; otherwise the database is over, and no other eligible row has one.
   */
  lemma VictimRelieves(ranks: map<EventId, Incoming>, was: Index, index: Index, before: DemandState, after: DemandState, r: Request,
                       step: DemandStep, k: Key)
    requires r.missing <= ranks.Keys && Relieves(ranks, was, index, before, after, r, step) && step.Pruned?
    ensures step.demand in ranks && step.victim in was.rows && step.victim < ranks[step.demand].key
    ensures var c, v := ranks[step.demand], was.rows[step.victim];
      var high := if c.author in r.usage.config.overrides then r.usage.config.overrides[c.author] else r.usage.config.authorBytes;
      var retained := if c.author in r.usage.retainedOf then r.usage.retainedOf[c.author] else 0;
      var reserved := if c.author in r.usage.reservedOf then r.usage.reservedOf[c.author] else 0;
      var over := high < retained + reserved + c.bytes;
      && v.bytes <= r.maxBytes
      && (over ==> v.author == c.author)
      && (!over ==> r.usage.config.databaseBytes < r.usage.retained + r.usage.reserved + c.bytes)
      && (k in was.rows && was.rows[k].eligibleAt.Some? && was.rows[k].eligibleAt.value <= r.now
            && (over ==> was.rows[k].author == c.author)
          ==> step.victim <= k)
  {
    var c := ranks[step.demand];
    if k in was.rows && Evictable(was.rows[k], ScopeToRelieve(r.usage, c), r.now) {
      assert EligibleKey(was, ScopeToRelieve(r.usage, c), r.now, k);
    }
  }

  /** The live demands of the current binding; another binding starts without any, and no identity is used again. */
  ghost function Continued(before: DemandState, binding: Binding, now: Timestamp): DemandState {
    var same := before.binding == Some(binding);
    DemandState(if same then before.active else None, Some(binding), if same then LiveEntries(before, now) else map[],
                before.nextId)
  }

  lemma ReboundContinues(before: DemandState, binding: Binding, now: Timestamp)
    ensures Rebound(before, binding, now) == Continued(before, binding, now)
  {
    assert Rebound(before, binding, now).entries == Continued(before, binding, now).entries;
  }

  /** The event is unleased, its payload exceeds a ceiling, and its demand is registered or has room. */
  ghost predicate Wished(state: DemandState, usage: Usage, c: Incoming, e: EventId, leased: set<EventId>, now: Timestamp) {
    e !in leased && !HasRoom(usage, c) && (e in state.entries || IntentRoom(state, usage, c, now))
  }

  /** The whole meaning of one registration. */
  ghost predicate Registers(ranks: map<EventId, Incoming>, before: DemandState, after: DemandState, e: EventId,
                            binding: Binding, now: Timestamp,
                            usage: Usage, leased: set<EventId>, missing: set<EventId>, ready: bool, registered: bool)
    requires missing <= ranks.Keys
  {
    if !ready || e !in missing then !registered && after == before
    else
      var state := Continued(before, binding, now);
      && (registered <==> Wished(state, usage, ranks[e], e, leased, now))
      && after == if registered && e !in state.entries
           then state.(entries := state.entries[e := DemandEntry(None, state.nextId + 1, ranks[e].bytes, now, now + 30)],
                       nextId := state.nextId + 1)
           else state
  }

  lemma RegistersAs(ranks: map<EventId, Incoming>, before: DemandState, after: DemandState, e: EventId, binding: Binding,
                    now: Timestamp, usage: Usage, leased: set<EventId>, missing: set<EventId>, registered: bool)
    requires missing <= ranks.Keys && e in missing
    requires var mid := Rebound(before, binding, now);
      && (registered <==> Wished(mid, usage, ranks[e], e, leased, now))
      && after == if registered && e !in mid.entries then Enrolled(mid, e, ranks[e].bytes, now) else mid
    ensures Registers(ranks, before, after, e, binding, now, usage, leased, missing, true, registered)
  {
    ReboundContinues(before, binding, now);
  }

  class Arbiter {
    /** Rank and size are functions of the envelope and never change. */
    const ranks: map<EventId, Incoming>
    var index: Index
    var demands: DemandState

    /** Every remembered frontier is sound for the current index. */
    ghost predicate Valid()
      reads this
    {
      DemandsSound(ranks, index, demands)
    }

    constructor (ranks: map<EventId, Incoming>, index: Index)
      ensures Valid() && this.ranks == ranks && this.index == index && demands == DemandState(None, None, map[], 0)
    {
      this.ranks, this.index := ranks, index;
      demands := DemandState(None, None, map[], 0);
    }

    /** Any index mutation by other transactions; the revision rises first. */
    method MutateIndex(next: Index)
      requires Valid() && index.revision < next.revision
      modifies this`index
      ensures Valid() && index == next
    {
      IndexSound(ranks, index, next, demands);
      index := next;
    }

    method Enroll(e: EventId, now: Timestamp, usage: Usage) returns (registered: bool)
      requires Valid() && e in ranks && e !in demands.entries
      modifies this`demands
      ensures Valid() && Continues(old(demands), demands)
      ensures registered <==> IntentRoom(old(demands), usage, ranks[e], now)
      ensures demands == if registered then Enrolled(old(demands), e, ranks[e].bytes, now) else old(demands)
    {
      var c := ranks[e];
      var count, bytes := IntentUsage(demands.entries);
      if usage.config.inFlightCount <= count || usage.config.inFlightBytes < bytes + c.bytes
         || usage.config.databaseBytes < c.bytes || usage.config.AuthorHigh(c.author) < c.bytes
         || U64_MAX < now + 30 || U64_MAX <= demands.nextId {
        return false;
      }
      EnrolledSound(ranks, index, demands, e, now);
      demands := Enrolled(demands, e, c.bytes, now);
      return true;
    }

    /** A demand already registered stays; any other payload that does not fit is enrolled if there is room for it. */
    method Offer(e: EventId, now: Timestamp, usage: Usage, leased: set<EventId>) returns (registered: bool)
      requires Valid() && e in ranks
      modifies this`demands
      ensures Valid() && Continues(old(demands), demands)
      ensures registered <==> Wished(old(demands), usage, ranks[e], e, leased, now)
      ensures demands == if registered && e !in old(demands).entries
        then Enrolled(old(demands), e, ranks[e].bytes, now) else old(demands)
    {
      if e in leased || usage.Fits(ranks[e]) {
        return false;
      }
      if e in demands.entries {
        return true;
      }
      registered := Enroll(e, now, usage);
    }

    /**
     Register interest after a failed reservation. A duplicate keeps its identity and deadline;
     a new demand gets a fresh identity. `ready` is the readiness of the index.
     */
    method Register(e: EventId, binding: Binding, now: Timestamp, usage: Usage, leased: set<EventId>,
                    missing: set<EventId>, ready: bool)
      returns (registered: bool)
      requires Valid() && missing <= ranks.Keys
      modifies this`demands
      ensures Valid() && Continues(old(demands), demands)
      ensures Registers(ranks, old(demands), demands, e, binding, now, usage, leased, missing, ready, registered)
    {
      if !ready || e !in missing {
        return false;
      }
      ghost var before := demands;
      ReboundSound(ranks, index, demands, binding, now);
      demands := Rebound(demands, binding, now);
      ghost var mid := demands;
      registered := Offer(e, now, usage, leased);
      ContinuesOn(before, mid, demands);
      RegistersAs(ranks, before, demands, e, binding, now, usage, leased, missing, registered);
    }

    /** Dropping an obsolete owner never cancels a later demand for the same event. */
    method DropOwner(e: EventId, id: nat)
      requires Valid()
      modifies this`demands
      ensures Valid() && Continues(old(demands), demands)
      ensures demands == if e in old(demands).entries && old(demands).entries[e].id == id
        then old(demands).(entries := old(demands).entries - {e}) else old(demands)
      ensures forall f | f in old(demands).entries && old(demands).entries[f].id != id ::
        f in demands.entries && demands.entries[f] == old(demands).entries[f]
    {
      FewerSound(ranks, index, demands, demands.DropOwner(e, id));
      demands := demands.DropOwner(e, id);
    }

    /** Forget the demands of completed events after the lifecycle transaction has committed. */
    method Complete(events: set<EventId>)
      requires Valid()
      modifies this`demands
      ensures Valid() && Continues(old(demands), demands)
      ensures demands == old(demands).(entries := old(demands).entries - events)
    {
      FewerSound(ranks, index, demands, demands.RemoveAll(events));
      demands := demands.RemoveAll(events);
    }

    /** A new attachment forgets every demand of the previous one. */
    method Attach()
      requires Valid()
      modifies this`demands
      ensures Valid() && Continues(old(demands), demands)
      ensures demands == DemandState(None, None, map[], old(demands).nextId)
    {
      FewerSound(ranks, index, demands, demands.Clear());
      demands := demands.Clear();
    }

    /** Drop expired, completed and leased demands, and an active plan whose demand is gone; rank the plans left to serve. */
    method Plans(r: Request) returns (order: seq<EventId>)
      requires Valid() && r.missing <= ranks.Keys
      modifies this`demands
      ensures Valid() && Continues(old(demands), demands)
      ensures demands == Surviving(old(demands), r.now, r.leased, r.missing)
      ensures Ranked(ranks, order, Applicable(old(demands), r.now, r.leased, r.missing))
    {
      ReconciledSurvives(demands, r.now, r.leased, r.missing);
      ReconciledLive(demands, r.now, r.leased, r.missing);
      FewerSound(ranks, index, demands, Reconciled(demands, r.now, r.leased, r.missing));
      demands := Reconciled(demands, r.now, r.leased, r.missing);
      KnownRanks(ranks, index, demands);
      order := Order(ranks, if demands.active.Some? then {demands.active.value.0} else demands.entries.Keys);
    }

    /** Find the highest-ranked plan that already fits. */
    method FirstFit(order: seq<EventId>, usage: Usage, late: bool,
                    ghost plans: set<EventId>) returns (fit: Option<EventId>, stopped: bool)
      requires Ranked(ranks, order, plans)
      ensures fit.Some? ==> FitAuthorized(ranks, usage, plans, fit.value)
      ensures fit.None? && !stopped ==> forall h | h in plans :: !HasRoom(usage, ranks[h])
      ensures stopped ==> late
    {
      fit, stopped := None, false;
      for i := 0 to |order|
        invariant forall j | 0 <= j < i :: !HasRoom(usage, ranks[order[j]])
      {
        var expired := *;
        if late && expired {
          stopped := true;
          return;
        }
        if usage.Fits(ranks[order[i]]) {
          fit := Some(order[i]);
          return;
        }
      }
    }

    /** Scan for one plan and remember its frontier. */
    method ServePlan(e: EventId, r: Request, limit: nat, barred: bool)
      returns (outcome: PlanOutcome, left: nat, advanced: bool, byteBlocked: bool, retryAt: Option<Timestamp>, ghost scan: Scan)
      requires Valid() && SelectionReady(index, r.now) && e in demands.entries && e in ranks
      modifies this`demands
      ensures Valid() && demands == Rescanned(old(demands), e, scan)
      ensures Justified(index, r.usage, ranks[e], r.now, r.maxBytes, barred, outcome)
      ensures outcome.Next? && !byteBlocked ==>
        QuietUntil(index, ScopeToRelieve(r.usage, ranks[e]), ranks[e].key, r.now, retryAt)
      ensures outcome.Next? && byteBlocked ==> OversizedMinimum(index, ScopeToRelieve(r.usage, ranks[e]), r.now, r.maxBytes)
      ensures left <= limit && (retryAt.Some? ==> r.now < retryAt.value)
      ensures outcome.Stop? ==> if outcome.rowsSpent then left == 0 else r.late
      ensures (outcome.Next? || outcome.Stop?) && (advanced || left < limit) ==>
        Learns(StartOf(index, ScopeToRelieve(r.usage, ranks[e]), old(demands).entries[e].scan, r.now), scan)
    {
      assert EntryAt(ranks, index, demands, e);
      var found;
      found, outcome, left, advanced, byteBlocked :=
        ScanPlan(index, r.usage, ranks[e], demands.entries[e].scan, r.now, r.maxBytes, limit, barred, r.late);
      retryAt, scan := found.retryAt, found;
      if outcome.Next? && !byteBlocked {
        ExhaustedQuiet(scan, index, ranks[e].key);
      }
      RescannedSound(ranks, index, demands, e, scan);
      demands := Rescanned(demands, e, found);
    }

    /** Dematerialize the victim and publish the plan that owns further eviction. */
    method Evict(e: EventId, k: Key)
      requires Valid() && e in demands.entries
      modifies this
      ensures Valid()
      ensures index == Index(old(index).revision + 1, old(index).rows - {k}, old(index).grace)
      ensures demands == old(demands).(active := Some((e, old(demands).entries[e].id)))
    {
      MutateIndex(Index(index.revision + 1, index.rows - {k}, index.grace));
      assert EntryAt(ranks, index, demands, e);
      EntriesSound(ranks, index, demands, demands.(active := Some((e, demands.entries[e].id))));
      demands := demands.(active := Some((e, demands.entries[e].id)));
    }

    method EvictFor(e: EventId, k: Key, r: Request, ghost plans: set<EventId>, ghost before: DemandState)
      requires Valid() && e in demands.entries && SameDemands(before, demands) && plans <= ranks.Keys
      requires StepAuthorized(ranks, index, r, plans, before.active.Some?, Pruned(e, k))
      modifies this
      ensures Valid() && Concluded(ranks, old(index), index, r, plans, before, demands, Pruned(e, k))
    {
      assert SameEntry(before, demands, e);
      ghost var last := demands;
      Evict(e, k);
      SameContinues(before, last, demands);
      SameActive(before, last, demands);
    }

    /** The rejected payload leaves the lifecycle, which raises the index revision. */
    method RejectFor(e: EventId, r: Request, ghost plans: set<EventId>, ghost before: DemandState)
      requires Valid() && SameDemands(before, demands) && plans <= ranks.Keys
      requires StepAuthorized(ranks, index, r, plans, before.active.Some?, Rejected(e))
      modifies this`index
      ensures Valid() && Concluded(ranks, old(index), index, r, plans, before, demands, Rejected(e))
    {
      SameContinues(before, demands, demands);
      MutateIndex(index.(revision := index.revision + 1));
    }

    /** Serve the plan whose turn it is: it ends the step, or is passed over. */
    method ServeTurn(order: seq<EventId>, i: nat, r: Request, barred: bool, remaining: nat, progressed: bool,
                     blocked: bool, retryAt: Timestamp,
                     ghost plans: set<EventId>, ghost before: DemandState)
      returns (end: Option<DemandStep>, left: nat, moved: bool, oversized: bool, wait: Timestamp)
      requires Valid() && SelectionReady(index, r.now) && i < |order| && barred == before.active.Some?
      requires Serving(ranks, index, r, plans, order, i, before, demands, progressed || remaining < r.scanLimit, blocked, retryAt)
      requires 0 < r.scanLimit && remaining <= r.scanLimit && plans <= before.entries.Keys
      requires forall h | h in plans :: !HasRoom(r.usage, ranks[h])
      modifies this
      ensures Valid()
      ensures end.Some? ==> !end.value.NoVictim? && Concluded(ranks, old(index), index, r, plans, before, demands, end.value)
      ensures end.None? ==>
        && index == old(index) && left <= remaining && wait <= retryAt && (r.now < retryAt ==> r.now < wait)
        && Serving(ranks, index, r, plans, order, i + 1, before, demands, moved || left < r.scanLimit, oversized, wait)
    {
      end, left, moved, oversized, wait := None, remaining, progressed, blocked, retryAt;
      var e := order[i];
      ghost var last, wasMoved := demands, progressed || remaining < r.scanLimit;
      assert SameEntry(before, last, e);
      var outcome, rows, advanced, byteBlocked, retry, scan := ServePlan(e, r, remaining, barred);
      ghost var learned := (outcome.Next? || outcome.Stop?) && (advanced || rows < remaining);
      ServingLast(ranks, index, r, plans, order, i, before, last, wasMoved, blocked, retryAt, scan, learned);
      match outcome {
        case Next =>
          left, moved, oversized := rows, progressed || advanced, blocked || byteBlocked;
          wait := if retry.Some? && retry.value < retryAt then retry.value else retryAt;
          ServingNext(ranks, index, r, plans, order, i, before, last, wasMoved, blocked, retryAt, scan, learned, byteBlocked, retry, wait);
        case Stop(rowsSpent) =>
          SameContinues(before, demands, demands);
          end := Some(if progressed || advanced || rowsSpent then Continue else Bounded);
        case Reject =>
          RejectFor(e, r, plans, before);
          end := Some(Rejected(e));
        case Victim(k) =>
          EvictFor(e, k, r, plans, before);
          end := Some(Pruned(e, k));
      }
    }

    /** Serve the ranked plans in order until one prunes, is rejected, or a bound stops the step. */
    method Serve(order: seq<EventId>, r: Request, bound: Timestamp,
                 ghost plans: set<EventId>) returns (step: DemandStep)
      requires Valid() && SelectionReady(index, r.now) && 0 < r.scanLimit && r.now < bound
      requires Ranked(ranks, order, plans) && plans <= demands.entries.Keys && order != []
      requires forall h | h in plans :: !HasRoom(r.usage, ranks[h])
      modifies this
      ensures Valid() && Concluded(ranks, old(index), index, r, plans, old(demands), demands, step)
      ensures step.NoVictim? ==> step.retryAt <= bound
    {
      ghost var before := demands;
      var barred := demands.active.Some?;
      var remaining: nat, progressed, blocked := r.scanLimit, false, false;
      var retryAt: Timestamp := bound;
      SameRefl(before);
      for i := 0 to |order|
        invariant Valid() && index == old(index) && r.now < retryAt <= bound && remaining <= r.scanLimit
        invariant Serving(ranks, index, r, plans, order, i, before, demands, progressed || remaining < r.scanLimit, blocked, retryAt)
      {
        var expired := *;
        if r.late && expired {
          SameContinues(before, demands, demands);
          if progressed {
            LearnedSome(ranks, index, r.usage, plans, order, i, r.now, before, demands);
          }
          return if progressed then Continue else Bounded;
        }
        var end;
        end, remaining, progressed, blocked, retryAt :=
          ServeTurn(order, i, r, barred, remaining, progressed, blocked, retryAt, plans, before);
        if end.Some? {
          return end.value;
        }
      }
      SameContinues(before, demands, demands);
      ServingAll(ranks, index, r, plans, order, barred, before, demands, progressed || remaining < r.scanLimit, blocked, retryAt);
      return if blocked then Bounded else NoVictim(retryAt);
    }

    /** Serve the demands that are still live, in ranked order. */
    method Arbitrate(r: Request) returns (step: DemandStep)
      requires Valid() && r.missing <= ranks.Keys && SelectionReady(index, r.now) && 0 < r.scanLimit
      requires r.ready && r.bound && demands.binding == Some(r.binding) && demands.Expire(r.now).entries != map[]
      modifies this
      ensures Valid() && Relieves(ranks, old(index), index, old(demands), demands, r, step)
    {
      ghost var before, plans := demands, Applicable(demands, r.now, r.leased, r.missing);
      ReconciledLive(demands, r.now, r.leased, r.missing);
      var order := Plans(r);
      ghost var live := demands;
      SameRefl(live);
      if order == [] {
        return Idle;
      }
      var fit, stopped := FirstFit(order, r.usage, r.late, plans);
      if fit.Some? {
        return Fits(fit.value);
      }
      if stopped {
        return Bounded;
      }
      var expiry := EarliestExpiry(demands.entries, demands.entries[order[0]].expires);
      step := Serve(order, r, expiry, plans);
      forall e | e in demands.entries ensures expiry <= demands.entries[e].expires {
        assert SameEntry(live.(active := demands.active), demands, e);
      }
      ServedContinues(live, demands, step, plans);
      ContinuesOn(before, live, demands);
    }

    /** One bounded preemption step. */
    method Preempt(r: Request) returns (step: DemandStep)
      requires Valid() && r.missing <= ranks.Keys && (r.ready ==> SelectionReady(index, r.now)) && 0 < r.scanLimit
      modifies this
      ensures Valid() && Relieves(ranks, old(index), index, old(demands), demands, r, step)
    {
      var live := demands.Expire(r.now);
      FewerSound(ranks, index, demands, live);
      FewerSound(ranks, index, demands, demands.Clear());
      if live.entries == map[] {
        demands := live;
        return Idle;
      }
      if !r.ready || !r.bound {
        demands := live;
        return NotReady;
      }
      if demands.binding != Some(r.binding) {
        demands := demands.Clear();
        return NotReady;
      }
      var stopped := *;
      if r.late && stopped {
        demands := live;
        return Bounded;
      }
      step := Arbitrate(r);
    }
  }
}
