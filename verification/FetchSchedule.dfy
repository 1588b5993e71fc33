/**
 The schedule of content fetches: one row per missing payload, moved forward by completions
 that compare the schedule value they observed with the current one.
 */
module FetchSchedule {
  import opened Wrappers
  import opened OrderedKeys

  type EventId = nat
  type Timestamp = nat

  const U16_MAX: nat := 0xFFFF

  /** Absent for a processed payload. */
  datatype ContentState =
    | Missing(attempts: nat, lastAttempt: Option<Timestamp>, next: Timestamp)
    | Terminal

  datatype Row = Row(time: Timestamp, event: EventId)

  predicate Before(a: Row, b: Row) {
    a.time < b.time || (a.time == b.time && a.event < b.event)
  }

  /** The row mirrors the current missing state of a known event. */
  predicate Current(events: set<EventId>, states: map<EventId, ContentState>, row: Row) {
    row.event in states && states[row.event].Missing? && states[row.event].next == row.time && row.event in events
  }

  // Order and validity of rows in terms of the tables alone.

  /** Due earlier, or at the same time for a smaller event. */
  ghost predicate Earlier(a: Row, b: Row) {
    a.time <= b.time && (a.time == b.time ==> a.event < b.event)
  }

  /** The row is the one that the Missing state of a known event names. */
  ghost predicate Names(events: set<EventId>, states: map<EventId, ContentState>, row: Row) {
    row.event in events && row.event in states
    && match states[row.event] case Missing(_, _, next) => next == row.time case Terminal => false
  }

  // Peeking.

  ghost predicate IsFirst(rows: set<Row>, first: Row) {
    first in rows && forall r | r in rows && r != first :: Earlier(first, r)
  }

  lemma FirstOf(rows: set<Row>, first: Row, r: Row)
    requires IsFirst(rows, first) && r !in rows
    ensures IsFirst(rows + {r}, if Earlier(r, first) then r else first)
  {
  }

  method First(rows: set<Row>) returns (first: Row)
    requires rows != {}
    ensures IsFirst(rows, first)
  {
    first := Any(rows);
    var rest := rows - {first};
    while rest != {}
      invariant rest <= rows && first !in rest && IsFirst(rows - rest, first)
      decreases rest
    {
      var r := Any(rest);
      FirstOf(rows - rest, first, r);
      assert rows - (rest - {r}) == rows - rest + {r};
      rest := rest - {r};
      if Before(r, first) {
        first := r;
      }
    }
    assert rows - rest == rows;
  }

  /** Only invalid rows ahead of every valid one are removed. */
  ghost predicate PeekedRow(events: set<EventId>, states: map<EventId, ContentState>, before: set<Row>,
                            after: set<Row>) {
    && after <= before
    && forall r | r in before && r !in after ::
         !Names(events, states, r) && forall v | v in after :: Earlier(r, v)
  }

  /** Remove inconsistent rows from the front and return the first current one. */
  method PeekRows(events: set<EventId>, states: map<EventId, ContentState>, rows: set<Row>)
    returns (schedule: set<Row>, next: Option<Row>)
    ensures PeekedRow(events, states, rows, schedule)
    ensures next.None? ==> schedule == {} && forall r | r in rows :: !Names(events, states, r)
    ensures next.Some? ==>
      && Names(events, states, next.value) && IsFirst(schedule, next.value) && next.value in rows
      && forall r | r in rows && Names(events, states, r) && r != next.value :: Earlier(next.value, r)
  {
    schedule := rows;
    while schedule != {}
      invariant PeekedRow(events, states, rows, schedule)
      decreases |schedule|
    {
      var first := First(schedule);
      if Current(events, states, first) {
        return schedule, Some(first);
      }
      schedule := schedule - {first};
    }
    next := None;
  }

  // The reducers of the schedule.

  /** Signed lengths of the known events, their content states, and the schedule. */
  datatype Tables = Tables(events: map<EventId, nat>, states: map<EventId, ContentState>, schedule: set<Row>)

  predicate IsMissing(t: Tables, id: EventId) {
    id in t.states && t.states[id].Missing?
  }

  /** A completion that took effect: the event and the schedule value it had observed. */
  datatype Token = Token(event: EventId, observed: Timestamp)

  ghost predicate MirrorAt(t: Tables, r: Row) {
    r in t.schedule <==> Names(t.events.Keys, t.states, r)
  }

  /** Only a payload with a positive length can be missing. */
  ghost predicate StateAt(t: Tables, id: EventId) {
    && (id in t.states ==> id in t.events)
    && (IsMissing(t, id) ==> 0 < t.events[id])
  }

  ghost predicate SpentAt(t: Tables, k: Token) {
    k.event in t.events && (IsMissing(t, k.event) ==> k.observed < t.states[k.event].next)
  }

  /** The values that completions used up for one event strictly increase. */
  ghost predicate Forward(spent: seq<Token>) {
    forall i, j | 0 <= i < j < |spent| && spent[i].event == spent[j].event :: spent[i].observed < spent[j].observed
  }

  /** The schedule is exactly the current rows of the missing payloads, and every used value lies in the past. */
  ghost predicate Sound(t: Tables, spent: seq<Token>) {
    && (forall id: EventId :: StateAt(t, id))
    && (forall r: Row :: MirrorAt(t, r))
    && (forall i | 0 <= i < |spent| :: SpentAt(t, spent[i]))
    && Forward(spent)
  }

  function Scheduled(t: Tables, id: EventId): Tables {
    if IsMissing(t, id) then t.(schedule := t.schedule + {Row(t.states[id].next, id)}) else t
  }

  /** No reachable state lacks a row, so restoring one changes nothing. */
  lemma ScheduledSame(t: Tables, spent: seq<Token>, id: EventId)
    requires Sound(t, spent)
    ensures Scheduled(t, id) == t
  {
    if IsMissing(t, id) {
      assert StateAt(t, id) && MirrorAt(t, Row(t.states[id].next, id));
      assert t.schedule + {Row(t.states[id].next, id)} == t.schedule;
    }
  }

  /** A new header: missing content is scheduled at once unless its bytes are already stored. */
  function Inserted(t: Tables, id: EventId, len: nat, deleted: bool, stored: bool): Tables {
    if id in t.events then t
    else if deleted then t.(events := t.events[id := len], states := t.states[id := Terminal])
    else if len == 0 then t.(events := t.events[id := len])
    else Tables(t.events[id := len], t.states[id := Missing(0, None, 0)], if stored then t.schedule else t.schedule + {Row(0, id)})
  }

  /** The row that insertion omits for stored bytes is restored in the same transaction. */
  lemma InsertedSound(t: Tables, spent: seq<Token>, id: EventId, len: nat, deleted: bool, stored: bool)
    requires Sound(t, spent) && id !in t.events
    ensures Sound(Scheduled(Inserted(t, id, len, deleted, stored), id), spent)
  {
    var n := Scheduled(Inserted(t, id, len, deleted, stored), id);
    forall x: EventId ensures StateAt(n, x) {
      assert StateAt(t, x);
    }
    forall r: Row ensures MirrorAt(n, r) {
      assert StateAt(t, r.event) && MirrorAt(t, r);
    }
    forall i | 0 <= i < |spent| ensures SpentAt(n, spent[i]) {
      assert SpentAt(t, spent[i]);
    }
  }

  /** The state and the row of one event change together: to a terminal state, or to processed. */
  function Settled(t: Tables, id: EventId, state: Option<ContentState>): Tables {
    t.(states := if state.Some? then t.states[id := state.value] else t.states - {id},
       schedule := if IsMissing(t, id) then t.schedule - {Row(t.states[id].next, id)} else t.schedule)
  }

  lemma SettledSound(t: Tables, spent: seq<Token>, id: EventId, state: Option<ContentState>)
    requires Sound(t, spent) && id in t.events && (state.Some? ==> state.value.Terminal?)
    ensures Sound(Settled(t, id, state), spent)
  {
    var n := Settled(t, id, state);
    forall x: EventId ensures StateAt(n, x) {
      assert StateAt(t, x);
    }
    forall r: Row ensures MirrorAt(n, r) {
      assert MirrorAt(t, r);
    }
    forall i | 0 <= i < |spent| ensures SpentAt(n, spent[i]) {
      assert SpentAt(t, spent[i]);
    }
  }

  /** A received header: inserted, pruned at once when its payload is too long to process, and scheduled if missing. */
  function Received(t: Tables, id: EventId, len: nat, deleted: bool, stored: bool, maxLen: nat): Tables {
    var n := Inserted(t, id, len, deleted, stored);
    Scheduled(if maxLen <= len then Settled(n, id, Some(Terminal)) else n, id)
  }

  lemma OversizedSound(t: Tables, spent: seq<Token>, id: EventId, len: nat, deleted: bool, stored: bool)
    requires Sound(t, spent) && id !in t.events
    ensures Sound(Settled(Inserted(t, id, len, deleted, stored), id, Some(Terminal)), spent)
  {
    var n := Settled(Inserted(t, id, len, deleted, stored), id, Some(Terminal));
    forall x: EventId ensures StateAt(n, x) {
      assert StateAt(t, x);
    }
    forall r: Row ensures MirrorAt(n, r) {
      assert StateAt(t, r.event) && MirrorAt(t, r);
    }
    forall i | 0 <= i < |spent| ensures SpentAt(n, spent[i]) {
      assert SpentAt(t, spent[i]);
    }
  }

  lemma ReceivedSound(t: Tables, spent: seq<Token>, id: EventId, len: nat, deleted: bool, stored: bool, maxLen: nat)
    requires Sound(t, spent)
    ensures Sound(Received(t, id, len, deleted, stored, maxLen), spent)
    ensures id in t.events && len < maxLen ==> Received(t, id, len, deleted, stored, maxLen) == t
  {
    if id in t.events {
      if maxLen <= len {
        SettledSound(t, spent, id, Some(Terminal));
      } else {
        ScheduledSame(t, spent, id);
      }
    } else if maxLen <= len {
      OversizedSound(t, spent, id, len, deleted, stored);
    } else {
      InsertedSound(t, spent, id, len, deleted, stored);
    }
  }

  /** The compare-and-set guard shared by deferrals and failed attempts. */
  predicate Takes(t: Tables, id: EventId, observed: Timestamp, next: Timestamp) {
    IsMissing(t, id) && t.states[id].next == observed && observed < next
  }

  function Moved(t: Tables, id: EventId, attempts: nat, last: Option<Timestamp>, next: Timestamp): Tables
    requires IsMissing(t, id)
  {
    t.(states := t.states[id := Missing(attempts, last, next)],
       schedule := t.schedule - {Row(t.states[id].next, id)} + {Row(next, id)})
  }

  /** A completion that takes effect moves the row forward and spends the value it observed. */
  lemma MovedSound(t: Tables, spent: seq<Token>, id: EventId, observed: Timestamp, attempts: nat,
                   last: Option<Timestamp>, next: Timestamp)
    requires Sound(t, spent) && Takes(t, id, observed, next)
    ensures Sound(Moved(t, id, attempts, last, next), spent + [Token(id, observed)])
  {
    var n, more := Moved(t, id, attempts, last, next), spent + [Token(id, observed)];
    forall x: EventId ensures StateAt(n, x) {
      assert StateAt(t, x);
    }
    forall r: Row ensures MirrorAt(n, r) {
      assert MirrorAt(t, r) && StateAt(t, id);
    }
    forall i | 0 <= i < |more| ensures SpentAt(n, more[i]) {
      assert StateAt(t, id) && (i < |spent| ==> SpentAt(t, spent[i]));
    }
    forall i | 0 <= i < |spent| && spent[i].event == id ensures spent[i].observed < observed {
      assert SpentAt(t, spent[i]);
    }
  }

  /** A spent value never takes effect again, whatever happened since. */
  lemma SpentNeverTakes(t: Tables, spent: seq<Token>, i: nat, next: Timestamp)
    requires Sound(t, spent) && i < |spent|
    ensures !Takes(t, spent[i].event, spent[i].observed, next)
  {
    assert SpentAt(t, spent[i]);
  }

  /** Every missing payload has exactly one row, the one its state names, and nothing else has any. */
  lemma OneRow(t: Tables, spent: seq<Token>, id: EventId)
    requires Sound(t, spent)
    ensures (set r | r in t.schedule && r.event == id) == if IsMissing(t, id) then {Row(t.states[id].next, id)} else {}
  {
    assert StateAt(t, id);
    assert IsMissing(t, id) ==> MirrorAt(t, Row(t.states[id].next, id));
    forall r | r in t.schedule && r.event == id ensures IsMissing(t, id) && r == Row(t.states[id].next, id) {
      assert MirrorAt(t, r);
    }
  }

  lemma NothingStale(t: Tables, spent: seq<Token>, rows: set<Row>)
    requires Sound(t, spent) && PeekedRow(t.events.Keys, t.states, t.schedule, rows)
    ensures rows == t.schedule
  {
    forall r | r in t.schedule ensures r in rows {
      assert MirrorAt(t, r);
    }
  }

  function Counted(attempts: nat): nat {
    if attempts < U16_MAX then attempts + 1 else U16_MAX
  }

  /** Received content: its length, absent bytes for none, and whether its reducer accepts it. */
  datatype Content = Content(len: Option<nat>, valid: bool)

  /** Verification admits absent bytes for an empty payload only, and present ones of the signed length. */
  predicate Verified(len: nat, content: Content) {
    if content.len.Some? then content.len.value == len else len == 0
  }

  datatype Op =
    | Receive(id: EventId, len: nat, deleted: bool, stored: bool)
    | Ensure(id: EventId)
    | Provide(id: EventId, content: Content, admitted: bool)
    | Finish(id: EventId)
    | Postpone(id: EventId, observed: Timestamp, retryAt: Timestamp)
    | Fail(id: EventId, observed: Timestamp, attemptedAt: Timestamp, next: Timestamp)
    | PeekNext

  /** Content reaches its event: it is verified, not too long, still missing, and admission does not pause it. */
  predicate Applies(t: Tables, id: EventId, content: Content, admitted: bool, maxLen: nat) {
    id in t.events && Verified(t.events[id], content) && t.events[id] < maxLen && IsMissing(t, id) && admitted
  }

  datatype State = State(t: Tables, spent: seq<Token>)

  /** The meaning of one operation. */
  ghost function Step(maxLen: nat, s: State, op: Op): State {
    match op
    case Receive(id, len, deleted, stored) => s.(t := Received(s.t, id, len, deleted, stored, maxLen))
    case Ensure(_) => s
    case Provide(id, content, admitted) =>
      if Applies(s.t, id, content, admitted, maxLen) then s.(t := Settled(s.t, id, if content.valid then None else Some(Terminal))) else s
    case Finish(id) => if id in s.t.events then s.(t := Settled(s.t, id, Some(Terminal))) else s
    case Postpone(id, observed, retryAt) =>
      if Takes(s.t, id, observed, retryAt)
      then State(Moved(s.t, id, s.t.states[id].attempts, s.t.states[id].lastAttempt, retryAt), s.spent + [Token(id, observed)])
      else s
    case Fail(id, observed, attemptedAt, next) =>
      if Takes(s.t, id, observed, next)
      then State(Moved(s.t, id, Counted(s.t.states[id].attempts), Some(attemptedAt), next), s.spent + [Token(id, observed)])
      else s
    case PeekNext => s
  }

  /** The meaning of a run. */
  ghost function After(maxLen: nat, s: State, ops: seq<Op>): State {
    if ops == [] then s else Step(maxLen, After(maxLen, s, ops[..|ops| - 1]), ops[|ops| - 1])
  }

  // What an operation does to the events and their states, row by row; the schedule follows from them.

  ghost predicate InState(t: Tables, id: EventId, s: Option<ContentState>) {
    if s.None? then id !in t.states else id in t.states && t.states[id] == s.value
  }

  /** The event is left in the given state, and nothing else changes state. */
  ghost predicate Becomes(t: Tables, n: Tables, id: EventId, s: Option<ContentState>) {
    InState(n, id, s) && forall x: EventId | x != id :: InState(n, x, if x in t.states then Some(t.states[x]) else None)
  }

  /** The state a received header leaves its event in. */
  ghost function HeaderState(t: Tables, id: EventId, len: nat, deleted: bool, maxLen: nat): Option<ContentState> {
    if maxLen <= len || (id !in t.events && deleted) then Some(Terminal)
    else if id !in t.events then (if len == 0 then None else Some(Missing(0, None, 0)))
    else if id in t.states then Some(t.states[id])
    else None
  }

  ghost predicate Waiting(t: Tables, id: EventId, observed: Timestamp) {
    id in t.states && t.states[id].Missing? && t.states[id].next == observed
  }

  class Fetcher {
    /** Payloads of this length or more are never processed. */
    const maxLen: nat
    var t: Tables
    /** The observed values of every completion that took effect, in order. */
    ghost var spent: seq<Token>

    ghost predicate Valid()
      reads this
    {
      Sound(t, spent)
    }

    constructor (maxLen: nat)
      ensures Valid() && t == Tables(map[], map[], {}) && spent == [] && this.maxLen == maxLen
    {
      this.maxLen := maxLen;
      t, spent := Tables(map[], map[], {}), [];
    }

    /** Receive an event header, new or known; a missing payload is scheduled when this ends. */
    method Insert(id: EventId, len: nat, deleted: bool, stored: bool)
      requires Valid()
      modifies this`t
      ensures Valid() && t == Received(old(t), id, len, deleted, stored, maxLen)
      ensures t.events == if id in old(t).events then old(t).events else old(t).events[id := len]
      ensures Becomes(old(t), t, id, HeaderState(old(t), id, len, deleted, maxLen))
      ensures IsMissing(t, id) ==> Row(t.states[id].next, id) in t.schedule
      ensures id in old(t).events && len < maxLen ==> t == old(t)
    {
      assert StateAt(t, id);
      ReceivedSound(t, spent, id, len, deleted, stored, maxLen);
      t := Received(t, id, len, deleted, stored, maxLen);
    }

    /** A paused materialization keeps its retry row. */
    method EnsureScheduled(id: EventId)
      requires Valid()
      modifies this`t
      ensures Valid() && t == old(t)
    {
      ScheduledSame(t, spent, id);
      t := Scheduled(t, id);
    }

    /**
     Content that fails verification never reaches the reducer; a missing payload becomes processed
     or invalid, unless admission pauses it (`admitted`).
     */
    method Deliver(id: EventId, content: Content, admitted: bool) returns (applied: bool)
      requires Valid()
      modifies this`t
      ensures Valid()
      ensures applied <==>
        && id in old(t).events && old(t).events[id] < maxLen && admitted
        && (match content.len case None => old(t).events[id] == 0 case Some(n) => n == old(t).events[id])
        && id in old(t).states && old(t).states[id].Missing?
      ensures applied ==> t.events == old(t).events && Becomes(old(t), t, id, if content.valid then None else Some(Terminal))
      ensures t == if applied then Settled(old(t), id, if content.valid then None else Some(Terminal)) else old(t)
    {
      applied := false;
      if !Applies(t, id, content, admitted, maxLen) {
        return;
      }
      assert content.len.Some? by { assert StateAt(t, id); }
      var state := if content.valid then None else Some(Terminal);
      SettledSound(t, spent, id, state);
      t, applied := Settled(t, id, state), true;
    }

    /** Deletion or pruning, from the missing or the processed state. */
    method Terminate(id: EventId)
      requires Valid()
      modifies this`t
      ensures Valid() && t == if id in old(t).events then Settled(old(t), id, Some(Terminal)) else old(t)
      ensures id in old(t).events ==> t.events == old(t).events && Becomes(old(t), t, id, Some(Terminal))
    {
      if id in t.events {
        SettledSound(t, spent, id, Some(Terminal));
        t := Settled(t, id, Some(Terminal));
      }
    }

    /** Postpone without recording an attempt; stale or non-forward requests do nothing. */
    method Defer(id: EventId, observed: Timestamp, retryAt: Timestamp) returns (took: bool)
      requires Valid()
      modifies this
      ensures Valid() && (took <==> Waiting(old(t), id, observed) && observed < retryAt)
      ensures !took ==> t == old(t) && spent == old(spent)
      ensures took ==>
        && t == Moved(old(t), id, old(t).states[id].attempts, old(t).states[id].lastAttempt, retryAt)
        && t.events == old(t).events
        && Becomes(old(t), t, id, Some(Missing(old(t).states[id].attempts, old(t).states[id].lastAttempt, retryAt)))
        && spent == old(spent) + [Token(id, observed)]
    {
      took := Takes(t, id, observed, retryAt);
      if took {
        var state := t.states[id];
        MovedSound(t, spent, id, observed, state.attempts, state.lastAttempt, retryAt);
        t := Moved(t, id, state.attempts, state.lastAttempt, retryAt);
        spent := spent + [Token(id, observed)];
      }
    }

    /** Record a failed attempt; of all completions that observed one value at most one takes effect. */
    method RecordFailure(id: EventId, observed: Timestamp, attemptedAt: Timestamp, next: Timestamp) returns (took: bool)
      requires Valid()
      modifies this
      ensures Valid() && (took <==> Waiting(old(t), id, observed) && observed < next)
      ensures !took ==> t == old(t) && spent == old(spent)
      ensures took ==>
        && t == Moved(old(t), id, Counted(old(t).states[id].attempts), Some(attemptedAt), next)
        && t.events == old(t).events
        && Becomes(old(t), t, id, Some(Missing(
             if old(t).states[id].attempts < 65535 then old(t).states[id].attempts + 1 else 65535, Some(attemptedAt), next)))
        && spent == old(spent) + [Token(id, observed)]
    {
      took := Takes(t, id, observed, next);
      if took {
        var attempts := Counted(t.states[id].attempts);
        MovedSound(t, spent, id, observed, attempts, Some(attemptedAt), next);
        t := Moved(t, id, attempts, Some(attemptedAt), next);
        spent := spent + [Token(id, observed)];
      }
    }

    /** The front row is always current, so peeking removes nothing and finds the least scheduled missing payload. */
    method Peek() returns (next: Option<Row>)
      requires Valid()
      modifies this`t
      ensures Valid() && t == old(t)
      ensures next.None? ==> forall id: EventId :: !IsMissing(t, id)
      ensures next.Some? ==>
        && IsMissing(t, next.value.event) && t.states[next.value.event].next == next.value.time
        && forall id | IsMissing(t, id) && id != next.value.event :: Earlier(next.value, Row(t.states[id].next, id))
    {
      var rows;
      rows, next := PeekRows(t.events.Keys, t.states, t.schedule);
      NothingStale(t, spent, rows);
      forall id: EventId | IsMissing(t, id) ensures Row(t.states[id].next, id) in rows && next.Some? {
        assert StateAt(t, id) && MirrorAt(t, Row(t.states[id].next, id));
      }
      t := t.(schedule := rows);
      assert next.Some? ==> IsMissing(t, next.value.event);
    }

    ghost function Here(): State
      reads this
    {
      State(t, spent)
    }

    method Apply(op: Op)
      requires Valid()
      modifies this
      ensures Valid() && Here() == Step(maxLen, old(Here()), op)
    {
      match op {
        case Receive(id, len, deleted, stored) => Insert(id, len, deleted, stored);
        case Ensure(id) => EnsureScheduled(id);
        case Provide(id, content, admitted) => var _ := Deliver(id, content, admitted);
        case Finish(id) => Terminate(id);
        case Postpone(id, observed, retryAt) => var _ := Defer(id, observed, retryAt);
        case Fail(id, observed, attemptedAt, next) => var _ := RecordFailure(id, observed, attemptedAt, next);
        case PeekNext => var _ := Peek();
      }
    }

    /** Every run: the schedule mirrors the missing payloads and used values only move forward. */
    method Run(ops: seq<Op>)
      requires Valid()
      modifies this
      ensures Valid() && Here() == After(maxLen, old(Here()), ops)
      ensures Forward(spent) && forall r: Row :: MirrorAt(t, r)
    {
      for i := 0 to |ops|
        invariant Valid() && Here() == After(maxLen, old(Here()), ops[..i])
      {
        Apply(ops[i]);
        assert ops[..i + 1][..i] == ops[..i];
      }
      assert ops[..|ops|] == ops;
    }
  }

  /** A run keeps what is sound sound, and only adds to the values used up. */
  lemma {:induction false} RunSound(maxLen: nat, s: State, ops: seq<Op>)
    requires Sound(s.t, s.spent)
    ensures var n := After(maxLen, s, ops); Sound(n.t, n.spent) && s.spent <= n.spent
  {
    if ops != [] {
      var op, m := ops[|ops| - 1], After(maxLen, s, ops[..|ops| - 1]);
      RunSound(maxLen, s, ops[..|ops| - 1]);
      match op {
        case Receive(id, len, deleted, stored) => ReceivedSound(m.t, m.spent, id, len, deleted, stored, maxLen);
        case Provide(id, content, admitted) =>
          if Applies(m.t, id, content, admitted, maxLen) {
            SettledSound(m.t, m.spent, id, if content.valid then None else Some(Terminal));
          }
        case Finish(id) =>
          if id in m.t.events {
            SettledSound(m.t, m.spent, id, Some(Terminal));
          }
        case Postpone(id, observed, retryAt) =>
          if Takes(m.t, id, observed, retryAt) {
            MovedSound(m.t, m.spent, id, observed, m.t.states[id].attempts, m.t.states[id].lastAttempt, retryAt);
          }
        case Fail(id, observed, attemptedAt, next) =>
          if Takes(m.t, id, observed, next) {
            MovedSound(m.t, m.spent, id, observed, Counted(m.t.states[id].attempts), Some(attemptedAt), next);
          }
        case _ =>
      }
    }
  }

  /** Whatever happens later, a value once used up never takes effect again. */
  lemma SpentForever(maxLen: nat, s: State, ops: seq<Op>, i: nat, next: Timestamp)
    requires Sound(s.t, s.spent) && i < |s.spent|
    ensures !Takes(After(maxLen, s, ops).t, s.spent[i].event, s.spent[i].observed, next)
  {
    RunSound(maxLen, s, ops);
    var n := After(maxLen, s, ops);
    SpentNeverTakes(n.t, n.spent, i, next);
  }
}
