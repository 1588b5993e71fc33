/**
 Retained direct messages with their local arrival sequence, per-session read markers, and
 the counters from which unread messages are counted without a scan.
 */
module DmHistory {
  import opened Wrappers
  import opened OrderedKeys
  import Sums

  type Person = nat
  type Session = nat

  datatype MessageKey = MessageKey(sender: Person, message: nat)

  datatype Body = Body(sender: Person, recipient: Person, message: nat, text: seq<char>)

  datatype Entry = Entry(sender: Person, recipient: Person, text: seq<char>, event: nat, timestamp: nat, conflicted: bool)

  datatype PeerSequence = PeerSequence(peer: Person, sequence: nat)

  datatype Marker = Marker(session: Session, sequence: nat)

  datatype SessionPeer = SessionPeer(session: Session, peer: Person)

  datatype Tables = Tables(
    self: Person,
    history: map<MessageKey, Entry>,
    incoming: map<nat, MessageKey>,
    incomingByPeer: map<PeerSequence, MessageKey>,
    incomingSequence: map<MessageKey, nat>,
    countByPeer: map<Person, nat>,
    read: set<Marker>,
    readCount: map<Session, nat>,
    readCountByPeer: map<SessionPeer, nat>)

  function Count<K>(counts: map<K, nat>, k: K): nat {
    if k in counts then counts[k] else 0
  }

  // What the counters stand for.

  /** Arrival sequences from one peer, or from anyone. */
  ghost function Arrivals(incoming: map<nat, MessageKey>, peer: Option<Person>): set<nat> {
    set s | s in incoming && (peer.None? || incoming[s].sender == peer.value)
  }

  /** Those of them that the session has marked read. */
  ghost function MarkedRead(incoming: map<nat, MessageKey>, read: set<Marker>, session: Session,
                            peer: Option<Person>): set<nat> {
    set s | s in Arrivals(incoming, peer) && Marker(session, s) in read
  }

  ghost function Unread(t: Tables, session: Session, peer: Option<Person>): set<nat> {
    set s | s in Arrivals(t.incoming, peer) && Marker(session, s) !in t.read
  }

  ghost predicate DenseAt(incoming: map<nat, MessageKey>, s: nat) {
    s in incoming <==> 1 <= s <= |incoming|
  }

  /** Sequences run from one without a gap. */
  ghost predicate Dense(incoming: map<nat, MessageKey>) {
    forall s: nat :: DenseAt(incoming, s)
  }

  ghost predicate PairedAt(incoming: map<nat, MessageKey>, incomingSequence: map<MessageKey, nat>, s: nat,
                           k: MessageKey) {
    (s in incoming && incoming[s] == k) <==> (k in incomingSequence && incomingSequence[k] == s)
  }

  /** The two arrival tables are inverse to each other. */
  ghost predicate Paired(incoming: map<nat, MessageKey>, incomingSequence: map<MessageKey, nat>) {
    forall s: nat, k: MessageKey :: PairedAt(incoming, incomingSequence, s, k)
  }

  ghost predicate ListedAt(incoming: map<nat, MessageKey>, byPeer: map<PeerSequence, MessageKey>, row: PeerSequence,
                           k: MessageKey) {
    (row in byPeer && byPeer[row] == k) <==> (row.sequence in incoming && incoming[row.sequence] == k && k.sender == row.peer)
  }

  /** The third arrival table lists the same rows by peer. */
  ghost predicate ListedByPeer(incoming: map<nat, MessageKey>, byPeer: map<PeerSequence, MessageKey>) {
    forall row: PeerSequence, k: MessageKey :: ListedAt(incoming, byPeer, row, k)
  }

  ghost predicate AddressedAt(self: Person, history: map<MessageKey, Entry>, incomingSequence: map<MessageKey, nat>,
                              k: MessageKey) {
    && (k in history ==> history[k].sender == k.sender)
    && (k in incomingSequence <==> k in history && history[k].recipient == self)
  }

  /** Exactly the retained messages addressed to this account have a sequence. */
  ghost predicate Addressed(self: Person, history: map<MessageKey, Entry>, incomingSequence: map<MessageKey, nat>) {
    forall k: MessageKey :: AddressedAt(self, history, incomingSequence, k)
  }

  ghost predicate ArrivalCountAt(incoming: map<nat, MessageKey>, countByPeer: map<Person, nat>, p: Person) {
    Count<Person>(countByPeer, p) == |Arrivals(incoming, Some(p))|
  }

  ghost predicate ArrivalCounts(incoming: map<nat, MessageKey>, countByPeer: map<Person, nat>) {
    forall p: Person :: ArrivalCountAt(incoming, countByPeer, p)
  }

  /** Only arrived messages are marked read. */
  ghost predicate Received(incoming: map<nat, MessageKey>, read: set<Marker>) {
    forall r | r in read :: r.sequence in incoming
  }

  ghost predicate ReadCountAt(incoming: map<nat, MessageKey>, read: set<Marker>, readCount: map<Session, nat>,
                              s: Session) {
    Count<Session>(readCount, s) == |MarkedRead(incoming, read, s, None)|
  }

  ghost predicate PeerReadCountAt(incoming: map<nat, MessageKey>, read: set<Marker>,
                                  readCountByPeer: map<SessionPeer, nat>, s: Session, p: Person) {
    Count<SessionPeer>(readCountByPeer, SessionPeer(s, p)) == |MarkedRead(incoming, read, s, Some(p))|
  }

  ghost predicate ReadCounts(incoming: map<nat, MessageKey>, read: set<Marker>, readCount: map<Session, nat>,
                             readCountByPeer: map<SessionPeer, nat>) {
    && Received(incoming, read)
    && (forall s: Session :: ReadCountAt(incoming, read, readCount, s))
    && (forall s: Session, p: Person :: PeerReadCountAt(incoming, read, readCountByPeer, s, p))
  }

  ghost predicate ArrivalsExact(t: Tables) {
    && Dense(t.incoming) && |t.incoming| <= U64_MAX
    && Paired(t.incoming, t.incomingSequence) && ListedByPeer(t.incoming, t.incomingByPeer)
    && ArrivalCounts(t.incoming, t.countByPeer)
  }

  ghost predicate Valid(t: Tables) {
    && ArrivalsExact(t) && Addressed(t.self, t.history, t.incomingSequence)
    && ReadCounts(t.incoming, t.read, t.readCount, t.readCountByPeer)
  }

  // Storing a message.

  ghost predicate IsLast(incoming: map<nat, MessageKey>, last: nat) {
    if incoming == map[] then last == 0 else last in incoming && forall s | s in incoming :: s <= last
  }

  function Arrived(t: Tables, key: MessageKey, sequence: nat): Tables {
    t.(incoming := t.incoming[sequence := key],
       incomingByPeer := t.incomingByPeer[PeerSequence(key.sender, sequence) := key],
       incomingSequence := t.incomingSequence[key := sequence],
       countByPeer := t.countByPeer[key.sender := Count<Person>(t.countByPeer, key.sender) + 1])
  }

  function Arrive(t: Tables, key: MessageKey, last: nat): Result<Tables> {
    if last + 1 > U64_MAX || Count<Person>(t.countByPeer, key.sender) + 1 > U64_MAX then Err(Overflow)
    else Ok(Arrived(t, key, last + 1))
  }

  function Recorded(t: Tables, body: Body, event: nat, timestamp: nat): Tables {
    t.(history := t.history[MessageKey(body.sender, body.message) := Entry(body.sender, body.recipient, body.text, event, timestamp, false)])
  }

  function Flagged(t: Tables, key: MessageKey): Tables
    requires key in t.history
  {
    t.(history := t.history[key := t.history[key].(conflicted := true)])
  }

  predicate Differs(e: Entry, body: Body) {
    e.recipient != body.recipient || e.text != body.text
  }

  /** A repeated identifier never arrives twice; a different body only marks it conflicted. */
  function StoreHistory(t: Tables, body: Body, event: nat, timestamp: nat, last: nat): Result<Tables> {
    var key := MessageKey(body.sender, body.message);
    if key in t.history then Ok(if Differs(t.history[key], body) then Flagged(t, key) else t)
    else if body.recipient == t.self then Arrive(Recorded(t, body, event, timestamp), key, last)
    else Ok(Recorded(t, body, event, timestamp))
  }

  lemma LastIsCount(incoming: map<nat, MessageKey>, last: nat)
    requires Dense(incoming) && IsLast(incoming, last)
    ensures last == |incoming| && last + 1 !in incoming
  {
    assert DenseAt(incoming, |incoming|) && DenseAt(incoming, last) && DenseAt(incoming, last + 1);
  }

  lemma ArrivalAdded(incoming: map<nat, MessageKey>, key: MessageKey, s: nat, peer: Option<Person>)
    requires s !in incoming
    ensures Arrivals(incoming[s := key], peer) ==
      if peer.None? || key.sender == peer.value then Arrivals(incoming, peer) + {s} else Arrivals(incoming, peer)
  {
  }

  lemma ArrivalUnmarked(incoming: map<nat, MessageKey>, key: MessageKey, s: nat, read: set<Marker>, session: Session,
                        peer: Option<Person>)
    requires s !in incoming && Received(incoming, read)
    ensures MarkedRead(incoming[s := key], read, session, peer) == MarkedRead(incoming, read, session, peer)
  {
    ArrivalAdded(incoming, key, s, peer);
  }

  /** A new arrival leaves every read counter exact. */
  lemma ArrivalReadCounts(incoming: map<nat, MessageKey>, key: MessageKey, n: nat, read: set<Marker>,
                          readCount: map<Session, nat>, readCountByPeer: map<SessionPeer, nat>)
    requires n !in incoming && ReadCounts(incoming, read, readCount, readCountByPeer)
    ensures ReadCounts(incoming[n := key], read, readCount, readCountByPeer)
  {
    var next := incoming[n := key];
    forall s: Session ensures ReadCountAt(next, read, readCount, s) {
      assert ReadCountAt(incoming, read, readCount, s);
      ArrivalUnmarked(incoming, key, n, read, s, None);
    }
    forall s: Session, p: Person ensures PeerReadCountAt(next, read, readCountByPeer, s, p) {
      assert PeerReadCountAt(incoming, read, readCountByPeer, s, p);
      ArrivalUnmarked(incoming, key, n, read, s, Some(p));
    }
  }

  lemma OneMoreRow(incoming: map<nat, MessageKey>, key: MessageKey, n: nat)
    requires n !in incoming
    ensures |incoming[n := key]| == |incoming| + 1
  {
    assert incoming[n := key].Keys == incoming.Keys + {n};
  }

  /** The number after the last one is free and keeps the numbering without a gap. */
  lemma DenseNext(incoming: map<nat, MessageKey>, key: MessageKey)
    requires Dense(incoming)
    ensures |incoming| + 1 !in incoming && |incoming[|incoming| + 1 := key]| == |incoming| + 1
    ensures Dense(incoming[|incoming| + 1 := key])
  {
    var n := |incoming| + 1;
    assert DenseAt(incoming, n);
    OneMoreRow(incoming, key, n);
    var next := incoming[n := key];
    forall s: nat ensures DenseAt(next, s) {
      assert DenseAt(incoming, s);
    }
  }

  lemma CountedArrival(incoming: map<nat, MessageKey>, countByPeer: map<Person, nat>, key: MessageKey, s: nat)
    requires ArrivalCounts(incoming, countByPeer) && s !in incoming
    ensures ArrivalCounts(incoming[s := key], countByPeer[key.sender := Count<Person>(countByPeer, key.sender) + 1])
  {
    var next, counts := incoming[s := key], countByPeer[key.sender := Count<Person>(countByPeer, key.sender) + 1];
    forall p: Person ensures ArrivalCountAt(next, counts, p) {
      assert ArrivalCountAt(incoming, countByPeer, p);
      ArrivalAdded(incoming, key, s, Some(p));
    }
  }

  lemma PairedArrival(incoming: map<nat, MessageKey>, incomingSequence: map<MessageKey, nat>, key: MessageKey, n: nat)
    requires Paired(incoming, incomingSequence) && n !in incoming && key !in incomingSequence
    ensures Paired(incoming[n := key], incomingSequence[key := n])
  {
    var arrivals, sequences := incoming[n := key], incomingSequence[key := n];
    forall s: nat, k: MessageKey ensures PairedAt(arrivals, sequences, s, k) {
      assert PairedAt(incoming, incomingSequence, s, k);
    }
  }

  lemma ListedArrival(incoming: map<nat, MessageKey>, byPeer: map<PeerSequence, MessageKey>, key: MessageKey, n: nat)
    requires ListedByPeer(incoming, byPeer) && n !in incoming
    ensures ListedByPeer(incoming[n := key], byPeer[PeerSequence(key.sender, n) := key])
  {
    var arrivals, rows := incoming[n := key], byPeer[PeerSequence(key.sender, n) := key];
    forall row: PeerSequence, k: MessageKey ensures ListedAt(arrivals, rows, row, k) {
      assert ListedAt(incoming, byPeer, row, k);
    }
  }

  lemma ArriveDense(t: Tables, key: MessageKey, last: nat)
    requires Dense(t.incoming) && IsLast(t.incoming, last) && last < U64_MAX
    ensures last + 1 !in t.incoming
    ensures var n := Arrived(t, key, last + 1); Dense(n.incoming) && |n.incoming| <= U64_MAX
  {
    LastIsCount(t.incoming, last);
    DenseNext(t.incoming, key);
  }

  lemma ArriveListed(t: Tables, key: MessageKey, s: nat)
    requires Paired(t.incoming, t.incomingSequence) && ListedByPeer(t.incoming, t.incomingByPeer)
    requires ArrivalCounts(t.incoming, t.countByPeer) && s !in t.incoming && key !in t.incomingSequence
    ensures var n := Arrived(t, key, s);
      && Paired(n.incoming, n.incomingSequence) && ListedByPeer(n.incoming, n.incomingByPeer)
      && ArrivalCounts(n.incoming, n.countByPeer)
  {
    PairedArrival(t.incoming, t.incomingSequence, key, s);
    ListedArrival(t.incoming, t.incomingByPeer, key, s);
    CountedArrival(t.incoming, t.countByPeer, key, s);
  }

  /** The next sequence for a message not yet counted. */
  lemma ArriveKeeps(t: Tables, key: MessageKey, last: nat)
    requires ArrivalsExact(t) && IsLast(t.incoming, last) && last < U64_MAX && key !in t.incomingSequence
    ensures ArrivalsExact(Arrived(t, key, last + 1))
  {
    ArriveDense(t, key, last);
    ArriveListed(t, key, last + 1);
  }

  /** An arrival is refused only when the sequence space is used up. */
  lemma ArriveSucceeds(t: Tables, key: MessageKey, last: nat)
    requires ArrivalsExact(t) && IsLast(t.incoming, last)
    ensures Arrive(t, key, last).Ok? <==> |t.incoming| < U64_MAX
  {
    LastIsCount(t.incoming, last);
    assert ArrivalCountAt(t.incoming, t.countByPeer, key.sender);
    Sums.SubsetCount(Arrivals(t.incoming, Some(key.sender)), t.incoming.Keys);
  }

  lemma AddressedStored(self: Person, history: map<MessageKey, Entry>, incomingSequence: map<MessageKey, nat>,
                        key: MessageKey, e: Entry, s: nat)
    requires Addressed(self, history, incomingSequence) && key !in history && e.sender == key.sender
    ensures e.recipient == self ==> Addressed(self, history[key := e], incomingSequence[key := s])
    ensures e.recipient != self ==> Addressed(self, history[key := e], incomingSequence)
    ensures key !in incomingSequence
  {
    var entries, sequences := history[key := e], incomingSequence[key := s];
    assert AddressedAt(self, history, incomingSequence, key);
    forall k: MessageKey ensures if e.recipient == self then AddressedAt(self, entries, sequences, k) else AddressedAt(self, entries, incomingSequence, k) {
      assert AddressedAt(self, history, incomingSequence, k);
    }
  }

  lemma AddressedConflict(self: Person, history: map<MessageKey, Entry>, incomingSequence: map<MessageKey, nat>,
                          key: MessageKey)
    requires Addressed(self, history, incomingSequence) && key in history
    ensures Addressed(self, history[key := history[key].(conflicted := true)], incomingSequence)
  {
    var entries := history[key := history[key].(conflicted := true)];
    forall k: MessageKey ensures AddressedAt(self, entries, incomingSequence, k) {
      assert AddressedAt(self, history, incomingSequence, k);
    }
  }

  /** A first delivery to this account takes the next sequence. */
  lemma StoreArrives(t: Tables, key: MessageKey, e: Entry, last: nat)
    requires Valid(t) && IsLast(t.incoming, last) && last < U64_MAX
    requires key !in t.history && e.sender == key.sender && e.recipient == t.self
    ensures Valid(Arrived(t.(history := t.history[key := e]), key, last + 1))
  {
    var stored := t.(history := t.history[key := e]);
    AddressedStored(t.self, t.history, t.incomingSequence, key, e, last + 1);
    assert ArrivalsExact(stored);
    ArriveKeeps(stored, key, last);
    assert last + 1 !in t.incoming by { LastIsCount(t.incoming, last); }
    ArrivalReadCounts(t.incoming, key, last + 1, t.read, t.readCount, t.readCountByPeer);
  }

  /** Every stored, repeated or conflicting message leaves the counters exact. */
  lemma StoreKeeps(t: Tables, body: Body, event: nat, timestamp: nat, last: nat)
    requires Valid(t) && IsLast(t.incoming, last)
    ensures StoreHistory(t, body, event, timestamp, last).Ok? ==> Valid(StoreHistory(t, body, event, timestamp, last).value)
  {
    var key, e := MessageKey(body.sender, body.message), Entry(body.sender, body.recipient, body.text, event, timestamp, false);
    if key in t.history {
      AddressedConflict(t.self, t.history, t.incomingSequence, key);
    } else {
      AddressedStored(t.self, t.history, t.incomingSequence, key, e, last + 1);
      if body.recipient == t.self && StoreHistory(t, body, event, timestamp, last).Ok? {
        StoreArrives(t, key, e, last);
      }
    }
  }

  // Counting unread messages.

  function CountUnread(t: Tables, session: Session, peer: Option<Person>, limit: nat, last: nat): nat {
    var total := if peer.Some? then Count<Person>(t.countByPeer, peer.value) else last;
    var read := if peer.Some? then Count<SessionPeer>(t.readCountByPeer, SessionPeer(session, peer.value)) else Count<Session>(t.readCount, session);
    var unread := if read <= total then total - read else 0;
    if unread < limit then unread else limit
  }

  /** Two table reads give the exact number of unread messages, capped by the limit. */
  lemma UnreadExact(t: Tables, session: Session, peer: Option<Person>, limit: nat, last: nat)
    requires Valid(t) && IsLast(t.incoming, last)
    ensures CountUnread(t, session, peer, limit, last) ==
      if |Unread(t, session, peer)| < limit then |Unread(t, session, peer)| else limit
  {
    var all, marked, unread := Arrivals(t.incoming, peer), MarkedRead(t.incoming, t.read, session, peer), Unread(t, session, peer);
    assert all == marked + unread && marked !! unread;
    if peer.None? {
      LastIsCount(t.incoming, last);
      assert all == t.incoming.Keys;
      assert ReadCountAt(t.incoming, t.read, t.readCount, session);
    } else {
      assert ArrivalCountAt(t.incoming, t.countByPeer, peer.value);
      assert PeerReadCountAt(t.incoming, t.read, t.readCountByPeer, session, peer.value);
    }
  }

  // Marking messages read.

  datatype Marking = Marking(tables: Tables, added: bool)

  function MarkOne(t: Tables, session: Session, sequence: nat): Result<Marking> {
    if Marker(session, sequence) in t.read then Ok(Marking(t, false))
    else if sequence !in t.incoming || t.incoming[sequence] !in t.history then Err(DirectMessageInvalid)
    else
      var peer := SessionPeer(session, t.history[t.incoming[sequence]].sender);
      if Count<Session>(t.readCount, session) + 1 > U64_MAX || Count<SessionPeer>(t.readCountByPeer, peer) + 1 > U64_MAX then Err(Overflow)
      else Ok(Marking(t.(
        read := t.read + {Marker(session, sequence)},
        readCount := t.readCount[session := Count<Session>(t.readCount, session) + 1],
        readCountByPeer := t.readCountByPeer[peer := Count<SessionPeer>(t.readCountByPeer, peer) + 1]), true))
  }

  lemma MarkAdded(incoming: map<nat, MessageKey>, read: set<Marker>, m: Marker, session: Session, peer: Option<Person>)
    requires m !in read && m.sequence in incoming
    ensures MarkedRead(incoming, read + {m}, session, peer) ==
      if session == m.session && (peer.None? || incoming[m.sequence].sender == peer.value)
      then MarkedRead(incoming, read, session, peer) + {m.sequence}
      else MarkedRead(incoming, read, session, peer)
  {
  }

  lemma MarkCounts(incoming: map<nat, MessageKey>, read: set<Marker>, readCount: map<Session, nat>,
                   readCountByPeer: map<SessionPeer, nat>, m: Marker)
    requires ReadCounts(incoming, read, readCount, readCountByPeer) && m !in read && m.sequence in incoming
    ensures
      var peer := SessionPeer(m.session, incoming[m.sequence].sender);
      ReadCounts(incoming, read + {m}, readCount[m.session := Count<Session>(readCount, m.session) + 1],
        readCountByPeer[peer := Count<SessionPeer>(readCountByPeer, peer) + 1])
  {
    var peer := SessionPeer(m.session, incoming[m.sequence].sender);
    var counts := readCount[m.session := Count<Session>(readCount, m.session) + 1];
    forall s: Session ensures ReadCountAt(incoming, read + {m}, counts, s) {
      assert ReadCountAt(incoming, read, readCount, s);
      MarkAdded(incoming, read, m, s, None);
    }
    var byPeer := readCountByPeer[peer := Count<SessionPeer>(readCountByPeer, peer) + 1];
    forall s: Session, p: Person ensures PeerReadCountAt(incoming, read + {m}, byPeer, s, p) {
      assert PeerReadCountAt(incoming, read, readCountByPeer, s, p);
      MarkAdded(incoming, read, m, s, Some(p));
    }
  }

  lemma MarkRoom(incoming: map<nat, MessageKey>, read: set<Marker>, session: Session, sequence: nat,
                 peer: Option<Person>)
    requires |incoming| <= U64_MAX && Marker(session, sequence) !in read && sequence in incoming
    ensures |MarkedRead(incoming, read, session, peer)| < U64_MAX
  {
    Sums.SubsetCount(MarkedRead(incoming, read, session, peer) + {sequence}, incoming.Keys);
  }

  ghost predicate SameMessages(t: Tables, n: Tables) {
    n.self == t.self && n.history == t.history && n.incoming == t.incoming
  }

  /** A marker is refused exactly when nothing arrived under that sequence, and never counted twice. */
  lemma MarkKeeps(t: Tables, session: Session, sequence: nat)
    requires Valid(t)
    ensures MarkOne(t, session, sequence).Ok? <==> sequence in t.incoming
    ensures sequence in t.incoming ==>
      && Valid(MarkOne(t, session, sequence).value.tables)
      && SameMessages(t, MarkOne(t, session, sequence).value.tables)
      && MarkOne(t, session, sequence).value.tables.read == t.read + {Marker(session, sequence)}
      && (MarkOne(t, session, sequence).value.added <==> Marker(session, sequence) !in t.read)
    ensures sequence !in t.incoming ==> MarkOne(t, session, sequence) == Err(DirectMessageInvalid)
  {
    if sequence in t.incoming && Marker(session, sequence) !in t.read {
      var p := t.incoming[sequence].sender;
      assert PairedAt(t.incoming, t.incomingSequence, sequence, t.incoming[sequence]);
      assert AddressedAt(t.self, t.history, t.incomingSequence, t.incoming[sequence]);
      MarkRoom(t.incoming, t.read, session, sequence, None);
      MarkRoom(t.incoming, t.read, session, sequence, Some(p));
      assert ReadCountAt(t.incoming, t.read, t.readCount, session);
      assert PeerReadCountAt(t.incoming, t.read, t.readCountByPeer, session, p);
      MarkCounts(t.incoming, t.read, t.readCount, t.readCountByPeer, Marker(session, sequence));
    }
  }

  datatype Batch = Batch(tables: Tables, marked: nat)

  ghost function Markers(session: Session, sequences: seq<nat>): set<Marker> {
    set s | s in sequences :: Marker(session, s)
  }

  /** The markers of the first `i` sequences are set and counted once each. */
  ghost predicate BatchAt(t0: Tables, session: Session, sequences: seq<nat>, i: nat, b: Batch) {
    && i <= |sequences| && Valid(b.tables) && SameMessages(t0, b.tables)
    && b.tables.read == t0.read + Markers(session, sequences[..i])
    && |t0.read| + b.marked == |b.tables.read|
    && forall j | 0 <= j < i :: sequences[j] in t0.incoming
  }

  lemma MarkersNext(session: Session, sequences: seq<nat>, i: nat)
    requires i < |sequences|
    ensures Markers(session, sequences[..i + 1]) == Markers(session, sequences[..i]) + {Marker(session, sequences[i])}
  {
    assert sequences[..i + 1] == sequences[..i] + [sequences[i]];
  }

  lemma BatchNext(t0: Tables, session: Session, sequences: seq<nat>, i: nat, b: Batch)
    requires i < |sequences| && BatchAt(t0, session, sequences, i, b)
    ensures MarkOne(b.tables, session, sequences[i]).Ok? <==> sequences[i] in t0.incoming
    ensures sequences[i] in t0.incoming ==>
      var m := MarkOne(b.tables, session, sequences[i]).value;
      BatchAt(t0, session, sequences, i + 1, Batch(m.tables, if m.added then b.marked + 1 else b.marked))
    ensures sequences[i] !in t0.incoming ==> MarkOne(b.tables, session, sequences[i]) == Err(DirectMessageInvalid)
  {
    MarkKeeps(b.tables, session, sequences[i]);
    MarkersNext(session, sequences, i);
  }

  /** Mark the supplied arrivals in one transaction. */
  method MarkAll(t: Tables, session: Session, sequences: seq<nat>) returns (r: Result<Batch>)
    requires Valid(t)
    ensures r.Ok? ==> BatchAt(t, session, sequences, |sequences|, r.value)
    ensures r.Err? ==> r.error == DirectMessageInvalid && exists i :: 0 <= i < |sequences| && sequences[i] !in t.incoming
  {
    var b := Batch(t, 0);
    assert Markers(session, sequences[..0]) == {};
    for i := 0 to |sequences|
      invariant BatchAt(t, session, sequences, i, b)
    {
      BatchNext(t, session, sequences, i, b);
      var m := MarkOne(b.tables, session, sequences[i]);
      if m.Err? {
        return Err(m.error);
      }
      b := Batch(m.value.tables, if m.value.added then b.marked + 1 else b.marked);
    }
    return Ok(b);
  }

  // Rebuilding the arrival tables after a migration.

  /** The arrivals already numbered whose messages have been visited. */
  ghost function Visited(full: map<nat, MessageKey>, visited: set<MessageKey>): map<nat, MessageKey> {
    map s | s in full && full[s] in visited :: full[s]
  }

  ghost predicate SequencedAt(self: Person, history: map<MessageKey, Entry>, sequences: map<MessageKey, nat>,
                              visited: set<MessageKey>, k: MessageKey) {
    && (k in history ==> history[k].sender == k.sender)
    && (k in sequences ==> k in history && history[k].recipient == self)
    && (k in visited && k in history && history[k].recipient == self ==> k in sequences)
  }

  /** Only addressed messages are numbered, and every visited one is. */
  ghost predicate Sequenced(self: Person, history: map<MessageKey, Entry>, sequences: map<MessageKey, nat>,
                            visited: set<MessageKey>) {
    forall k: MessageKey :: SequencedAt(self, history, sequences, visited, k)
  }

  /**
   What a migration restores: the history, sequences that number some of it from one without
   a gap as `full` lists them, and read counters that are exact for those. Nothing is assumed
   of the four tables that are rebuilt.
   */
  ghost predicate Restored(t: Tables, full: map<nat, MessageKey>) {
    && Dense(full) && Paired(full, t.incomingSequence) && |t.history| <= U64_MAX
    && Sequenced(t.self, t.history, t.incomingSequence, {})
    && ReadCounts(full, t.read, t.readCount, t.readCountByPeer)
  }

  /** Numbering continues as `full` lists it. */
  ghost predicate Numbering(t: Tables, full: map<nat, MessageKey>, visited: set<MessageKey>) {
    && Dense(full) && Paired(full, t.incomingSequence) && |t.history| <= U64_MAX
    && Sequenced(t.self, t.history, t.incomingSequence, visited)
    && ReadCounts(full, t.read, t.readCount, t.readCountByPeer)
  }

  /** The refilled tables hold the visited arrivals. */
  ghost predicate Refilled(t: Tables, full: map<nat, MessageKey>, visited: set<MessageKey>) {
    && t.incoming == Visited(full, visited)
    && ListedByPeer(t.incoming, t.incomingByPeer) && ArrivalCounts(t.incoming, t.countByPeer)
  }

  /** The loop has visited some of the history. */
  ghost predicate Rebuilding(t: Tables, full: map<nat, MessageKey>, visited: set<MessageKey>) {
    Numbering(t, full, visited) && Refilled(t, full, visited)
  }

  lemma VisitKnown(full: map<nat, MessageKey>, sequences: map<MessageKey, nat>, visited: set<MessageKey>, k: MessageKey)
    requires Paired(full, sequences) && k in sequences && k !in visited
    ensures sequences[k] !in Visited(full, visited)
    ensures Visited(full, visited + {k}) == Visited(full, visited)[sequences[k] := k]
  {
    assert PairedAt(full, sequences, sequences[k], k);
    forall s: nat | s in full && full[s] == k ensures s == sequences[k] {
      assert PairedAt(full, sequences, s, k);
    }
  }

  lemma VisitForeign(full: map<nat, MessageKey>, sequences: map<MessageKey, nat>, visited: set<MessageKey>,
                     k: MessageKey)
    requires Paired(full, sequences) && k !in sequences
    ensures Visited(full, visited + {k}) == Visited(full, visited)
  {
    forall s: nat | s in full ensures full[s] != k {
      assert PairedAt(full, sequences, s, full[s]);
    }
  }

  lemma VisitNew(full: map<nat, MessageKey>, visited: set<MessageKey>, k: MessageKey, n: nat)
    requires n !in full && k !in visited
    ensures Visited(full[n := k], visited) == Visited(full, visited)
  {
  }

  lemma SequencedVisit(self: Person, history: map<MessageKey, Entry>, sequences: map<MessageKey, nat>,
                       visited: set<MessageKey>, key: MessageKey)
    requires Sequenced(self, history, sequences, visited)
    requires key in history && history[key].recipient == self ==> key in sequences
    ensures Sequenced(self, history, sequences, visited + {key})
  {
    var next := visited + {key};
    forall k: MessageKey ensures SequencedAt(self, history, sequences, next, k) {
      assert SequencedAt(self, history, sequences, visited, k);
    }
  }

  lemma SequencedNew(self: Person, history: map<MessageKey, Entry>, sequences: map<MessageKey, nat>,
                     visited: set<MessageKey>, key: MessageKey, n: nat)
    requires Sequenced(self, history, sequences, visited) && key in history && history[key].recipient == self
    ensures Sequenced(self, history, sequences[key := n], visited)
  {
    var next := sequences[key := n];
    forall k: MessageKey ensures SequencedAt(self, history, next, visited, k) {
      assert SequencedAt(self, history, sequences, visited, k);
    }
  }

  ghost function AnyKey<K, V>(m: map<K, V>): (k: K)
    requires m != map[]
    ensures k in m
  {
    var k :| k in m; k
  }

  /** Inverse tables have equally many rows. */
  lemma {:induction false} PairedCount(full: map<nat, MessageKey>, sequences: map<MessageKey, nat>)
    requires Paired(full, sequences)
    ensures |full| == |sequences|
    decreases |sequences|
  {
    if sequences != map[] {
      var k := AnyKey(sequences);
      var n := sequences[k];
      assert PairedAt(full, sequences, n, k);
      var less, fewer := full - {n}, sequences - {k};
      forall s: nat, j: MessageKey ensures PairedAt(less, fewer, s, j) {
        assert PairedAt(full, sequences, s, j) && PairedAt(full, sequences, n, j) && PairedAt(full, sequences, s, k);
      }
      assert less.Keys == full.Keys - {n} && fewer.Keys == sequences.Keys - {k};
      PairedCount(less, fewer);
    } else {
      assert forall n: nat | n in full :: PairedAt(full, sequences, n, full[n]);
    }
  }

  lemma NumbersFit(t: Tables, full: map<nat, MessageKey>, visited: set<MessageKey>)
    requires Numbering(t, full, visited)
    ensures |full| <= U64_MAX
  {
    PairedCount(full, t.incomingSequence);
    forall j | j in t.incomingSequence ensures j in t.history {
      assert SequencedAt(t.self, t.history, t.incomingSequence, visited, j);
    }
    Sums.SubsetCount(t.incomingSequence.Keys, t.history.Keys);
  }

  /** There is always a number left for a message that has none. */
  lemma NumbersRemain(t: Tables, full: map<nat, MessageKey>, visited: set<MessageKey>, k: MessageKey)
    requires Rebuilding(t, full, visited) && k in t.history && k !in t.incomingSequence
    ensures |full| < U64_MAX
  {
    PairedCount(full, t.incomingSequence);
    forall j | j in t.incomingSequence ensures j in t.history {
      assert SequencedAt(t.self, t.history, t.incomingSequence, visited, j);
    }
    Sums.SubsetCount(t.incomingSequence.Keys + {k}, t.history.Keys);
  }

  lemma AllVisited(t: Tables, full: map<nat, MessageKey>, visited: set<MessageKey>)
    requires Rebuilding(t, full, visited) && visited == t.history.Keys
    ensures Valid(t)
  {
    forall s: nat | s in full ensures full[s] in visited {
      assert PairedAt(full, t.incomingSequence, s, full[s]);
      assert SequencedAt(t.self, t.history, t.incomingSequence, visited, full[s]);
    }
    assert t.incoming == full;
    forall k: MessageKey ensures AddressedAt(t.self, t.history, t.incomingSequence, k) {
      assert SequencedAt(t.self, t.history, t.incomingSequence, visited, k);
    }
    PairedCount(full, t.incomingSequence);
    forall j | j in t.incomingSequence ensures j in t.history {
      assert SequencedAt(t.self, t.history, t.incomingSequence, visited, j);
    }
    Sums.SubsetCount(t.incomingSequence.Keys, t.history.Keys);
  }

  lemma RebuildForeign(t: Tables, full: map<nat, MessageKey>, visited: set<MessageKey>, k: MessageKey)
    requires Rebuilding(t, full, visited) && k in t.history && t.history[k].recipient != t.self
    ensures Rebuilding(t, full, visited + {k})
  {
    assert SequencedAt(t.self, t.history, t.incomingSequence, visited, k);
    VisitForeign(full, t.incomingSequence, visited, k);
    SequencedVisit(t.self, t.history, t.incomingSequence, visited, k);
  }

  lemma RefillKnown(t: Tables, full: map<nat, MessageKey>, visited: set<MessageKey>, k: MessageKey)
    requires Refilled(t, full, visited) && Paired(full, t.incomingSequence) && k !in visited && k in t.incomingSequence
    ensures Refilled(Arrived(t, k, t.incomingSequence[k]), full, visited + {k})
  {
    var n := t.incomingSequence[k];
    VisitKnown(full, t.incomingSequence, visited, k);
    ListedArrival(t.incoming, t.incomingByPeer, k, n);
    CountedArrival(t.incoming, t.countByPeer, k, n);
  }

  /** A message that has a number keeps it. */
  lemma RebuildKnown(t: Tables, full: map<nat, MessageKey>, visited: set<MessageKey>, k: MessageKey)
    requires Rebuilding(t, full, visited) && k !in visited && k in t.incomingSequence
    ensures Rebuilding(Arrived(t, k, t.incomingSequence[k]), full, visited + {k})
  {
    RefillKnown(t, full, visited, k);
    SequencedVisit(t.self, t.history, t.incomingSequence, visited, k);
    assert t.incomingSequence[k := t.incomingSequence[k]] == t.incomingSequence;
  }

  /** A message without a number takes the next one. */
  lemma RebuildNumbered(t: Tables, full: map<nat, MessageKey>, visited: set<MessageKey>, k: MessageKey)
    requires Rebuilding(t, full, visited) && k !in visited && k !in t.incomingSequence
    requires k in t.history && t.history[k].recipient == t.self
    ensures Rebuilding(t.(incomingSequence := t.incomingSequence[k := |full| + 1]), full[|full| + 1 := k], visited)
  {
    DenseNext(full, k);
    PairedArrival(full, t.incomingSequence, k, |full| + 1);
    SequencedNew(t.self, t.history, t.incomingSequence, visited, k, |full| + 1);
    ArrivalReadCounts(full, k, |full| + 1, t.read, t.readCount, t.readCountByPeer);
    VisitNew(full, visited, k, |full| + 1);
  }

  lemma ArrivedAgain(t: Tables, k: MessageKey, n: nat)
    ensures Arrived(t.(incomingSequence := t.incomingSequence[k := n]), k, n) == Arrived(t, k, n)
  {
    assert t.incomingSequence[k := n][k := n] == t.incomingSequence[k := n];
  }

  lemma RebuildNew(t: Tables, full: map<nat, MessageKey>, visited: set<MessageKey>, k: MessageKey)
    requires Rebuilding(t, full, visited) && k !in visited && k !in t.incomingSequence
    requires k in t.history && t.history[k].recipient == t.self
    ensures Rebuilding(Arrived(t, k, |full| + 1), full[|full| + 1 := k], visited + {k})
  {
    RebuildNumbered(t, full, visited, k);
    ArrivedAgain(t, k, |full| + 1);
    RebuildKnown(t.(incomingSequence := t.incomingSequence[k := |full| + 1]), full[|full| + 1 := k], visited, k);
  }

  function Saturating(n: nat): nat {
    if n < U64_MAX then n + 1 else U64_MAX
  }

  /** The largest number in use, or zero. */
  method LargestSequence(sequences: map<MessageKey, nat>) returns (largest: nat)
    ensures forall k | k in sequences :: sequences[k] <= largest
    ensures largest == 0 || exists k :: k in sequences && sequences[k] == largest
  {
    largest := 0;
    var rest := sequences.Keys;
    while rest != {}
      invariant rest <= sequences.Keys
      invariant forall k | k in sequences && k !in rest :: sequences[k] <= largest
      invariant largest == 0 || exists k :: k in sequences && sequences[k] == largest
    {
      var k := Any(rest);
      rest := rest - {k};
      if largest < sequences[k] {
        largest := sequences[k];
      }
    }
  }

  lemma LargestIsCount(full: map<nat, MessageKey>, sequences: map<MessageKey, nat>, largest: nat)
    requires Dense(full) && Paired(full, sequences)
    requires forall k | k in sequences :: sequences[k] <= largest
    requires largest == 0 || exists k :: k in sequences && sequences[k] == largest
    ensures largest == |full|
  {
    assert DenseAt(full, |full|) && DenseAt(full, largest);
    assert |full| in full ==> PairedAt(full, sequences, |full|, full[|full|]);
    if largest != 0 {
      var k :| k in sequences && sequences[k] == largest;
      assert PairedAt(full, sequences, largest, k);
    }
  }

  lemma RebuildStarts(t: Tables, full: map<nat, MessageKey>)
    requires Restored(t, full)
    ensures Rebuilding(t.(incoming := map[], incomingByPeer := map[], countByPeer := map[]), full, {})
    ensures Paired(full, t.incomingSequence) && Dense(full)
  {
    var t0 := t.(incoming := map[], incomingByPeer := map[], countByPeer := map[]);
    forall row: PeerSequence, k: MessageKey ensures ListedAt(t0.incoming, t0.incomingByPeer, row, k) {
    }
    forall p: Person ensures ArrivalCountAt(t0.incoming, t0.countByPeer, p) {
      assert Arrivals(t0.incoming, Some(p)) == {};
    }
  }

  ghost predicate KeepsNumber(before: map<MessageKey, nat>, after: map<MessageKey, nat>, k: MessageKey) {
    k in before ==> k in after && after[k] == before[k]
  }

  /** What a rebuild must not touch: the messages, the markers, and every number already given. */
  ghost predicate Preserved(t: Tables, n: Tables) {
    && n.self == t.self && n.history == t.history && n.read == t.read
    && n.readCount == t.readCount && n.readCountByPeer == t.readCountByPeer
    && forall k: MessageKey :: KeepsNumber(t.incomingSequence, n.incomingSequence, k)
  }

  lemma PreservedOn(t: Tables, m: Tables, n: Tables)
    requires Preserved(t, m) && Preserved(m, n)
    ensures Preserved(t, n)
  {
    forall k: MessageKey ensures KeepsNumber(t.incomingSequence, n.incomingSequence, k) {
      assert KeepsNumber(t.incomingSequence, m.incomingSequence, k) && KeepsNumber(m.incomingSequence, n.incomingSequence, k);
    }
  }

  lemma ArrivedPreserves(t: Tables, k: MessageKey, s: nat)
    requires k in t.incomingSequence ==> t.incomingSequence[k] == s
    ensures Preserved(t, Arrived(t, k, s))
  {
  }

  /** The running counter: one past the numbers in use, saturating. */
  ghost predicate IsCounter(full: map<nat, MessageKey>, next: nat) {
    next == if |full| < U64_MAX then |full| + 1 else U64_MAX
  }

  /** One addressed message: keep its number or take the next one. */
  method VisitEntry(t: Tables, k: MessageKey, next: nat, ghost full: map<nat, MessageKey>,
                    ghost visited: set<MessageKey>)
    returns (n: Tables, after: nat, ghost all: map<nat, MessageKey>)
    requires Rebuilding(t, full, visited) && k in t.history && k !in visited && t.history[k].recipient == t.self
    requires IsCounter(full, next)
    ensures Rebuilding(n, all, visited + {k}) && Preserved(t, n)
    ensures IsCounter(all, after)
  {
    if k in t.incomingSequence {
      RebuildKnown(t, full, visited, k);
      ArrivedPreserves(t, k, t.incomingSequence[k]);
      n, after, all := Arrived(t, k, t.incomingSequence[k]), next, full;
    } else {
      NumbersRemain(t, full, visited, k);
      RebuildNew(t, full, visited, k);
      DenseNext(full, k);
      ArrivedPreserves(t, k, next);
      n, after, all := Arrived(t, k, next), Saturating(next), full[|full| + 1 := k];
    }
  }

  ghost predicate RefillAt(t: Tables, n: Tables, full: map<nat, MessageKey>, visited: set<MessageKey>,
                           rest: set<MessageKey>, next: nat) {
    && Rebuilding(n, full, visited) && Preserved(t, n) && IsCounter(full, next)
    && visited + rest == t.history.Keys && visited !! rest
  }

  /** There is always room to count one more arrival of a peer. */
  lemma CountFits(t: Tables, full: map<nat, MessageKey>, visited: set<MessageKey>, k: MessageKey)
    requires Rebuilding(t, full, visited) && k in t.history && k !in visited
    ensures Count<Person>(t.countByPeer, k.sender) + 1 <= U64_MAX
  {
    var arrived := Arrivals(t.incoming, Some(k.sender));
    assert ArrivalCountAt(t.incoming, t.countByPeer, k.sender);
    if k in t.incomingSequence {
      VisitKnown(full, t.incomingSequence, visited, k);
      assert PairedAt(full, t.incomingSequence, t.incomingSequence[k], k);
      Sums.SubsetCount(arrived + {t.incomingSequence[k]}, full.Keys);
      NumbersFit(t, full, visited);
    } else {
      Sums.SubsetCount(arrived, full.Keys);
      NumbersRemain(t, full, visited, k);
    }
  }

  /** Visit one message; only those addressed to this account are numbered and counted. */
  method RefillEntry(t: Tables, m: Tables, k: MessageKey, next: nat, ghost full: map<nat, MessageKey>,
                     ghost visited: set<MessageKey>, ghost rest: set<MessageKey>)
    returns (n: Tables, after: nat, ghost all: map<nat, MessageKey>)
    requires RefillAt(t, m, full, visited, rest, next) && k in rest
    ensures RefillAt(t, n, all, visited + {k}, rest - {k}, after)
  {
    n, after, all := m, next, full;
    if m.history[k].recipient != m.self {
      RebuildForeign(m, full, visited, k);
    } else {
      CountFits(m, full, visited, k);
      assert Count<Person>(m.countByPeer, k.sender) + 1 <= U64_MAX;
      n, after, all := VisitEntry(m, k, next, full, visited);
      PreservedOn(t, m, n);
    }
  }

  lemma RefillDone(t: Tables, n: Tables, full: map<nat, MessageKey>, visited: set<MessageKey>, next: nat)
    requires RefillAt(t, n, full, visited, {}, next)
    ensures Valid(n) && Preserved(t, n)
  {
    AllVisited(n, full, visited);
  }

  /** Number and count every retained message addressed to this account. */
  method Refill(t: Tables, first: nat, ghost full0: map<nat, MessageKey>) returns (n: Tables)
    requires Rebuilding(t, full0, {}) && IsCounter(full0, first)
    ensures Valid(n) && Preserved(t, n)
  {
    var next: nat, rest := first, t.history.Keys;
    n := t;
    ghost var full: map<nat, MessageKey> := full0;
    ghost var visited: set<MessageKey> := {};
    while rest != {}
      invariant RefillAt(t, n, full, visited, rest, next)
      decreases rest
    {
      var k := Any(rest);
      n, next, full := RefillEntry(t, n, k, next, full, visited, rest);
      visited, rest := visited + {k}, rest - {k};
    }
    RefillDone(t, n, full, visited, next);
  }

  /** Clear the arrival tables and refill them from the history, whatever the table order. */
  method RebuildHistoryIndex(t: Tables, ghost full0: map<nat, MessageKey>) returns (r: Result<Tables>)
    requires Restored(t, full0)
    ensures r.Ok? ==> Valid(r.value) && Preserved(t, r.value)
    ensures r.Err? <==> |full0| == U64_MAX
    ensures r.Err? ==> r.error == Overflow
  {
    var n := t.(incoming := map[], incomingByPeer := map[], countByPeer := map[]);
    RebuildStarts(t, full0);
    var largest := LargestSequence(n.incomingSequence);
    LargestIsCount(full0, n.incomingSequence, largest);
    NumbersFit(n, full0, {});
    if largest + 1 > U64_MAX {
      return Err(Overflow);
    }
    n := Refill(n, largest + 1, full0);
    return Ok(n);
  }

  lemma PairedUnique(a: map<nat, MessageKey>, b: map<nat, MessageKey>, sequences: map<MessageKey, nat>)
    requires Paired(a, sequences) && Paired(b, sequences)
    ensures a == b
  {
    forall s: nat ensures s in a <==> s in b {
      if s in a {
        assert PairedAt(a, sequences, s, a[s]) && PairedAt(b, sequences, s, a[s]);
      }
      if s in b {
        assert PairedAt(a, sequences, s, b[s]) && PairedAt(b, sequences, s, b[s]);
      }
    }
    forall s: nat | s in a ensures a[s] == b[s] {
      assert PairedAt(a, sequences, s, a[s]) && PairedAt(b, sequences, s, a[s]);
    }
  }

  lemma ListedUnique(incoming: map<nat, MessageKey>, a: map<PeerSequence, MessageKey>, b: map<PeerSequence, MessageKey>)
    requires ListedByPeer(incoming, a) && ListedByPeer(incoming, b)
    ensures a == b
  {
    forall row: PeerSequence ensures row in a <==> row in b {
      if row in a {
        assert ListedAt(incoming, a, row, a[row]) && ListedAt(incoming, b, row, a[row]);
      }
      if row in b {
        assert ListedAt(incoming, a, row, b[row]) && ListedAt(incoming, b, row, b[row]);
      }
    }
    forall row: PeerSequence | row in a ensures a[row] == b[row] {
      assert ListedAt(incoming, a, row, a[row]) && ListedAt(incoming, b, row, a[row]);
    }
  }

  /** On tables that are already consistent, a rebuild reproduces every row and count. */
  lemma RebuildReproduces(t: Tables, n: Tables)
    requires Valid(t) && Valid(n) && Preserved(t, n)
    ensures n.incomingSequence == t.incomingSequence && n.incoming == t.incoming && n.incomingByPeer == t.incomingByPeer
    ensures forall p: Person :: Count<Person>(n.countByPeer, p) == Count<Person>(t.countByPeer, p)
  {
    forall k: MessageKey ensures k in n.incomingSequence <==> k in t.incomingSequence {
      assert AddressedAt(t.self, t.history, t.incomingSequence, k) && AddressedAt(n.self, n.history, n.incomingSequence, k);
      assert KeepsNumber(t.incomingSequence, n.incomingSequence, k);
    }
    forall k | k in t.incomingSequence ensures n.incomingSequence[k] == t.incomingSequence[k] {
      assert KeepsNumber(t.incomingSequence, n.incomingSequence, k);
    }
    assert n.incomingSequence == t.incomingSequence;
    PairedUnique(n.incoming, t.incoming, t.incomingSequence);
    ListedUnique(t.incoming, n.incomingByPeer, t.incomingByPeer);
    forall p: Person ensures Count<Person>(n.countByPeer, p) == Count<Person>(t.countByPeer, p) {
      assert ArrivalCountAt(t.incoming, t.countByPeer, p) && ArrivalCountAt(n.incoming, n.countByPeer, p);
    }
  }

  /** The first delivery of a message to this account. */
  predicate IsArrival(t: Tables, body: Body) {
    MessageKey(body.sender, body.message) !in t.history && body.recipient == t.self
  }

  /** A first delivery to this account is numbered next; anything else numbers nothing. */
  ghost function NextArrivals(t: Tables, body: Body, next: nat): map<nat, MessageKey> {
    if IsArrival(t, body) then t.incoming[next := MessageKey(body.sender, body.message)] else t.incoming
  }

  ghost predicate EntryAfter(before: map<MessageKey, Entry>, after: map<MessageKey, Entry>, body: Body, event: nat,
                             timestamp: nat, k: MessageKey) {
    if k != MessageKey(body.sender, body.message) then (k in after <==> k in before) && (k in before ==> after[k] == before[k])
    else k in after && if k in before
      then after[k] == before[k].(conflicted := before[k].conflicted || !(before[k].recipient == body.recipient && before[k].text == body.text))
      else after[k] == Entry(body.sender, body.recipient, body.text, event, timestamp, false)
  }

  /** The first body delivered under an identifier is kept; a different one only flags the conflict. */
  ghost predicate HistoryAfter(before: map<MessageKey, Entry>, after: map<MessageKey, Entry>, body: Body, event: nat,
                               timestamp: nat) {
    forall k: MessageKey :: EntryAfter(before, after, body, event, timestamp, k)
  }

  /** The three successful outcomes. */
  lemma StoreCases(t: Tables, body: Body, event: nat, timestamp: nat, last: nat)
    requires StoreHistory(t, body, event, timestamp, last).Ok?
    ensures
      var key, n := MessageKey(body.sender, body.message), StoreHistory(t, body, event, timestamp, last).value;
      || (key in t.history && n == if Differs(t.history[key], body) then Flagged(t, key) else t)
      || (key !in t.history && n == if body.recipient == t.self then Arrived(Recorded(t, body, event, timestamp), key, last + 1)
                                    else Recorded(t, body, event, timestamp))
  {
  }

  lemma StoreArrivals(t: Tables, body: Body, event: nat, timestamp: nat, last: nat)
    requires StoreHistory(t, body, event, timestamp, last).Ok?
    ensures StoreHistory(t, body, event, timestamp, last).value.incoming == NextArrivals(t, body, last + 1)
  {
    var key := MessageKey(body.sender, body.message);
    StoreCases(t, body, event, timestamp, last);
    if key !in t.history {
      assert Recorded(t, body, event, timestamp).incoming == t.incoming;
      assert Arrived(Recorded(t, body, event, timestamp), key, last + 1).incoming == t.incoming[last + 1 := key];
    } else {
      assert Flagged(t, key).incoming == t.incoming;
    }
  }

  lemma RecordedEntries(t: Tables, body: Body, event: nat, timestamp: nat)
    requires MessageKey(body.sender, body.message) !in t.history
    ensures HistoryAfter(t.history, Recorded(t, body, event, timestamp).history, body, event, timestamp)
  {
    var after := Recorded(t, body, event, timestamp).history;
    forall k: MessageKey ensures EntryAfter(t.history, after, body, event, timestamp, k) {
    }
  }

  lemma RepeatedEntries(t: Tables, body: Body, event: nat, timestamp: nat)
    requires MessageKey(body.sender, body.message) in t.history
    ensures Differs(t.history[MessageKey(body.sender, body.message)], body) ==>
      HistoryAfter(t.history, Flagged(t, MessageKey(body.sender, body.message)).history, body, event, timestamp)
    ensures !Differs(t.history[MessageKey(body.sender, body.message)], body) ==> HistoryAfter(t.history, t.history, body, event, timestamp)
  {
  }

  lemma StoredEntries(t: Tables, body: Body, event: nat, timestamp: nat, last: nat)
    requires StoreHistory(t, body, event, timestamp, last).Ok?
    ensures HistoryAfter(t.history, StoreHistory(t, body, event, timestamp, last).value.history, body, event, timestamp)
  {
    var key := MessageKey(body.sender, body.message);
    StoreCases(t, body, event, timestamp, last);
    if key !in t.history {
      RecordedEntries(t, body, event, timestamp);
      assert Arrived(Recorded(t, body, event, timestamp), key, last + 1).history == Recorded(t, body, event, timestamp).history;
    } else {
      RepeatedEntries(t, body, event, timestamp);
    }
  }

  /** A message is refused exactly when it would be numbered and no sequence is left. */
  lemma StoreRefused(t: Tables, body: Body, event: nat, timestamp: nat, last: nat)
    requires ArrivalsExact(t) && IsLast(t.incoming, last)
    ensures StoreHistory(t, body, event, timestamp, last).Err? <==> IsArrival(t, body) && U64_MAX <= |t.incoming|
    ensures StoreHistory(t, body, event, timestamp, last).Err? ==> StoreHistory(t, body, event, timestamp, last).error == Overflow
  {
    assert ArrivalsExact(Recorded(t, body, event, timestamp));
    ArriveSucceeds(Recorded(t, body, event, timestamp), MessageKey(body.sender, body.message), last);
  }

  function Supplied(sequences: seq<nat>): seq<nat> {
    if |sequences| <= 100 then sequences else sequences[..100]
  }

  /** `last()` of the arrival table. */
  method LastSequence(incoming: map<nat, MessageKey>) returns (last: nat)
    ensures IsLast(incoming, last)
  {
    last := 0;
    var rest := incoming.Keys;
    while rest != {}
      invariant rest <= incoming.Keys
      invariant forall s | s in incoming && s !in rest :: s <= last
      invariant last in incoming || (last == 0 && rest == incoming.Keys)
    {
      var s := Any(rest);
      if last < s || last !in incoming {
        last := s;
      }
      rest := rest - {s};
    }
  }

  lemma EmptyValid(t: Tables)
    requires t == Tables(t.self, map[], map[], map[], map[], map[], {}, map[], map[])
    ensures Valid(t)
  {
    forall p: Person ensures ArrivalCountAt(t.incoming, t.countByPeer, p) {
      assert Arrivals(t.incoming, Some(p)) == {};
    }
    forall s: Session ensures ReadCountAt(t.incoming, t.read, t.readCount, s) {
      assert MarkedRead(t.incoming, t.read, s, None) == {};
    }
    forall s: Session, p: Person ensures PeerReadCountAt(t.incoming, t.read, t.readCountByPeer, s, p) {
      assert MarkedRead(t.incoming, t.read, s, Some(p)) == {};
    }
  }

  lemma ValidRestored(t: Tables)
    requires Valid(t) && |t.history| <= U64_MAX
    ensures Restored(t, t.incoming)
  {
    forall k: MessageKey ensures SequencedAt(t.self, t.history, t.incomingSequence, {}, k) {
      assert AddressedAt(t.self, t.history, t.incomingSequence, k);
    }
  }

  class DirectMessages {
    var tables: Tables

    ghost predicate Sound()
      reads this
    {
      Valid(tables)
    }

    constructor (self: Person)
      ensures Sound() && tables.self == self && tables.history == map[] && tables.read == {}
    {
      tables := Tables(self, map[], map[], map[], map[], map[], {}, map[], map[]);
      new;
      EmptyValid(tables);
    }

    /** Commit one decrypted or locally written message; an error leaves nothing behind. */
    method Store(body: Body, event: nat, timestamp: nat) returns (error: Option<DbError>)
      requires Sound()
      modifies this
      ensures Sound()
      ensures error.Some? <==> IsArrival(old(tables), body) && U64_MAX <= |old(tables).incoming|
      ensures error.Some? ==> tables == old(tables) && error.value == Overflow
      ensures error.None? ==>
        && tables.read == old(tables).read
        && tables.incoming == NextArrivals(old(tables), body, |old(tables).incoming| + 1)
      ensures tables.self == old(tables).self
      ensures error.None? ==> HistoryAfter(old(tables).history, tables.history, body, event, timestamp)
    {
      var last := LastSequence(tables.incoming);
      StoreKeeps(tables, body, event, timestamp, last);
      var r := StoreHistory(tables, body, event, timestamp, last);
      StoreRefused(tables, body, event, timestamp, last);
      if r.Err? {
        return Some(r.error);
      }
      LastIsCount(tables.incoming, last);
      StoreArrivals(tables, body, event, timestamp, last);
      StoredEntries(tables, body, event, timestamp, last);
      tables := r.value;
      return None;
    }

    /** Mark at most a hundred arrivals read, all or none of them. */
    method MarkRead(session: Session, sequences: seq<nat>) returns (r: Result<nat>)
      requires Sound()
      modifies this
      ensures Sound() && SameMessages(old(tables), tables)
      ensures r.Ok? <==> forall i | 0 <= i < |sequences| && i < 100 :: sequences[i] in tables.incoming
      ensures r.Err? ==> r.error == DirectMessageInvalid && tables == old(tables)
      ensures r.Ok? ==>
        && (forall m: Marker :: m in tables.read <==>
             m in old(tables).read || (m.session == session && exists i :: 0 <= i < |sequences| && i < 100 && sequences[i] == m.sequence))
        && |old(tables).read| + r.value == |tables.read|
    {
      var m := MarkAll(tables, session, Supplied(sequences));
      assert Supplied(sequences)[..|Supplied(sequences)|] == Supplied(sequences);
      if m.Err? {
        return Err(m.error);
      }
      tables := m.value.tables;
      return Ok(m.value.marked);
    }

    /** The unread count shown to a session is exact up to the limit. */
    method UnreadCount(session: Session, peer: Option<Person>, limit: nat) returns (n: nat)
      requires Sound()
      ensures n == if |Unread(tables, session, peer)| < limit then |Unread(tables, session, peer)| else limit
    {
      var last := LastSequence(tables.incoming);
      UnreadExact(tables, session, peer, limit, last);
      n := CountUnread(tables, session, peer, limit, last);
    }

    /** Rebuild in place; on consistent tables this changes no sequence, marker or count. */
    method Rebuild() returns (error: Option<DbError>)
      requires Sound() && |tables.history| <= U64_MAX
      modifies this
      ensures Sound()
      ensures error.Some? <==> |old(tables).incoming| == U64_MAX
      ensures error.Some? ==> tables == old(tables) && error.value == Overflow
      ensures tables.self == old(tables).self && tables.history == old(tables).history
      ensures error.None? ==>
        && tables.incomingSequence == old(tables).incomingSequence && tables.incoming == old(tables).incoming
        && tables.read == old(tables).read
        && tables.readCount == old(tables).readCount && tables.readCountByPeer == old(tables).readCountByPeer
        && forall p: Person :: Count<Person>(tables.countByPeer, p) == Count<Person>(old(tables).countByPeer, p)
    {
      ValidRestored(tables);
      var r := RebuildHistoryIndex(tables, tables.incoming);
      if r.Err? {
        return Some(r.error);
      }
      RebuildReproduces(tables, r.value);
      tables := r.value;
      return None;
    }
  }
}
