/**
 Payload lifecycle tables, the contribution of one event to the payload totals,
 and the totals themselves as sums over a set of events.

 Event IDs, content hashes and authors are ordered byte strings in the store;
 here they are naturals with the same order.
 */
module PayloadTables {
  import opened Wrappers
  import opened Sums

  type EventId = nat
  type Hash = nat
  type Author = nat

  /** The signed envelope; retained forever once inserted. */
  datatype Header = Header(author: Author, hash: Hash, len: nat, social: bool)

  /** An event without a state row is Processed. */
  datatype ContentState = Missing | Invalid | Pruned | Deleted

  /** Tables written by the ingestion reducers. */
  datatype Lifecycle = Lifecycle(
    events: map<EventId, Header>,
    states: map<EventId, ContentState>,
    store: map<Hash, int>,
    rc: map<Hash, int>,
    usage: map<Author, int>,
    tombstones: set<(Author, EventId)>,
    quotaPruned: set<EventId>)

  /** What one retained event adds to the totals. */
  datatype Contribution = Contribution(
    author: Author,
    hash: Hash,
    referenced: bool,
    logical: nat,
    protected: bool)

  predicate Processed(l: Lifecycle, id: EventId) {
    id in l.events && id !in l.states
  }

  /** The stored value has the length the envelope signed. */
  predicate WellStored(l: Lifecycle, header: Header) {
    header.hash in l.store && l.store[header.hash] == header.len
  }

  function ContributionOf(self: Author, header: Header, state: Option<ContentState>): (c: Contribution) {
    Contribution(
      header.author,
      header.hash,
      state.None? || state.value.Missing?,
      if state.None? then header.len else 0,
      header.author == self || !header.social)
  }

  function StateOf(l: Lifecycle, id: EventId): Option<ContentState> {
    if id in l.states then Some(l.states[id]) else None
  }

  /** The contribution of every retained event. */
  ghost function All(self: Author, l: Lifecycle): map<EventId, Contribution> {
    map id | id in l.events :: ContributionOf(self, l.events[id], StateOf(l, id))
  }

  // Totals over a set of contributions.

  ghost function Logicals(cs: map<EventId, Contribution>): map<EventId, int> {
    map id | id in cs :: cs[id].logical
  }

  ghost function LogicalsOf(cs: map<EventId, Contribution>, a: Author): map<EventId, int> {
    map id | id in cs && cs[id].author == a :: cs[id].logical
  }

  ghost function References(cs: map<EventId, Contribution>, h: Hash): set<EventId> {
    set id | id in cs && cs[id].hash == h && cs[id].referenced
  }

  ghost predicate ProtectedBy(cs: map<EventId, Contribution>, h: Hash) {
    exists id :: id in cs && cs[id].hash == h && cs[id].protected
  }

  ghost predicate HasAuthor(cs: map<EventId, Contribution>, a: Author) {
    exists id :: id in cs && cs[id].author == a
  }

  lemma LogicalsNonNegative(cs: map<EventId, Contribution>, a: Author)
    ensures NonNegative(Logicals(cs)) && NonNegative(LogicalsOf(cs, a))
    ensures 0 <= Sum(LogicalsOf(cs, a)) <= Sum(Logicals(cs))
  {
    SumNonNegative(LogicalsOf(cs, a));
    SumMonotone(LogicalsOf(cs, a), Logicals(cs));
  }

  lemma LogicalUpdate(cs: map<EventId, Contribution>, id: EventId, c: Contribution)
    ensures Sum(Logicals(cs[id := c])) ==
      Sum(Logicals(cs)) - (if id in cs then cs[id].logical else 0) + c.logical
  {
    SumUpdate(Logicals(cs), id, c.logical);
    assert Logicals(cs[id := c]) == Logicals(cs)[id := c.logical];
  }

  /** Only the author of a changed contribution sees a different sum, by the difference. */
  lemma AuthorLogicalUpdate(cs: map<EventId, Contribution>, id: EventId, c: Contribution)
    requires id in cs ==> cs[id].author == c.author
    ensures var before := if id in cs then cs[id].logical else 0;
      forall a: Author :: Sum(LogicalsOf(cs[id := c], a)) ==
        Sum(LogicalsOf(cs, a)) + (if a == c.author then c.logical - before else 0)
  {
    forall a: Author
      ensures Sum(LogicalsOf(cs[id := c], a)) == Sum(LogicalsOf(cs, a)) +
        (if a == c.author then c.logical - (if id in cs then cs[id].logical else 0) else 0)
    {
      if a == c.author {
        SumUpdate(LogicalsOf(cs, a), id, c.logical);
        assert LogicalsOf(cs[id := c], a) == LogicalsOf(cs, a)[id := c.logical];
      } else {
        assert LogicalsOf(cs[id := c], a) == LogicalsOf(cs, a);
      }
    }
  }

  ghost function Bit(b: bool): int { if b then 1 else 0 }

  /** Only the hash of a changed contribution sees a different reference count. */
  lemma ReferenceUpdate(cs: map<EventId, Contribution>, id: EventId, c: Contribution)
    requires id in cs ==> cs[id].hash == c.hash
    ensures var before := id in cs && cs[id].referenced;
      forall h: Hash :: |References(cs[id := c], h)| ==
        |References(cs, h)| + (if h == c.hash then Bit(c.referenced) - Bit(before) else 0)
  {
    forall h: Hash
      ensures |References(cs[id := c], h)| == |References(cs, h)| +
        (if h == c.hash then Bit(c.referenced) - Bit(id in cs && cs[id].referenced) else 0)
    {
      var was, now := References(cs, h), References(cs[id := c], h);
      if h == c.hash && c.referenced {
        assert now == was + {id};
      } else {
        assert now == was - {id};
      }
    }
  }

  /** Replay guards follow headers, which never change: an update keeps them, a new event adds its own. */
  lemma ProtectionUpdate(cs: map<EventId, Contribution>, id: EventId, c: Contribution)
    requires id in cs ==> cs[id].hash == c.hash && cs[id].protected == c.protected
    ensures forall h: Hash ::
      ProtectedBy(cs[id := c], h) == (ProtectedBy(cs, h) || (h == c.hash && c.protected))
  {
    forall h: Hash
      ensures ProtectedBy(cs[id := c], h) == (ProtectedBy(cs, h) || (h == c.hash && c.protected))
    {
      var next := cs[id := c];
      if ProtectedBy(cs, h) {
        var w :| w in cs && cs[w].hash == h && cs[w].protected;
        assert w in next && next[w].hash == h && next[w].protected;
      }
      if h == c.hash && c.protected {
        assert id in next && next[id].hash == h && next[id].protected;
      }
    }
  }

  lemma AuthorUpdate(cs: map<EventId, Contribution>, id: EventId, c: Contribution)
    requires id in cs ==> cs[id].author == c.author
    ensures forall a: Author :: HasAuthor(cs[id := c], a) == (HasAuthor(cs, a) || a == c.author)
  {
    forall a: Author
      ensures HasAuthor(cs[id := c], a) == (HasAuthor(cs, a) || a == c.author)
    {
      var next := cs[id := c];
      if HasAuthor(cs, a) {
        var w :| w in cs && cs[w].author == a;
        assert w in next && next[w].author == a;
      }
      if a == c.author {
        assert id in next && next[id].author == a;
      }
    }
  }
}
