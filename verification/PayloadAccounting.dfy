/**
 Disposable payload accounting: a resumable staged rebuild, deltas applied by the
 ingestion reducers to whatever the rebuild cursor already covers, and quota-scoped
 collection of unreferenced bytes.
 */
module PayloadAccounting {
  import opened Wrappers
  import opened Sums
  import opened PayloadTables
  import opened PayloadLifecycle

  /** Durable rebuild cursor; totals are exact only at Ready. */
  datatype Stage =
    | Events(event: Option<EventId>)
    | Content(stored: Option<Hash>)
    | Hashes(hash: Option<Hash>)
    | ReferenceCounts(counted: Option<Hash>)
    | Authors(author: Option<Author>)
    | ExpectedAuthors(expected: Option<Author>)
    | Ready

  datatype HashAccounting = HashAccounting(references: int, protectedHistory: bool)

  /** Independent resumable scan of the immutable quota decisions. */
  datatype QuotaRecovery = Scanning(cursor: Option<EventId>) | Recovered

  datatype Accounting = Accounting(
    stage: Stage,
    logical: int,
    unique: int,
    hashes: map<Hash, HashAccounting>,
    authors: map<Author, int>,
    provenance: set<Hash>,
    queue: set<Hash>,
    recovery: QuotaRecovery)

  const FRESH := Accounting(Events(None), 0, 0, map[], map[], {}, {}, Scanning(None))

  predicate EventCounted(stage: Stage, id: EventId) {
    match stage
    case Events(cursor) => cursor.Some? && id <= cursor.value
    case _ => true
  }

  predicate HashCounted(stage: Stage, h: Hash) {
    match stage
    case Events(_) => false
    case Content(cursor) => cursor.Some? && h <= cursor.value
    case _ => true
  }

  function Row(hashes: map<Hash, HashAccounting>, h: Hash): HashAccounting {
    if h in hashes then hashes[h] else HashAccounting(0, false)
  }

  function StoredLen(l: Lifecycle, h: Hash): int {
    Get(l.store, h)
  }

  /** The current contribution of an event; Processed bytes must have their signed length. */
  function CurrentContribution(self: Author, l: Lifecycle, id: EventId): Result<Option<Contribution>> {
    if id !in l.events then Ok(None)
    else if id !in l.states && !WellStored(l, l.events[id]) then Err(AccountingInvariant)
    else Ok(Some(ContributionOf(self, l.events[id], StateOf(l, id))))
  }

  function AdjustContribution(a: Accounting, c: Contribution, add: bool): Result<Accounting> {
    var row := Row(a.hashes, c.hash);
    var amount: int := c.logical;
    var delta := if add then amount else -amount;
    var references := row.references + (if !c.referenced then 0 else if add then 1 else -1);
    var author := Get(a.authors, c.author) + delta;
    var logical := a.logical + delta;
    if !(0 <= references <= U64_MAX) || !(0 <= author <= U64_MAX) || !(0 <= logical <= U64_MAX) then
      Err(Overflow)
    else
      Ok(Accounting(
        a.stage, logical, a.unique,
        a.hashes[c.hash := HashAccounting(references, row.protectedHistory || c.protected)],
        a.authors[c.author := author],
        a.provenance, a.queue, a.recovery))
  }

  predicate HashValid(l: Lifecycle, a: Accounting, h: Hash) {
    (h in l.rc ==> l.rc[h] != 0) && Get(l.rc, h) == Row(a.hashes, h).references
  }

  predicate AuthorValid(l: Lifecycle, a: Accounting, author: Author) {
    author in l.usage && l.usage[author] == Get(a.authors, author)
  }

  // Exactness of the totals for a set of counted contributions.

  ghost predicate HashesExact(hashes: map<Hash, HashAccounting>, cs: map<EventId, Contribution>) {
    && (forall h: Hash :: Row(hashes, h).references == |References(cs, h)|)
    && (forall h: Hash :: Row(hashes, h).protectedHistory == ProtectedBy(cs, h))
    && (forall id | id in cs :: cs[id].hash in hashes)
  }

  ghost predicate AuthorsExact(authors: map<Author, int>, cs: map<EventId, Contribution>) {
    && (forall x: Author :: Get(authors, x) == Sum(LogicalsOf(cs, x)))
    && (forall x | x in authors :: HasAuthor(cs, x))
  }

  ghost predicate Totals(a: Accounting, cs: map<EventId, Contribution>) {
    && a.logical == Sum(Logicals(cs))
    && HashesExact(a.hashes, cs)
    && AuthorsExact(a.authors, cs)
  }

  lemma HashesFollow(hashes: map<Hash, HashAccounting>, cs: map<EventId, Contribution>, id: EventId, c: Contribution)
    requires HashesExact(hashes, cs)
    requires id in cs ==> cs[id].hash == c.hash && cs[id].protected == c.protected
    ensures var row := Row(hashes, c.hash);
      var delta := Bit(c.referenced) - Bit(id in cs && cs[id].referenced);
      HashesExact(
        hashes[c.hash := HashAccounting(row.references + delta, row.protectedHistory || c.protected)],
        cs[id := c])
  {
    ReferenceUpdate(cs, id, c);
    ProtectionUpdate(cs, id, c);
    var row := Row(hashes, c.hash);
    var delta := Bit(c.referenced) - Bit(id in cs && cs[id].referenced);
    var next := hashes[c.hash := HashAccounting(row.references + delta, row.protectedHistory || c.protected)];
    forall h: Hash
      ensures Row(next, h).references == |References(cs[id := c], h)|
      ensures Row(next, h).protectedHistory == ProtectedBy(cs[id := c], h)
    {
      assert Row(hashes, h).references == |References(cs, h)|;
    }
  }

  lemma AuthorsFollow(authors: map<Author, int>, cs: map<EventId, Contribution>, id: EventId, c: Contribution)
    requires AuthorsExact(authors, cs)
    requires id in cs ==> cs[id].author == c.author
    ensures var delta := c.logical - (if id in cs then cs[id].logical else 0);
      AuthorsExact(authors[c.author := Get(authors, c.author) + delta], cs[id := c])
  {
    AuthorLogicalUpdate(cs, id, c);
    AuthorUpdate(cs, id, c);
    var delta := c.logical - (if id in cs then cs[id].logical else 0);
    var next := authors[c.author := Get(authors, c.author) + delta];
    forall x: Author
      ensures Get(next, x) == Sum(LogicalsOf(cs[id := c], x))
    {
      assert Get(authors, x) == Sum(LogicalsOf(cs, x));
    }
    forall x | x in next
      ensures HasAuthor(cs[id := c], x)
    {
      assert x == c.author || HasAuthor(cs, x);
      assert HasAuthor(cs[id := c], x) == (HasAuthor(cs, x) || x == c.author);
    }
  }

  /** Counting one more event keeps the totals exact. */
  lemma AddCounts(a: Accounting, cs: map<EventId, Contribution>, id: EventId, c: Contribution)
    requires Totals(a, cs) && id !in cs
    requires AdjustContribution(a, c, true).Ok?
    ensures Totals(AdjustContribution(a, c, true).value, cs[id := c])
  {
    LogicalUpdate(cs, id, c);
    HashesFollow(a.hashes, cs, id, c);
    AuthorsFollow(a.authors, cs, id, c);
  }

  /** Counting fails only when an exact total does not fit its counter. */
  lemma AddOverflows(a: Accounting, cs: map<EventId, Contribution>, id: EventId, c: Contribution)
    requires Totals(a, cs) && id !in cs
    requires AdjustContribution(a, c, true).Err?
    ensures AdjustContribution(a, c, true).error.Overflow?
    ensures U64_MAX < Sum(Logicals(cs[id := c])) || U64_MAX < |References(cs[id := c], c.hash)|
  {
    LogicalUpdate(cs, id, c);
    AuthorLogicalUpdate(cs, id, c);
    LogicalsNonNegative(cs, c.author);
    LogicalsNonNegative(cs[id := c], c.author);
    ReferenceUpdate(cs, id, c);
    assert Get(a.authors, c.author) == Sum(LogicalsOf(cs, c.author));
    assert Row(a.hashes, c.hash).references == |References(cs, c.hash)|;
  }

  /** Withdrawing a counted event never underflows. */
  lemma WithdrawSucceeds(a: Accounting, cs: map<EventId, Contribution>, id: EventId)
    requires Totals(a, cs) && id in cs
    requires a.logical <= U64_MAX && Row(a.hashes, cs[id].hash).references <= U64_MAX
    ensures AdjustContribution(a, cs[id], false).Ok?
  {
    var c := cs[id];
    var mine := LogicalsOf(cs, c.author);
    LogicalsNonNegative(cs, c.author);
    assert Get(a.authors, c.author) == Sum(mine);
    SumSplit(mine, id);
    SumNonNegative(mine - {id});
    if c.referenced {
      assert id in References(cs, c.hash);
    }
    assert Row(a.hashes, c.hash).references == |References(cs, c.hash)|;
  }

  lemma ReplaceHashes(a: Accounting, b: Accounting, cs: map<EventId, Contribution>, id: EventId, c: Contribution)
    requires HashesExact(a.hashes, cs) && id in cs
    requires cs[id].hash == c.hash && cs[id].protected == c.protected
    requires AdjustContribution(a, cs[id], false) == Ok(b)
    requires AdjustContribution(b, c, true).Ok?
    ensures HashesExact(AdjustContribution(b, c, true).value.hashes, cs[id := c])
  {
    HashesFollow(a.hashes, cs, id, c);
    var row := Row(a.hashes, c.hash);
    var delta := Bit(c.referenced) - Bit(cs[id].referenced);
    assert AdjustContribution(b, c, true).value.hashes ==
      a.hashes[c.hash := HashAccounting(row.references + delta, row.protectedHistory || c.protected)];
  }

  lemma ReplaceAuthors(a: Accounting, b: Accounting, cs: map<EventId, Contribution>, id: EventId, c: Contribution)
    requires AuthorsExact(a.authors, cs) && id in cs
    requires cs[id].author == c.author
    requires AdjustContribution(a, cs[id], false) == Ok(b)
    requires AdjustContribution(b, c, true).Ok?
    ensures AuthorsExact(AdjustContribution(b, c, true).value.authors, cs[id := c])
  {
    AuthorsFollow(a.authors, cs, id, c);
    assert AdjustContribution(b, c, true).value.authors ==
      a.authors[c.author := Get(a.authors, c.author) + (c.logical - cs[id].logical)];
  }

  /** Withdraw the old contribution, add the new one: exact for the updated event. */
  lemma ReplaceCounts(a: Accounting, b: Accounting, cs: map<EventId, Contribution>, id: EventId, c: Contribution)
    requires Totals(a, cs) && id in cs
    requires cs[id].author == c.author && cs[id].hash == c.hash && cs[id].protected == c.protected
    requires AdjustContribution(a, cs[id], false) == Ok(b)
    requires AdjustContribution(b, c, true).Ok?
    ensures Totals(AdjustContribution(b, c, true).value, cs[id := c])
  {
    LogicalUpdate(cs, id, c);
    ReplaceHashes(a, b, cs, id, c);
    ReplaceAuthors(a, b, cs, id, c);
  }
}
