/**
 The ordered index of retained payloads and the advisory frontier that resumes a scan of it.

 Every mutation of the index raises its revision first, so at one revision the rows and
 their eligibility times are fixed.
 */
module RetentionScan {
  import opened Wrappers
  import opened OrderedKeys

  type Author = nat
  type Key = int
  type Timestamp = nat

  /**
   One candidate row. `eligibleAt` is absent when the row no longer matches the event
   it names, so that no passage of time makes it a victim.
   */
  datatype IndexRow = IndexRow(event: nat, author: Author, bytes: nat, eligibleAt: Option<Timestamp>)

  /** Promoted rows in key order; `grace` holds the entries still waiting for their deadline. */
  datatype Index = Index(revision: nat, rows: map<Key, IndexRow>, grace: map<Key, IndexRow>)

  predicate InScope(row: IndexRow, author: Option<Author>) {
    author.None? || row.author == author.value
  }

  predicate Current(row: IndexRow, now: Timestamp) {
    row.eligibleAt.Some? && row.eligibleAt.value <= now
  }

  /** Backfill is complete and no grace deadline is due. */
  predicate SelectionReady(index: Index, now: Timestamp) {
    forall k | k in index.grace :: !Current(index.grace[k], now)
  }

  /** Every author's row belongs to the whole database. */
  ghost predicate Belongs(row: IndexRow, author: Option<Author>) {
    match author case None => true case Some(a) => row.author == a
  }

  /** The payload belongs to the scope, and may be pruned since some moment not after now. */
  ghost predicate Evictable(row: IndexRow, author: Option<Author>, now: Timestamp) {
    && Belongs(row, author)
    && match row.eligibleAt case None => false case Some(t) => t <= now
  }

  /** Every retained payload that may be pruned now, promoted or not. */
  ghost predicate EligibleKey(index: Index, author: Option<Author>, now: Timestamp, k: Key) {
    || (k in index.rows && Evictable(index.rows[k], author, now))
    || (k in index.grace && Evictable(index.grace[k], author, now))
  }

  /** The scan from the minimum: `k` is the least eligible key of the scope. */
  ghost predicate IsMinimum(index: Index, author: Option<Author>, now: Timestamp, k: Key) {
    EligibleKey(index, author, now, k) && forall j: Key :: EligibleKey(index, author, now, j) ==> k <= j
  }

  datatype Scan = Scan(
    revision: nat,
    author: Option<Author>,
    observed: Timestamp,
    retryAt: Option<Timestamp>,
    after: Option<Key>,
    exhausted: bool,
    blockedBytes: Option<nat>)

  function New(revision: nat, author: Option<Author>, now: Timestamp): Scan {
    Scan(revision, author, now, None, None, false, None)
  }

  /** Keep the remembered prefix only where nothing in it can have become eligible; otherwise scan again from the first key. */
  function Prepare(scan: Scan, revision: nat, author: Option<Author>, now: Timestamp): Scan {
    if scan.revision != revision || scan.author != author || now < scan.observed
       || (scan.retryAt.Some? && scan.retryAt.value <= now)
    then New(revision, author, now)
    else scan.(observed := now)
  }

  /** The frontier a scan of this scope starts from. */
  function Resumed(index: Index, author: Option<Author>, scan: Option<Scan>, now: Timestamp): Scan {
    Prepare(if scan.Some? then scan.value else New(index.revision, author, now), index.revision, author, now)
  }

  predicate PastKey(after: Option<Key>, k: Key) {
    after.None? || after.value < k
  }

  ghost predicate After(after: Option<Key>, k: Key) {
    after.Some? ==> after.value < k
  }

  ghost predicate Ahead(from: Scan, to: Scan) {
    to.after.Some? && After(from.after, to.after.value)
  }

  /** Advice survives at its revision and scope, while the clock has neither stepped back nor reached the retry time. */
  ghost predicate Survives(scan: Scan, index: Index, author: Option<Author>, now: Timestamp) {
    && scan.revision == index.revision && scan.author == author && scan.observed <= now
    && match scan.retryAt case None => true case Some(t) => now < t
  }

  /** The frontier a scan starts from: the remembered one if it survives, otherwise the first key. */
  ghost function StartOf(index: Index, author: Option<Author>, scan: Option<Scan>, now: Timestamp): Scan {
    if scan.Some? && Survives(scan.value, index, author, now) then scan.value.(observed := now)
    else Scan(index.revision, author, now, None, None, false, None)
  }

  /** The frontier moved on: past another row, to its end, or onto a row found too large. */
  ghost predicate Learns(from: Scan, to: Scan) {
    || Ahead(from, to)
    || (to.exhausted && !from.exhausted)
    || (to.blockedBytes.Some? && to.blockedBytes != from.blockedBytes)
  }

  /** The first row of the scope strictly after the frontier. */
  ghost predicate IsNextRow(index: Index, author: Option<Author>, after: Option<Key>, next: Option<Key>) {
    match next
    case None => forall k | k in index.rows && Belongs(index.rows[k], author) :: !After(after, k)
    case Some(n) =>
      && n in index.rows && Belongs(index.rows[n], author) && After(after, n)
      && forall k | k in index.rows && Belongs(index.rows[k], author) && After(after, k) :: n <= k
  }

  method NextRow(index: Index, author: Option<Author>, after: Option<Key>) returns (next: Option<Key>)
    ensures IsNextRow(index, author, after, next)
  {
    next := None;
    var rest := index.rows.Keys;
    while rest != {}
      invariant rest <= index.rows.Keys
      invariant next.Some? ==> next.value in index.rows && InScope(index.rows[next.value], author) && PastKey(after, next.value)
      invariant forall k | k in index.rows && k !in rest && InScope(index.rows[k], author) && PastKey(after, k) :: next.Some? && next.value <= k
      decreases rest
    {
      var k := Any<Key>(rest);
      rest := rest - {k};
      if InScope(index.rows[k], author) && PastKey(after, k) && (next.None? || k < next.value) {
        next := Some(k);
      }
    }
  }

  // What a frontier remembers.

  /** A skipped row was not current when seen, and cannot become current before `retryAt`. */
  ghost predicate Skipped(scan: Scan, row: IndexRow) {
    row.eligibleAt.None? || (scan.retryAt.Some? && scan.observed < scan.retryAt.value <= row.eligibleAt.value)
  }

  /** The frontier's claims about the rows of its own revision. */
  ghost predicate Claims(scan: Scan, index: Index, bound: Option<Key>) {
    && (scan.retryAt.Some? ==> scan.observed < scan.retryAt.value)
    && (forall k | k in index.rows && Belongs(index.rows[k], scan.author) && !After(scan.after, k) :: Skipped(scan, index.rows[k]))
    && (scan.exhausted ==>
          forall k | k in index.rows && Belongs(index.rows[k], scan.author) && After(scan.after, k) ::
            bound.Some? && bound.value <= k)
    && (scan.blockedBytes.Some? ==>
          exists k :: IsNextRow(index, scan.author, scan.after, Some(k))
            && Current(index.rows[k], scan.observed) && index.rows[k].bytes == scan.blockedBytes.value)
  }

  /** Advice of an older revision claims nothing. */
  ghost predicate Sound(scan: Scan, index: Index, bound: Option<Key>) {
    scan.revision <= index.revision && (scan.revision == index.revision ==> Claims(scan, index, bound))
  }

  /** An index mutation leaves every remembered frontier sound, whatever the new rows are. */
  lemma MutationKeepsSound(scan: Scan, index: Index, next: Index, bound: Option<Key>)
    requires Sound(scan, index, bound) && index.revision < next.revision
    ensures Sound(scan, next, bound)
  {
  }

  lemma NewSound(index: Index, author: Option<Author>, now: Timestamp, bound: Option<Key>)
    ensures Sound(New(index.revision, author, now), index, bound)
  {
  }

  /** After preparation the frontier speaks about this revision, scope and moment. */
  lemma PrepareSound(scan: Scan, index: Index, author: Option<Author>, now: Timestamp, bound: Option<Key>)
    requires Sound(scan, index, bound)
    ensures var p := Prepare(scan, index.revision, author, now);
      && Sound(p, index, bound)
      && p.revision == index.revision && p.author == author && p.observed == now
  {
    var p := Prepare(scan, index.revision, author, now);
    if p == scan.(observed := now) && p.blockedBytes.Some? {
      var k :| IsNextRow(index, scan.author, scan.after, Some(k))
        && Current(index.rows[k], scan.observed) && index.rows[k].bytes == scan.blockedBytes.value;
      assert IsNextRow(index, p.author, p.after, Some(k)) && Current(index.rows[k], p.observed);
    }
  }

  /** A prepared frontier hides no eligible row: the next current row is the true minimum. */
  lemma FrontierMinimum(scan: Scan, index: Index, bound: Option<Key>, k: Key)
    requires Sound(scan, index, bound) && scan.revision == index.revision
    requires SelectionReady(index, scan.observed)
    requires IsNextRow(index, scan.author, scan.after, Some(k)) && Current(index.rows[k], scan.observed)
    ensures IsMinimum(index, scan.author, scan.observed, k)
  {
    forall j: Key | EligibleKey(index, scan.author, scan.observed, j)
      ensures k <= j
    {
    }
  }

  /** An exhausted frontier really has no eligible row below its bound. */
  lemma FrontierExhausted(scan: Scan, index: Index, bound: Option<Key>, j: Key)
    requires Sound(scan, index, bound) && scan.revision == index.revision && scan.exhausted
    requires SelectionReady(index, scan.observed)
    requires EligibleKey(index, scan.author, scan.observed, j)
    ensures bound.Some? && bound.value <= j
  {
  }

  /** A byte-blocked frontier stands on the true minimum, which is larger than the allowance. */
  lemma FrontierBlocked(scan: Scan, index: Index, bound: Option<Key>) returns (k: Key)
    requires Sound(scan, index, bound) && scan.revision == index.revision && scan.blockedBytes.Some?
    requires SelectionReady(index, scan.observed)
    ensures IsMinimum(index, scan.author, scan.observed, k) && k in index.rows && index.rows[k].bytes == scan.blockedBytes.value
  {
    k :| IsNextRow(index, scan.author, scan.after, Some(k))
      && Current(index.rows[k], scan.observed) && index.rows[k].bytes == scan.blockedBytes.value;
    FrontierMinimum(scan, index, bound, k);
  }

  /** The scope's minimum is eligible and larger than the allowance. */
  ghost predicate OversizedMinimum(index: Index, author: Option<Author>, now: Timestamp, maxBytes: nat) {
    exists m: Key :: IsMinimum(index, author, now, m) && m in index.rows && maxBytes < index.rows[m].bytes
  }

  function EarlierOf(a: Option<Timestamp>, t: Timestamp): Option<Timestamp> {
    if a.Some? && a.value <= t then a else Some(t)
  }

  /** Remember when a row that is not yet eligible becomes so. */
  function NoteRetry(scan: Scan, row: IndexRow): Scan {
    if row.eligibleAt.Some? && scan.observed < row.eligibleAt.value
    then scan.(retryAt := EarlierOf(scan.retryAt, row.eligibleAt.value))
    else scan
  }

  /** Move the frontier past a row that is not current. */
  function SkipRow(scan: Scan, k: Key, row: IndexRow): Scan {
    NoteRetry(scan, row).(after := Some(k))
  }

  lemma NoteRetrySound(scan: Scan, index: Index, bound: Option<Key>, row: IndexRow)
    requires Sound(scan, index, bound) && scan.blockedBytes.None?
    ensures Sound(NoteRetry(scan, row), index, bound)
  {
  }

  lemma SkipSound(scan: Scan, index: Index, bound: Option<Key>, k: Key)
    requires Sound(scan, index, bound) && scan.revision == index.revision
    requires !scan.exhausted && scan.blockedBytes.None?
    requires IsNextRow(index, scan.author, scan.after, Some(k)) && !Current(index.rows[k], scan.observed)
    ensures Sound(SkipRow(scan, k, index.rows[k]), index, bound)
  {
  }

  /** A frontier that remembers a block stands on a current row. */
  lemma BlockedCurrent(scan: Scan, index: Index, bound: Option<Key>, k: Key)
    requires Sound(scan, index, bound) && scan.revision == index.revision
    requires IsNextRow(index, scan.author, scan.after, Some(k)) && !Current(index.rows[k], scan.observed)
    ensures scan.blockedBytes.None?
  {
  }

  lemma BlockSound(scan: Scan, index: Index, bound: Option<Key>, k: Key)
    requires Sound(scan, index, bound) && scan.revision == index.revision
    requires IsNextRow(index, scan.author, scan.after, Some(k)) && Current(index.rows[k], scan.observed)
    ensures Sound(scan.(blockedBytes := Some(index.rows[k].bytes)), index, bound)
  {
    var s := scan.(blockedBytes := Some(index.rows[k].bytes));
    assert IsNextRow(index, s.author, s.after, Some(k)) && Current(index.rows[k], s.observed);
  }

  lemma ExhaustSound(scan: Scan, index: Index, bound: Option<Key>, next: Option<Key>)
    requires Sound(scan, index, bound) && scan.revision == index.revision
    requires IsNextRow(index, scan.author, scan.after, next)
    requires next.Some? ==> bound.Some? && bound.value <= next.value
    ensures Sound(scan.(exhausted := true), index, bound)
  {
  }
}
