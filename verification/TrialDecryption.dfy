/**
 Trial decryption of queued messages: bounded batches of epoch keys, resumed at a durable
 cursor while keys expire and appear between the batches.
 */
module TrialDecryption {
  import opened Wrappers
  import opened OrderedKeys

  const MAX_TRIAL_KEYS: nat := 8

  type MessageId = nat
  type EpochKey = int

  /** What the event tables say about a queued message when its turn comes. */
  datatype Envelope = Envelope(admissible: bool, stored: bool, intact: bool)

  datatype Outcome =
    | Idle
    | Yielded
    | Aborted(error: DbError)
    | Discarded(message: MessageId)
    | Opened(message: MessageId)
    | Exhausted(message: MessageId)
    | Advanced(message: MessageId)

  /** The turn of a message was spent on trials. */
  predicate Tried(outcome: Outcome) {
    outcome.Opened? || outcome.Exhausted? || outcome.Advanced?
  }

  predicate Serviced(outcome: Outcome) {
    Tried(outcome) || outcome.Discarded?
  }

  ghost predicate Increasing(s: seq<int>) {
    forall i, j | 0 <= i < j < |s| :: s[i] < s[j]
  }

  function LastOf(s: seq<int>, cursor: Option<int>): Option<int> {
    if s == [] then cursor else Some(s[|s| - 1])
  }

  /** The batch is exactly the keys between the cursor and its last key, in order. */
  ghost predicate IsBatch(keys: set<int>, cursor: Option<int>, batch: seq<int>) {
    && Increasing(batch)
    && (forall i | 0 <= i < |batch| :: batch[i] in keys && Beyond(cursor, batch[i]))
    && (forall k | k in keys && Beyond(cursor, k) && !Beyond(LastOf(batch, cursor), k) :: k in batch)
  }

  /** No key is left beyond the batch. */
  ghost predicate RangeEnds(keys: set<int>, cursor: Option<int>, batch: seq<int>) {
    forall k | k in keys :: !Beyond(LastOf(batch, cursor), k)
  }

  lemma BatchNext(keys: set<int>, cursor: Option<int>, batch: seq<int>, k: int)
    requires IsBatch(keys, cursor, batch) && IsNext(keys, LastOf(batch, cursor), Some(k))
    ensures IsBatch(keys, cursor, batch + [k])
  {
    var next := batch + [k];
    forall i, j | 0 <= i < j < |next| ensures next[i] < next[j] {
      if j == |batch| {
        assert batch[i] <= batch[|batch| - 1];
      }
    }
  }

  /** `range((Excluded(cursor), Unbounded)).take(limit)`, and whether the range ended there. */
  method TakeAfter(keys: set<int>, cursor: Option<int>, limit: nat) returns (batch: seq<int>, exhausted: bool)
    ensures IsBatch(keys, cursor, batch) && |batch| <= limit
    ensures exhausted <==> RangeEnds(keys, cursor, batch)
    ensures !exhausted ==> |batch| == limit
  {
    batch := [];
    var next := Next(keys, cursor);
    while |batch| < limit && next.Some?
      invariant |batch| <= limit && IsBatch(keys, cursor, batch)
      invariant IsNext(keys, LastOf(batch, cursor), next)
    {
      BatchNext(keys, cursor, batch, next.value);
      batch := batch + [next.value];
      next := Next(keys, Some(next.value));
    }
    exhausted := next.None?;
  }

  /** What the queue remembers of a message against the keys that stayed live since it was queued. */
  ghost predicate Tracked(readable: (MessageId, EpochKey) -> bool, m: MessageId, cursor: Option<int>, live: set<int>,
                          tried: seq<int>) {
    && Increasing(tried)
    && (forall i | 0 <= i < |tried| :: !Beyond(cursor, tried[i]) && !readable(m, tried[i]))
    && (forall k | k in live && !Beyond(cursor, k) :: k in tried)
  }

  /** Keys of a batch lie beyond everything tried before it. */
  lemma TrackedAfter(readable: (MessageId, EpochKey) -> bool, m: MessageId, cursor: Option<int>, live: set<int>,
                     tried: seq<int>,
                     keys: set<int>, batch: seq<int>)
    requires Tracked(readable, m, cursor, live, tried) && IsBatch(keys, cursor, batch)
    ensures Increasing(tried + batch)
  {
    var next := tried + batch;
    forall i, j | 0 <= i < j < |next| ensures next[i] < next[j] {
      if i < |tried| <= j {
        assert !Beyond(cursor, tried[i]) && Beyond(cursor, batch[j - |tried|]);
      }
    }
  }

  /** A failed batch extends the trials, in order and without repetition. */
  lemma TrackedBatch(readable: (MessageId, EpochKey) -> bool, m: MessageId, cursor: Option<int>, live: set<int>,
                     tried: seq<int>,
                     keys: set<int>, batch: seq<int>)
    requires Tracked(readable, m, cursor, live, tried) && IsBatch(keys, cursor, batch) && live <= keys
    requires forall i | 0 <= i < |batch| :: !readable(m, batch[i])
    ensures Tracked(readable, m, LastOf(batch, cursor), live, tried + batch)
  {
    var next := tried + batch;
    TrackedAfter(readable, m, cursor, live, tried, keys, batch);
    forall i | 0 <= i < |next| ensures !Beyond(LastOf(batch, cursor), next[i]) && !readable(m, next[i]) {
      if |tried| <= i {
        assert batch[i - |tried|] <= batch[|batch| - 1];
      } else if batch != [] {
        assert Beyond(cursor, batch[|batch| - 1]);
      }
    }
  }

  /** The queued message is known, still a direct message of the right form, and its content is stored. */
  ghost predicate Servable(events: map<MessageId, Envelope>, m: MessageId) {
    m in events && events[m].admissible && events[m].stored
  }

  class Receiver {
    /** Whether an epoch key opens a message; the sealed content never changes. */
    const readable: (MessageId, EpochKey) -> bool
    var epochs: map<EpochKey, nat>
    var pending: map<MessageId, Option<EpochKey>>
    var events: map<MessageId, Envelope>
    ghost var live: map<MessageId, set<EpochKey>>
    ghost var tried: map<MessageId, seq<EpochKey>>

    ghost predicate Valid()
      reads this
    {
      && live.Keys == pending.Keys == tried.Keys
      && forall m | m in pending ::
           live[m] <= epochs.Keys && Tracked(readable, m, pending[m], live[m], tried[m])
    }

    constructor (readable: (MessageId, EpochKey) -> bool)
      ensures Valid() && this.readable == readable && epochs == map[] && pending == map[] && events == map[]
    {
      this.readable := readable;
      epochs, pending, events, live, tried := map[], map[], map[], map[], map[];
    }

    /** A processed message is queued with no key tried; from here on its live keys are watched. */
    method Enqueue(m: MessageId, e: Envelope)
      requires Valid()
      modifies this
      ensures Valid() && epochs == old(epochs)
      ensures pending == old(pending)[m := None] && events == old(events)[m := e]
      ensures live == old(live)[m := epochs.Keys] && tried == old(tried)[m := []]
    {
      pending, events := pending[m := None], events[m := e];
      live, tried := live[m := epochs.Keys], tried[m := []];
    }

    /** Pruning, deletion or a changed lifecycle of any stored message. */
    method ChangeEvents(next: map<MessageId, Envelope>)
      requires Valid()
      modifies this`events
      ensures Valid() && events == next
    {
      events := next;
    }

    /** Maintenance generated a key; messages already queued do not wait for it. */
    method AddKey(k: EpochKey, until: nat)
      requires Valid()
      modifies this`epochs
      ensures Valid() && epochs == old(epochs)[k := until]
    {
      epochs := epochs[k := until];
    }

    /** Purge every key whose deadline has passed; a purged key stops being live. */
    method Expire(now: nat)
      requires Valid()
      modifies this`epochs, this`live
      ensures Valid()
      ensures epochs == map k | k in old(epochs) && now < old(epochs)[k] :: old(epochs)[k]
      ensures live.Keys == old(live).Keys && forall m | m in live :: live[m] == old(live)[m] * epochs.Keys
    {
      epochs := map k | k in epochs && now < epochs[k] :: epochs[k];
      live := map m | m in live :: live[m] * epochs.Keys;
    }

    method Drop(m: MessageId)
      requires Valid()
      modifies this`pending, this`live, this`tried
      ensures Valid()
      ensures pending == old(pending) - {m} && live == old(live) - {m} && tried == old(tried) - {m}
    {
      pending, live, tried := pending - {m}, live - {m}, tried - {m};
    }

    /** The message is stored and still admissible. */
    predicate Admitted(m: MessageId)
      reads this
    {
      m in events && events[m].admissible && events[m].stored
    }

    /**
     One batch for the first queued message. `batch` is what this call tries and `trials`
     everything tried for the message since it was queued.
     */
    method Service(now: nat) returns (outcome: Outcome, ghost batch: seq<EpochKey>, ghost trials: seq<EpochKey>)
      requires Valid()
      modifies this`pending, this`live, this`tried
      ensures Valid()
      // A due purge comes first; then the first queued message gets its turn.
      ensures outcome.Yielded? <==> exists k :: k in epochs && epochs[k] <= now
      ensures outcome.Idle? <==> !outcome.Yielded? && old(pending) == map[]
      ensures Serviced(outcome) ==> IsNext(old(pending).Keys, None, Some(outcome.message))
      ensures outcome.Discarded? ==> !Servable(events, outcome.message)
      ensures outcome.Aborted? ==> outcome.error == DirectMessageInvalid && exists m ::
        IsNext(old(pending).Keys, None, Some(m)) && Servable(events, m) && !events[m].intact
      ensures Tried(outcome) ==> Servable(events, outcome.message) && events[outcome.message].intact
      // The batch is the next keys, none of them at or past its deadline.
      ensures |batch| <= 8 && forall i | 0 <= i < |batch| :: batch[i] in epochs && now < epochs[batch[i]]
      ensures if Tried(outcome) then IsBatch(epochs.Keys, old(pending)[outcome.message], batch) else batch == []
      // Each key is tried at most once per queued message.
      ensures Tried(outcome) ==> trials == old(tried)[outcome.message] + batch && Increasing(trials)
      // A message is opened exactly when the batch holds a key for it.
      ensures Tried(outcome) ==> (outcome.Opened? <==> exists k :: k in batch && readable(outcome.message, k))
      ensures Tried(outcome) && !outcome.Opened? ==>
        (outcome.Exhausted? <==> RangeEnds(epochs.Keys, old(pending)[outcome.message], batch))
      // Exhaustion means that every key live since the message was queued was tried in vain.
      ensures outcome.Exhausted? ==>
        forall k | k in old(live)[outcome.message] :: k in trials && !readable(outcome.message, k)
      // Progress is a full batch of keys beyond the old cursor.
      ensures outcome.Advanced? ==>
        && |batch| == 8
        && pending == old(pending)[outcome.message := Some(batch[|batch| - 1])]
        && tried == old(tried)[outcome.message := trials] && live == old(live)
      // Nothing but the serviced message is touched.
      ensures outcome.Opened? || outcome.Exhausted? || outcome.Discarded? ==>
        && pending == old(pending) - {outcome.message}
        && live == old(live) - {outcome.message} && tried == old(tried) - {outcome.message}
      ensures !Serviced(outcome) ==> pending == old(pending) && live == old(live) && tried == old(tried)
    {
      batch, trials := [], [];
      if exists k :: k in epochs && epochs[k] <= now {
        return Yielded, batch, trials;
      }
      var first := Next(pending.Keys, None);
      if first.None? {
        assert pending == map[];
        return Idle, batch, trials;
      }
      var m := first.value;
      if !Admitted(m) {
        Drop(m);
        return Discarded(m), batch, trials;
      }
      if !events[m].intact {
        return Aborted(DirectMessageInvalid), batch, trials;
      }
      outcome, batch, trials := TryBatch(m, now);
    }

    /** Try the next keys for one message. */
    method TryBatch(m: MessageId,
                    now: nat) returns (outcome: Outcome, ghost batch: seq<EpochKey>, ghost trials: seq<EpochKey>)
      requires Valid() && m in pending && forall k | k in epochs :: now < epochs[k]
      modifies this`pending, this`live, this`tried
      ensures Valid() && |batch| <= 8 && IsBatch(epochs.Keys, old(pending)[m], batch)
      ensures trials == old(tried)[m] + batch && Increasing(trials)
      ensures outcome in {Opened(m), Exhausted(m), Advanced(m)}
      ensures outcome.Opened? <==> exists k :: k in batch && readable(m, k)
      ensures outcome.Exhausted? <==> !outcome.Opened? && RangeEnds(epochs.Keys, old(pending)[m], batch)
      ensures outcome.Exhausted? ==> forall k | k in old(live)[m] :: k in trials && !readable(m, k)
      ensures !outcome.Advanced? ==> pending == old(pending) - {m} && live == old(live) - {m} && tried == old(tried) - {m}
      ensures outcome.Advanced? ==>
        && live == old(live)
        && |batch| == 8
        && pending == old(pending)[m := Some(batch[|batch| - 1])]
        && tried == old(tried)[m := old(tried)[m] + batch]
    {
      var cursor := pending[m];
      var keys, exhausted := TakeAfter(epochs.Keys, cursor, MAX_TRIAL_KEYS);
      batch, trials := keys, tried[m] + keys;
      TrackedAfter(readable, m, cursor, live[m], tried[m], epochs.Keys, keys);
      if exists k :: k in keys && readable(m, k) {
        Drop(m);
        return Opened(m), batch, trials;
      }
      TrackedBatch(readable, m, cursor, live[m], tried[m], epochs.Keys, keys);
      if exhausted {
        Drop(m);
        outcome := Exhausted(m);
      } else {
        pending := pending[m := LastOf(keys, cursor)];
        tried := tried[m := trials];
        outcome := Advanced(m);
      }
    }
  }
}
