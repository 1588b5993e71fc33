/**
 The admission boundary as the store runs it: leases, commits and releases over running
 totals of retained bytes.
 */
module AdmissionGate {
  import opened Wrappers
  import opened Sums
  import opened AdmissionCapacity

  datatype Reservation = Unneeded | Deferred(pause: Pause) | Reserved(id: nat)

  ghost predicate UsageAt(processed: map<EventId, Charge>, usage: map<Author, int>, a: Author) {
    Get<Author>(usage, a) == Sum<EventId>(BytesOf(processed, a))
  }

  ghost predicate UsageExact(processed: map<EventId, Charge>, usage: map<Author, int>) {
    forall a: Author :: UsageAt(processed, usage, a)
  }

  /** The running totals are those of the processed payloads. */
  ghost predicate Books(processed: map<EventId, Charge>, retained: int, usage: map<Author, int>) {
    retained == Sum<EventId>(Bytes(processed)) && UsageExact(processed, usage)
  }

  function Credited(usage: map<Author, int>, a: Author, delta: int): map<Author, int> {
    usage[a := Get<Author>(usage, a) + delta]
  }

  function Debited(usage: map<Author, int>, a: Author, delta: int): map<Author, int> {
    usage[a := Get<Author>(usage, a) - delta]
  }

  lemma BooksAdded(processed: map<EventId, Charge>, retained: int, usage: map<Author, int>, e: EventId, c: Charge)
    requires Books(processed, retained, usage) && e !in processed
    ensures Books(processed[e := c], retained + c.bytes, Credited(usage, c.author, c.bytes))
  {
    var next, after := processed[e := c], Credited(usage, c.author, c.bytes);
    PutBytes(processed, e, c, c.author);
    forall a: Author ensures UsageAt(next, after, a) {
      assert UsageAt(processed, usage, a) && UsageAt(processed, usage, c.author);
      PutBytes(processed, e, c, a);
    }
  }

  lemma BooksRemoved(processed: map<EventId, Charge>, retained: int, usage: map<Author, int>, e: EventId)
    requires Books(processed, retained, usage) && e in processed
    ensures Books(processed - {e}, retained - processed[e].bytes, Debited(usage, processed[e].author, processed[e].bytes))
  {
    var rest, c := processed - {e}, processed[e];
    var after := Debited(usage, c.author, c.bytes);
    assert rest[e := c] == processed;
    PutBytes(rest, e, c, c.author);
    forall a: Author ensures UsageAt(rest, after, a) {
      assert UsageAt(processed, usage, a) && UsageAt(processed, usage, c.author);
      PutBytes(rest, e, c, a);
    }
  }

  lemma FinishedProcessed(w: World, e: EventId)
    ensures Finished(w, e).processed == if e in w.processed then w.processed - {e} else w.processed
  {
    assert e !in w.processed ==> w.processed - {e} == w.processed;
  }

  /** A lease never counts against its own event. */
  lemma OwnLeaseIgnored(w: World, e: EventId)
    requires Reservable(w, e)
    ensures Committable(Grant(w, e), e)
  {
    assert Grant(w, e).leases - {e} == w.leases - {e};
  }

  lemma InlineCommits(w: World, e: EventId)
    requires Valid(w) && Reservable(w, e)
    ensures Committable(Grant(w, e), e)
    ensures Commit(Grant(w, e), e) == Step(w, Op.Materialize(e, 0, true))
    ensures Bounded(w, Commit(Grant(w, e), e))
  {
    OwnLeaseIgnored(w, e);
    StepKeeps(w, Op.Materialize(e, 0, true));
  }

  lemma IdentityFree(w: World, id: nat)
    requires Valid(w) && w.nextId <= id
    ensures Valid(w.(nextId := id)) && Bounded(w, w.(nextId := id))
  {
    var v := w.(nextId := id);
    assert Pending(v) == Pending(w);
    forall a: Author ensures BoundedOf(w, v, a) {
    }
    forall x: EventId ensures ValidAt(v, x) {
      assert ValidAt(w, x);
    }
  }

  /** A lease given back leaves only its identity spent. */
  lemma InlineReturns(w: World, e: EventId)
    requires e in w.missing && e !in w.leases
    ensures Dropped(Grant(w, e), e, w.nextId + 1) == w.(nextId := w.nextId + 1)
  {
    assert w.leases[e := ReservedEvent(w.missing[e], w.nextId + 1)] - {e} == w.leases;
  }

  /** Why a lease is not granted now, in the order the checks are made. */
  ghost function DeferReason(w: World, ready: bool, e: EventId): Pause
    requires e in w.missing
  {
    if e in w.leases then AlreadyReserved
    else if w.config.inFlightCount <= |w.leases| then InFlightCount
    else if !ready then Pause.AccountingNotReady
    else if AuthorCapacity in CapacityPause(w, e, w.missing[e]) then AuthorCapacity
    else DatabaseCapacity
  }

  /** The payload is retained and no longer missing; nothing else changes. */
  ghost predicate CommitsTo(w: World, e: EventId, v: World) {
    e in w.missing && v == w.(processed := w.processed[e := w.missing[e]], missing := w.missing - {e})
  }

  class Gate {
    var w: World
    /** Accounting has been rebuilt; until then nothing is admitted. */
    var ready: bool
    var retained: int
    var usage: map<Author, int>

    ghost predicate Sound()
      reads this
    {
      Valid(w) && Books(w.processed, retained, usage)
    }

    constructor (config: Config)
      ensures Sound() && w == World(config, map[], map[], {}, map[], 0) && !ready
    {
      w, ready, retained, usage := World(config, map[], map[], {}, map[], 0), false, 0, map[];
      new;
      assert Bytes(w.processed) == map[];
      forall a: Author ensures UsageAt(w.processed, usage, a) {
        assert BytesOf(w.processed, a) == map[];
      }
    }

    /** Receive a header; a payload not known yet is missing. */
    method Arrive(e: EventId, c: Charge)
      requires Sound()
      modifies this`w
      ensures Sound() && Bounded(old(w), w) && w == Step(old(w), Op.Arrive(e, c))
      ensures w == if e in old(w).processed || e in old(w).missing || e in old(w).finished then old(w)
                   else old(w).(missing := old(w).missing[e := c])
    {
      StepKeeps(w, Op.Arrive(e, c));
      w := Arrived(w, e, c);
    }

    method SetReady(value: bool)
      requires Sound()
      modifies this`ready
      ensures Sound() && ready == value
    {
      ready := value;
    }

    /** The shared capacity check, from the running totals. */
    method Pauses(e: EventId, c: Charge) returns (pause: Option<Pause>)
      requires Sound()
      ensures pause.None? <==> ready && CapacityPause(w, e, c) == {}
      ensures ready && pause.Some? ==> CapacityPause(w, e, c) == {pause.value}
      ensures !ready ==> pause == Some(Pause.AccountingNotReady)
    {
      if !ready {
        return Some(Pause.AccountingNotReady);
      }
      assert UsageAt(w.processed, usage, c.author);
      var found := CheckCapacity(w, e, c, retained, Get<Author>(usage, c.author));
      return if found == {} then None else if AuthorCapacity in found then Some(AuthorCapacity) else Some(DatabaseCapacity);
    }

    /** Lease one missing payload, or say why not. */
    method Reserve(e: EventId) returns (r: Reservation)
      requires Sound()
      modifies this`w
      ensures Sound() && Bounded(old(w), w)
      ensures w == if ready then Step(old(w), Op.Reserve(e)) else old(w)
      ensures r.Unneeded? <==> e !in old(w).missing
      ensures r.Reserved? <==> ready && Reservable(old(w), e)
      ensures r.Reserved? ==>
        && r.id == old(w).nextId + 1
        && w == old(w).(leases := old(w).leases[e := ReservedEvent(old(w).missing[e], r.id)], nextId := r.id)
      ensures !r.Reserved? ==> w == old(w)
      ensures r.Deferred? ==> r.pause == DeferReason(w, ready, e)
    {
      StepKeeps(w, Op.Reserve(e));
      StayBounded(w);
      if e !in w.missing {
        return Unneeded;
      }
      if e in w.leases {
        return Deferred(AlreadyReserved);
      }
      if w.config.inFlightCount <= |w.leases| {
        return Deferred(InFlightCount);
      }
      var pause := Pauses(e, w.missing[e]);
      if pause.Some? {
        return Deferred(pause.value);
      }
      w := Grant(w, e);
      return Reserved(w.nextId);
    }

    /** The payload becomes retained bytes; its lease stays until the transaction has committed. */
    method CommitPayload(e: EventId)
      requires Sound() && Committable(w, e)
      modifies this`w, this`retained, this`usage
      ensures Sound() && w == Commit(old(w), e) && CommitsTo(old(w), e, w)
    {
      var c := w.missing[e];
      assert e !in w.processed by { assert ValidAt(w, e); }
      BooksAdded(w.processed, retained, usage, e, c);
      CommitValid(w, e);
      retained, usage, w := retained + c.bytes, Credited(usage, c.author, c.bytes), Commit(w, e);
    }

    /** Commit received bytes under the lease their buffer was acquired for. */
    method Materialize(e: EventId, lease: nat) returns (ok: bool)
      requires Sound()
      modifies this`w, this`retained, this`usage
      ensures Sound() && Bounded(old(w), w)
      ensures w == if ready then Step(old(w), Op.Materialize(e, lease, false)) else old(w)
      ensures ok <==> ready && Committable(old(w), e) && old(w).leases[e].id == lease
      ensures if ok then CommitsTo(old(w), e, w) else w == old(w)
    {
      StepKeeps(w, Op.Materialize(e, lease, false));
      StayBounded(w);
      if e !in w.missing || e !in w.leases || w.leases[e].id != lease {
        return false;
      }
      var pause := Pauses(e, w.missing[e]);
      if pause.Some? {
        return false;
      }
      CommitPayload(e);
      return true;
    }

    method CommitInline(e: EventId, ghost before: World)
      requires Sound() && Valid(before) && Reservable(before, e) && w == Grant(before, e)
      modifies this`w, this`retained, this`usage
      ensures Sound() && Bounded(before, w)
      ensures w == Step(before, Op.Materialize(e, 0, true)) && CommitsTo(Grant(before, e), e, w)
    {
      InlineCommits(before, e);
      CommitPayload(e);
    }

    method ReturnLease(e: EventId, ghost before: World)
      requires Sound() && Valid(before) && Reservable(before, e) && w == Grant(before, e)
      modifies this`w
      ensures Sound() && Bounded(before, w) && w == before.(nextId := before.nextId + 1)
    {
      InlineReturns(before, e);
      IdentityFree(before, before.nextId + 1);
      w := Dropped(w, e, w.nextId);
    }

    /** Commit bytes that arrived without a lease; a refused buffer (`buffered`) gives the lease back. */
    method MaterializeInline(e: EventId, buffered: bool) returns (ok: bool)
      requires Sound()
      modifies this`w, this`retained, this`usage
      ensures Sound() && Bounded(old(w), w)
      ensures ok <==> ready && Reservable(old(w), e) && buffered
      ensures ok ==> w == Step(old(w), Op.Materialize(e, 0, true))
      ensures ok ==> var id := old(w).nextId + 1;
        CommitsTo(old(w).(leases := old(w).leases[e := ReservedEvent(old(w).missing[e], id)], nextId := id), e, w)
      ensures !ok ==> w == old(w).(nextId := w.nextId)
    {
      ghost var before := w;
      var r := Reserve(e);
      if !r.Reserved? {
        return false;
      }
      assert Reservable(before, e) && w == Grant(before, e);
      ok := buffered;
      if ok {
        CommitInline(e, before);
      } else {
        ReturnLease(e, before);
      }
    }

    method DropLease(e: EventId, lease: nat)
      requires Sound()
      modifies this`w
      ensures Sound() && Bounded(old(w), w) && w == Step(old(w), Op.DropLease(e, lease))
      ensures w == if e in old(w).leases && old(w).leases[e].id == lease then old(w).(leases := old(w).leases - {e}) else old(w)
    {
      StepKeeps(w, Op.DropLease(e, lease));
      w := Dropped(w, e, lease);
    }

    /** After a commit, a payload that is no longer missing gives up its lease. */
    method CommitHook(e: EventId)
      requires Sound()
      modifies this`w
      ensures Sound() && Bounded(old(w), w) && w == Step(old(w), Op.CommitHook(e))
      ensures e !in old(w).missing ==> w == old(w).(leases := old(w).leases - {e})
      ensures e in old(w).missing ==> w == old(w)
    {
      StepKeeps(w, Op.CommitHook(e));
      w := Hooked(w, e);
    }

    /** Reattachment ends every logical lease and keeps the retained totals. */
    method Reattach()
      requires Sound()
      modifies this`w
      ensures Sound() && Bounded(old(w), w) && w == Step(old(w), Op.Attach)
      ensures w == old(w).(leases := map[])
    {
      StepKeeps(w, Op.Attach);
      w := w.(leases := map[]);
    }

    /** Deletion, pruning or invalidation, from the missing or the processed state. */
    method Finish(e: EventId)
      requires Sound()
      modifies this`w, this`retained, this`usage
      ensures Sound() && Bounded(old(w), w) && w == Step(old(w), Op.Finish(e))
      ensures w == if e in old(w).processed || e in old(w).missing
        then old(w).(processed := old(w).processed - {e}, missing := old(w).missing - {e}, finished := old(w).finished + {e})
        else old(w)
    {
      StepKeeps(w, Op.Finish(e));
      FinishedProcessed(w, e);
      if e in w.processed {
        var c := w.processed[e];
        BooksRemoved(w.processed, retained, usage, e);
        retained, usage := retained - c.bytes, Debited(usage, c.author, c.bytes);
      }
      w := Finished(w, e);
    }
  }
}
