/**
 The account-scoped ledger shared by logical leases, payload buffers and provisional
 allocations. Guards are objects; dropping one is an explicit call of its `Drop`.

 The ghost table `charges` lists the live guards with the bytes they hold.
 */
module AdmissionLedger {
  import opened Wrappers
  import opened Sums
  import opened AdmissionCapacity

  datatype Refusal = SlotsExhausted | BytesExhausted | ReservationExpired | LedgerAttached

  datatype Outcome<T> = Granted(value: T) | Refused(reason: Refusal)

  lemma DropCharge(charges: map<object, int>, guard: object)
    requires guard in charges && NonNegative<object>(charges)
    ensures var rest := charges - {guard};
      |rest| == |charges| - 1 && Sum<object>(rest) == Sum<object>(charges) - charges[guard] && 0 <= Sum<object>(rest)
  {
    SumRemove<object>(charges, guard);
    SumNonNegative<object>(charges - {guard});
    assert (charges - {guard}).Keys == charges.Keys - {guard};
  }

  /** Moving a charge between guards changes neither the count nor the sum. */
  lemma TransferCharge(charges: map<object, int>, from: object, to: object)
    requires from in charges && to !in charges && NonNegative<object>(charges)
    ensures var moved := (charges - {from})[to := charges[from]];
      |moved| == |charges| && Sum<object>(moved) == Sum<object>(charges) && NonNegative<object>(moved)
  {
    SumRemove<object>(charges, from);
    SumUpdate<object>(charges - {from}, to, charges[from]);
    var moved := (charges - {from})[to := charges[from]];
    assert moved.Keys == charges.Keys - {from} + {to};
    assert |charges.Keys - {from} + {to}| == |charges.Keys|;
  }

  class Ledger {
    const config: Option<Config>
    var leases: map<EventId, ReservedEvent>
    var nextId: nat
    var buffers: int
    var bufferBytes: int
    var pressureRevision: nat
    var attached: bool
    ghost var charges: map<object, int>

    /** Counters equal the live guards, and configured limits hold. */
    ghost predicate Valid()
      reads this
    {
      && buffers == |charges|
      && bufferBytes == Sum<object>(charges)
      && NonNegative<object>(charges)
      && (config.None? ==> charges == map[])
      && (config.Some? ==> buffers <= config.value.inFlightCount && bufferBytes <= config.value.inFlightBytes)
      && (forall e | e in leases :: leases[e].id <= nextId)
      && (forall e, f | e in leases && f in leases && leases[e].id == leases[f].id :: e == f)
    }

    constructor (config: Option<Config>)
      ensures Valid() && this.config == config && charges == map[] && leases == map[] && !attached
    {
      this.config, leases, nextId, buffers, bufferBytes, pressureRevision, attached := config, map[], 0, 0, 0, 0, false;
      charges := map[];
    }

    /** The lease table lists this event under this identity. */
    ghost predicate Holds(event: EventId, id: nat)
      reads this
    {
      event in leases && leases[event].id == id
    }

    /** Whether a lease identity still owns its event. */
    predicate Owns(event: EventId, id: nat)
      reads this
    {
      event in leases && leases[event].id == id
    }

    /** The leases, their identities and the attachment are as before. */
    twostate predicate SameLeases()
      reads this
    {
      && leases == old(leases) && nextId == old(nextId)
      && attached == old(attached) && pressureRevision == old(pressureRevision)
    }

    /** Add one guard if a slot and the byte budget allow it; otherwise nothing changes. */
    method Charge(bytes: nat, ghost guard: object) returns (r: Outcome<()>)
      requires Valid() && config.Some? && guard !in charges
      modifies this`buffers, this`bufferBytes, this`charges
      ensures Valid()
      ensures r.Granted? <==>
        old(buffers) < config.value.inFlightCount && old(bufferBytes) + bytes <= config.value.inFlightBytes
      ensures r.Granted? ==> charges == old(charges)[guard := bytes]
      ensures r.Refused? ==> charges == old(charges) && buffers == old(buffers) && bufferBytes == old(bufferBytes)
      ensures r.Refused? ==> r.reason == if config.value.inFlightCount <= old(buffers) then SlotsExhausted else BytesExhausted
    {
      if config.value.inFlightCount <= buffers {
        return Refused(SlotsExhausted);
      }
      if config.value.inFlightBytes < bufferBytes + bytes {
        return Refused(BytesExhausted);
      }
      SumUpdate<object>(charges, guard, bytes);
      buffers := buffers + 1;
      bufferBytes := bufferBytes + bytes;
      charges := charges[guard := bytes];
      return Granted(());
    }

    /** Release one live guard; the counters cannot underflow. */
    method Release(bytes: nat, ghost guard: object)
      requires Valid() && guard in charges && charges[guard] == bytes
      modifies this`buffers, this`bufferBytes, this`charges
      ensures Valid() && charges == old(charges) - {guard}
      ensures 0 <= buffers == old(buffers) - 1 && 0 <= bufferBytes == old(bufferBytes) - bytes
    {
      DropCharge(charges, guard);
      buffers := buffers - 1;
      bufferBytes := bufferBytes - bytes;
      charges := charges - {guard};
    }

    /** Lease a Missing event after the capacity check; identities are never reused. */
    method Lease(event: EventId, charge: Charge) returns (owner: ReservationOwner)
      requires Valid() && event !in leases
      modifies this`leases, this`nextId, this`pressureRevision
      ensures Valid() && fresh(owner)
      ensures owner.ledger == this && owner.event == event && owner.bytes == charge.bytes
      ensures old(nextId) < owner.id == nextId
      ensures leases == old(leases)[event := ReservedEvent(charge, owner.id)]
      ensures pressureRevision == old(pressureRevision) + 1
    {
      nextId := nextId + 1;
      pressureRevision := pressureRevision + 1;
      leases := leases[event := ReservedEvent(charge, nextId)];
      owner := new ReservationOwner(this, event, charge.bytes, nextId);
    }

    /** Reserve provisional buffer capacity; a disabled ledger charges nothing. */
    method ReserveAllocation(bytes: nat) returns (r: Outcome<Option<PayloadAllocation>>)
      requires Valid()
      modifies this`buffers, this`bufferBytes, this`charges
      ensures Valid()
      ensures config.None? ==> r == Granted(None) && charges == old(charges)
      ensures r.Granted? && r.value.Some? ==>
        && fresh(r.value.value) && r.value.value.Valid() && r.value.value.ledger == this && r.value.value.bytes == bytes
        && charges == old(charges)[r.value.value := bytes]
      ensures r.Refused? ==> charges == old(charges)
      ensures config.Some? ==> (r.Granted? && r.value.Some? <==>
        old(buffers) < config.value.inFlightCount && old(bufferBytes) + bytes <= config.value.inFlightBytes)
    {
      if config.None? {
        return Granted(None);
      }
      var allocation := new PayloadAllocation(bytes);
      var charged := Charge(bytes, allocation);
      if charged.Refused? {
        return Refused(charged.reason);
      }
      allocation.ledger := this;
      return Granted(Some(allocation));
    }

    /** The attached database was dropped; guards it handed out may outlive it. */
    method Detach()
      requires Valid()
      modifies this`attached
      ensures Valid() && !attached
    {
      attached := false;
    }

    /** Attach to a newly opened database: logical leases end, outstanding buffer charges stay. */
    method Attach() returns (r: Outcome<()>)
      requires Valid()
      modifies this`leases, this`pressureRevision, this`attached
      ensures Valid()
      ensures r.Granted? <==> !old(attached)
      ensures r.Granted? ==> leases == map[] && attached && pressureRevision == old(pressureRevision) + 1
      ensures r.Refused? ==> leases == old(leases) && attached == old(attached) && pressureRevision == old(pressureRevision)
    {
      if attached {
        return Refused(LedgerAttached);
      }
      pressureRevision := pressureRevision + 1;
      leases := map[];
      attached := true;
      return Granted(());
    }
  }

  /** Identity of one logical lease; buffers may extend its lifetime. */
  class ReservationOwner {
    const ledger: Ledger
    const event: EventId
    const bytes: nat
    const id: nat

    constructor (ledger: Ledger, event: EventId, bytes: nat, id: nat)
      ensures this.ledger == ledger && this.event == event && this.bytes == bytes && this.id == id
    {
      this.ledger, this.event, this.bytes, this.id := ledger, event, bytes, id;
    }

    /** Reserve one actual buffer for the leased event. */
    method TryAcquireBuffer() returns (r: Outcome<PayloadBuffer>)
      requires ledger.Valid()
      modifies ledger`buffers, ledger`bufferBytes, ledger`charges
      ensures ledger.Valid()
      ensures r.Granted? <==>
        && ledger.Holds(event, id) && ledger.config.Some?
        && old(ledger.buffers) < ledger.config.value.inFlightCount
        && old(ledger.bufferBytes) + bytes <= ledger.config.value.inFlightBytes
      ensures r.Granted? ==>
        && fresh(r.value) && r.value.owner == this && r.value.bytes == bytes
        && ledger.charges == old(ledger.charges)[r.value := bytes]
      ensures r.Refused? ==> ledger.charges == old(ledger.charges)
    {
      if !ledger.Owns(event, id) || ledger.config.None? {
        return Refused(ReservationExpired);
      }
      var buffer := new PayloadBuffer(this, bytes);
      var charged := ledger.Charge(bytes, buffer);
      if charged.Refused? {
        return Refused(charged.reason);
      }
      return Granted(buffer);
    }

    /** Cancel the lease, unless a newer owner has replaced it. */
    method Drop()
      requires ledger.Valid()
      modifies ledger`leases, ledger`pressureRevision
      ensures ledger.Valid()
      ensures ledger.leases == if old(ledger.Holds(event, id)) then old(ledger.leases) - {event} else old(ledger.leases)
      ensures ledger.pressureRevision == old(ledger.pressureRevision) + if old(ledger.Holds(event, id)) then 1 else 0
      ensures forall e, newer | e in old(ledger.leases) && newer == old(ledger.leases)[e].id && newer != id ::
        ledger.Holds(e, newer)
    {
      if ledger.Owns(event, id) {
        ledger.pressureRevision := ledger.pressureRevision + 1;
        ledger.leases := ledger.leases - {event};
      }
    }
  }

  /** One payload-sized buffer charge. */
  class PayloadBuffer {
    const owner: ReservationOwner
    const bytes: nat

    constructor (owner: ReservationOwner, bytes: nat)
      ensures this.owner == owner && this.bytes == bytes
    {
      this.owner, this.bytes := owner, bytes;
    }

    ghost predicate Live()
      reads owner.ledger
    {
      this in owner.ledger.charges && owner.ledger.charges[this] == bytes
    }

    method Drop()
      requires owner.ledger.Valid() && Live()
      modifies owner.ledger`buffers, owner.ledger`bufferBytes, owner.ledger`charges
      ensures owner.ledger.Valid() && owner.ledger.charges == old(owner.ledger.charges) - {this}
      ensures !Live()
    {
      owner.ledger.Release(bytes, this);
    }
  }

  /** Provisional capacity for bytes received before their envelope is verified. */
  class PayloadAllocation {
    var ledger: Ledger?
    var bytes: nat

    /** An armed allocation holds exactly its own charge. */
    ghost predicate Valid()
      reads this, ledger
    {
      ledger != null ==> this in ledger.charges && ledger.charges[this] == bytes
    }

    constructor (bytes: nat)
      ensures ledger == null && this.bytes == bytes
    {
      this.ledger, this.bytes := null, bytes;
    }

    /** Extend the charge before extending the bytes it covers. */
    method TryGrow(size: nat) returns (r: Outcome<()>)
      requires Valid() && (ledger != null ==> ledger.Valid())
      modifies this`bytes, ledger
      ensures Valid() && ledger == old(ledger)
      ensures ledger == null ==> r.Refused?
      ensures ledger != null ==>
        && ledger.Valid()
        && (r.Granted? ==>
              && bytes == (if old(bytes) < size then size else old(bytes))
              && ledger.charges == old(ledger.charges)[this := bytes])
        && (r.Refused? ==> bytes == old(bytes) && ledger.charges == old(ledger.charges))
        && ledger.buffers == old(ledger.buffers) && ledger.SameLeases()
      ensures ledger != null && ledger.config.Some? ==>
        (r.Granted? <==> size <= old(bytes) || old(ledger.bufferBytes) + (size - old(bytes)) <= ledger.config.value.inFlightBytes)
    {
      if ledger == null {
        return Refused(ReservationExpired);
      }
      if size <= bytes {
        assert ledger.charges[this := bytes] == ledger.charges;
        return Granted(());
      }
      if ledger.config.None? {
        return Refused(ReservationExpired);
      }
      if ledger.config.value.inFlightBytes < ledger.bufferBytes + (size - bytes) {
        return Refused(BytesExhausted);
      }
      SumUpdate<object>(ledger.charges, this, size);
      assert ledger.charges[this := size].Keys == ledger.charges.Keys;
      ledger.bufferBytes := ledger.bufferBytes + (size - bytes);
      ledger.charges := ledger.charges[this := size];
      bytes := size;
      return Granted(());
    }

    /** Hand the whole charge to a verified lease: no second slot, no uncharged interval. */
    method BindToReservation(reservation: ReservationOwner) returns (r: Outcome<PayloadBuffer>)
      requires Valid() && (ledger != null ==> ledger.Valid())
      modifies this`ledger, ledger
      ensures old(ledger) != null ==> old(ledger).Valid() && old(ledger).SameLeases()
      ensures r.Granted? <==>
        old(ledger) != null && old(ledger) == reservation.ledger && reservation.bytes <= bytes
        && old(ledger).Holds(reservation.event, reservation.id)
      ensures r.Granted? ==>
        && ledger == null
        && fresh(r.value) && r.value.owner == reservation && r.value.bytes == bytes && r.value.Live()
        && old(ledger).charges == (old(ledger.charges) - {this})[r.value := bytes]
        && old(ledger).buffers == old(ledger.buffers) && old(ledger).bufferBytes == old(ledger.bufferBytes)
      ensures r.Refused? ==> ledger == old(ledger) && (ledger != null ==> ledger.charges == old(ledger.charges))
    {
      if ledger == null || ledger != reservation.ledger || bytes < reservation.bytes {
        return Refused(ReservationExpired);
      }
      if !ledger.Owns(reservation.event, reservation.id) {
        return Refused(ReservationExpired);
      }
      var buffer := new PayloadBuffer(reservation, bytes);
      TransferCharge(ledger.charges, this, buffer);
      ledger.charges := (ledger.charges - {this})[buffer := bytes];
      ledger := null;
      return Granted(buffer);
    }

    method Drop()
      requires Valid() && (ledger != null ==> ledger.Valid())
      modifies this`ledger, ledger
      ensures ledger == null
      ensures old(ledger) != null ==>
        old(ledger).Valid() && old(ledger).charges == old(ledger.charges) - {this} && old(ledger).SameLeases()
    {
      if ledger != null {
        ledger.Release(bytes, this);
        ledger := null;
      }
    }
  }
}
