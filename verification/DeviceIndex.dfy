/**
 Direct-message devices indexed by eligibility interval, and the bounded query
 that finds the newest eligible ones.
 */
module DeviceIndex {
  import opened Wrappers
  import opened DyadicCover
  import opened RankedTop

  type Account = nat
  type Device = nat

  /** Future publication tolerance in seconds. */
  const FUTURE_SKEW: nat := 300

  datatype Epoch = Epoch(publicKey: nat, sendFrom: Time, sendUntil: Time)

  datatype Latest = Latest(time: Time, event: nat, epoch: Epoch)

  datatype DeviceState = DeviceState(retired: bool, latest: Option<Latest>)

  datatype Row = Row(account: Account, prefix: Prefix, rank: Rank)

  datatype Installation = Installation(device: Device, retired: bool)

  /** Retirement is permanent; otherwise the greatest (time, event) wins. */
  function Apply(state: DeviceState, epoch: Option<Epoch>, time: Time, event: nat): DeviceState {
    if epoch.None? then DeviceState(true, None)
    else if !state.retired
         && (state.latest.None?
             || state.latest.value.time < time
             || (state.latest.value.time == time && state.latest.value.event < event))
    then state.(latest := Some(Latest(time, event, epoch.value)))
    else state
  }

  /** Whether the newest announcement may receive messages now. */
  predicate Eligible(latest: Latest, now: Time) {
    && latest.time <= (if TIME_LIMIT <= now + FUTURE_SKEW then TIME_LIMIT - 1 else now + FUTURE_SKEW)
    && latest.epoch.sendFrom <= now < latest.epoch.sendUntil
  }

  function Start(latest: Latest): Time {
    var published: Time := if latest.time < FUTURE_SKEW then 0 else latest.time - FUTURE_SKEW;
    if latest.epoch.sendFrom < published then published else latest.epoch.sendFrom
  }

  function RankOf(device: Device, latest: Latest): Rank {
    Rank(latest.time, latest.event, device)
  }

  /** The rows that one device state owns. */
  function RowsOf(account: Account, device: Device, state: DeviceState): set<Row> {
    if state.latest.None? then {}
    else
      set p | p in IntervalCover(Start(state.latest.value), state.latest.value.epoch.sendUntil) ::
        Row(account, p, RankOf(device, state.latest.value))
  }

  type Devices = map<(Account, Device), DeviceState>

  /** The index holds exactly the rows of the current device states. */
  ghost predicate Indexed(devices: Devices, index: set<Row>) {
    forall row: Row ::
      row in index <==>
      (row.account, row.rank.device) in devices
      && row in RowsOf(row.account, row.rank.device, devices[(row.account, row.rank.device)])
  }

  lemma RowsOwned(account: Account, device: Device, state: DeviceState, row: Row)
    requires row in RowsOf(account, device, state)
    ensures row.account == account && row.rank.device == device
    ensures state.latest.Some? && row.rank == RankOf(device, state.latest.value)
  {
  }

  /** Insert or remove every row of one device state. */
  method IndexDevice(index: set<Row>, account: Account, device: Device, state: DeviceState, remove: bool)
    returns (r: set<Row>)
    ensures r == if remove then index - RowsOf(account, device, state) else index + RowsOf(account, device, state)
  {
    r := index;
    if state.latest.None? {
      return;
    }
    var rank := RankOf(device, state.latest.value);
    var prefixes := IntervalPrefixes(Start(state.latest.value), state.latest.value.epoch.sendUntil);
    ghost var done := {};
    for i := 0 to |prefixes|
      invariant done == set p | p in prefixes[..i] :: Row(account, p, rank)
      invariant r == if remove then index - done else index + done
    {
      assert prefixes[..i + 1] == prefixes[..i] + [prefixes[i]];
      var row := Row(account, prefixes[i], rank);
      done := done + {row};
      r := if remove then r - {row} else r + {row};
    }
    assert prefixes[..|prefixes|] == prefixes;
  }

  /** Remove the old rows, insert the new ones: the index stays exact. */
  lemma ReplaceIndexed(devices: Devices, index: set<Row>, account: Account, device: Device, was: DeviceState,
                       now: DeviceState)
    requires Indexed(devices, index)
    requires (account, device) in devices ==> devices[(account, device)] == was
    requires (account, device) !in devices ==> was.latest.None?
    ensures Indexed(devices[(account, device) := now], index - RowsOf(account, device, was) + RowsOf(account, device, now))
  {
    var next := devices[(account, device) := now];
    var rows := index - RowsOf(account, device, was) + RowsOf(account, device, now);
    forall row: Row
      ensures row in rows <==>
        (row.account, row.rank.device) in next
        && row in RowsOf(row.account, row.rank.device, next[(row.account, row.rank.device)])
    {
      if row in RowsOf(account, device, now) {
        RowsOwned(account, device, now, row);
      }
      if row in RowsOf(account, device, was) {
        RowsOwned(account, device, was, row);
      }
    }
  }

  lemma IndexedUnique(devices: Devices, a: set<Row>, b: set<Row>)
    requires Indexed(devices, a) && Indexed(devices, b)
    ensures a == b
  {
    forall row: Row
      ensures row in a <==> row in b
    {
    }
  }

  // What the announcements received so far say about a device.

  /** One authenticated announcement; a retirement carries no epoch key. */
  datatype Announcement = Announcement(account: Account, device: Device, epoch: Option<Epoch>, time: Time, event: nat)

  ghost predicate About(a: Announcement, account: Account, device: Device) {
    a.account == account && a.device == device
  }

  ghost predicate RetiredBy(heard: set<Announcement>, account: Account, device: Device) {
    exists a :: a in heard && About(a, account, device) && a.epoch.None?
  }

  /** The stored announcement was heard, and no other one for the device is later. */
  ghost predicate IsLatest(heard: set<Announcement>, account: Account, device: Device, l: Latest) {
    && Announcement(account, device, Some(l.epoch), l.time, l.event) in heard
    && forall a | a in heard && About(a, account, device) ::
         a.time < l.time || (a.time == l.time && a.event <= l.event)
  }

  /** Retired for good by any retirement; otherwise the latest announcement, in whatever order they came. */
  ghost predicate SaysAt(devices: Devices, heard: set<Announcement>, account: Account, device: Device) {
    && ((account, device) in devices <==> exists a :: a in heard && About(a, account, device))
    && ((account, device) in devices ==>
          var state := devices[(account, device)];
          if RetiredBy(heard, account, device) then state.retired && state.latest.None?
          else !state.retired && state.latest.Some? && IsLatest(heard, account, device, state.latest.value))
  }

  ghost predicate Says(devices: Devices, heard: set<Announcement>) {
    forall account: Account, device: Device :: SaysAt(devices, heard, account, device)
  }

  lemma RetiredMore(heard: set<Announcement>, a: Announcement, account: Account, device: Device)
    ensures RetiredBy(heard + {a}, account, device) <==>
      RetiredBy(heard, account, device) || (About(a, account, device) && a.epoch.None?)
  {
    if RetiredBy(heard, account, device) {
      var r :| r in heard && About(r, account, device) && r.epoch.None?;
      assert r in heard + {a};
    }
  }

  /** One more announcement keeps every device at what has been heard about it. */
  lemma ApplySays(devices: Devices, heard: set<Announcement>, a: Announcement)
    requires Says(devices, heard)
    ensures var key := (a.account, a.device);
      var was := if key in devices then devices[key] else DeviceState(false, None);
      Says(devices[key := Apply(was, a.epoch, a.time, a.event)], heard + {a})
  {
    var key, more := (a.account, a.device), heard + {a};
    var was := if key in devices then devices[key] else DeviceState(false, None);
    var next := devices[key := Apply(was, a.epoch, a.time, a.event)];
    forall account: Account, device: Device ensures SaysAt(next, more, account, device) {
      assert SaysAt(devices, heard, account, device);
      RetiredMore(heard, a, account, device);
      if !About(a, account, device) && (account, device) in devices {
        var b :| b in heard && About(b, account, device);
        assert b in more;
      }
    }
  }

  /** An event identifier names one announcement. */
  ghost predicate Distinct(heard: set<Announcement>) {
    forall a, b | a in heard && b in heard && About(a, b.account, b.device) && a.time == b.time && a.event == b.event :: a == b
  }

  /** The same announcements lead to the same devices, in any order and with any repetition. */
  lemma DevicesConverge(a: Devices, b: Devices, heard: set<Announcement>)
    requires Distinct(heard) && Says(a, heard) && Says(b, heard)
    ensures a == b
  {
    forall account: Account, device: Device
      ensures (account, device) in a <==> (account, device) in b
      ensures (account, device) in a ==> a[(account, device)] == b[(account, device)]
    {
      assert SaysAt(a, heard, account, device) && SaysAt(b, heard, account, device);
    }
    assert a.Keys == b.Keys by {
      forall key: (Account, Device) ensures key in a <==> key in b {
        assert key == (key.0, key.1);
      }
    }
    forall key: (Account, Device) | key in a ensures a[key] == b[key] {
      assert key == (key.0, key.1);
    }
  }

  class DeviceTables {
    const self: Account
    var devices: Devices
    var index: set<Row>
    var installation: Option<Installation>
    /** Every announcement reduced so far. */
    ghost var heard: set<Announcement>

    ghost predicate Valid()
      reads this
    {
      Indexed(devices, index) && Says(devices, heard)
    }

    constructor (self: Account)
      ensures Valid() && devices == map[] && installation == None && this.self == self && heard == {}
    {
      this.self, devices, index, installation, heard := self, map[], {}, None, {};
    }

    /** Reduce one authenticated announcement; a retirement also retires the local installation. */
    method Announce(author: Account, device: Device, epoch: Option<Epoch>, time: Time, event: nat)
      requires Valid()
      modifies this
      ensures Valid() && heard == old(heard) + {Announcement(author, device, epoch, time, event)}
      ensures forall key: (Account, Device) | key != (author, device) ::
        (key in devices <==> key in old(devices)) && (key in devices ==> devices[key] == old(devices)[key])
      ensures installation ==
        if author == self && RetiredBy(heard, author, device) && old(installation).Some? && old(installation).value.device == device
        then Some(Installation(device, true)) else old(installation)
    {
      var state := if (author, device) in devices then devices[(author, device)] else DeviceState(false, None);
      var next := Apply(state, epoch, time, event);
      ReplaceIndexed(devices, index, author, device, state, next);
      ApplySays(devices, heard, Announcement(author, device, epoch, time, event));
      index := IndexDevice(index, author, device, state, true);
      index := IndexDevice(index, author, device, next, false);
      devices := devices[(author, device) := next];
      heard := heard + {Announcement(author, device, epoch, time, event)};
      assert SaysAt(devices, heard, author, device);
      if author == self && next.retired && installation.Some? && installation.value.device == device {
        installation := Some(Installation(device, true));
      }
    }

    /** A run reduces any sequence of announcements. */
    method AnnounceAll(announcements: seq<Announcement>)
      requires Valid()
      modifies this
      ensures Valid() && heard == old(heard) + set a | a in announcements
    {
      for i := 0 to |announcements|
        invariant Valid() && heard == old(heard) + set a | a in announcements[..i]
      {
        var a := announcements[i];
        Announce(a.account, a.device, a.epoch, a.time, a.event);
        assert announcements[..i + 1] == announcements[..i] + [a];
      }
      assert announcements[..|announcements|] == announcements;
    }

    /** Drop the index and refill it from the device table. */
    method RebuildIndex()
      modifies this`index
      ensures Indexed(devices, index)
      ensures old(Valid()) ==> Valid() && index == old(index)
    {
      index := {};
      var rest := devices.Keys;
      while rest != {}
        invariant rest <= devices.Keys
        invariant Indexed(devices - rest, index)
        decreases rest
      {
        var key :| key in rest;
        assert devices - (rest - {key}) == (devices - rest)[key := devices[key]];
        ReplaceIndexed(devices - rest, index, key.0, key.1, DeviceState(false, None), devices[key]);
        index := IndexDevice(index, key.0, key.1, devices[key], false);
        rest := rest - {key};
      }
      assert devices - rest == devices;
      if old(Valid()) {
        IndexedUnique(devices, index, old(index));
      }
    }
  }
}
