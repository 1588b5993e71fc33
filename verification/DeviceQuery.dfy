/**
 Destination selection: merging the newest rows of 65 buckets gives exactly the
 newest eligible devices, and the fixed four-plus-four spillover fills the slots.
 */
module DeviceQuery {
  import opened Wrappers
  import opened DyadicCover
  import opened RankedTop
  import opened DeviceIndex
  import Sums

  /** The rows stored under one prefix of one account. */
  function Bucket(index: set<Row>, account: Account, prefix: Prefix): set<Rank> {
    set row | row in index && row.account == account && row.prefix == prefix :: row.rank
  }

  function Filter(ranks: set<Rank>, excluded: Option<Device>): set<Rank> {
    set x | x in ranks && excluded != Some(x.device)
  }

  /** Announced at most 300 seconds ahead of now, with a key that may be used now. */
  ghost predicate MayReceive(latest: Latest, now: Time) {
    latest.time <= now + 300 && latest.epoch.sendFrom <= now && now < latest.epoch.sendUntil
  }

  /** The simple form: every device of the account that is eligible now. */
  ghost function EligibleRanks(devices: Devices, account: Account, now: Time): set<Rank> {
    set key | key in devices && key.0 == account && devices[key].latest.Some? && MayReceive(devices[key].latest.value, now) ::
      Rank(devices[key].latest.value.time, devices[key].latest.value.event, key.1)
  }

  /** The consistency check of a selected row against the device table. */
  predicate RowCurrent(devices: Devices, account: Account, now: Time, rank: Rank) {
    && (account, rank.device) in devices
    && devices[(account, rank.device)].latest.Some?
    && RankOf(rank.device, devices[(account, rank.device)].latest.value) == rank
    && Eligible(devices[(account, rank.device)].latest.value, now)
  }

  lemma EligibleInterval(latest: Latest, now: Time)
    ensures Eligible(latest, now) <==> Start(latest) <= now < latest.epoch.sendUntil
    ensures Eligible(latest, now) <==> MayReceive(latest, now)
  {
  }

  /** A bucket of a point prefix holds only devices that are eligible now, one row per device. */
  lemma BucketSound(devices: Devices, index: set<Row>, account: Account, now: Time, d: nat, rank: Rank)
    requires Indexed(devices, index) && d <= 64 && rank in Bucket(index, account, PointPrefix(now, d))
    ensures RowCurrent(devices, account, now, rank) && rank in EligibleRanks(devices, account, now)
    ensures Hits(Start(devices[(account, rank.device)].latest.value), devices[(account, rank.device)].latest.value.epoch.sendUntil, now) == {d}
  {
    var row := Row(account, PointPrefix(now, d), rank);
    assert row in index;
    var state := devices[(account, rank.device)];
    RowsOwned(account, rank.device, state, row);
    var latest := state.latest.value;
    assert d in Hits(Start(latest), latest.epoch.sendUntil, now);
    PointQuery(Start(latest), latest.epoch.sendUntil, now);
    EligibleInterval(latest, now);
    assert (account, rank.device) in devices;
  }

  /** Every eligible device is in some bucket of the point. */
  lemma BucketComplete(devices: Devices, index: set<Row>, account: Account, now: Time, rank: Rank) returns (d: nat)
    requires Indexed(devices, index) && rank in EligibleRanks(devices, account, now)
    ensures d <= 64 && rank in Bucket(index, account, PointPrefix(now, d))
  {
    var key :| key in devices && key.0 == account && devices[key].latest.Some?
      && MayReceive(devices[key].latest.value, now) && Rank(devices[key].latest.value.time, devices[key].latest.value.event, key.1) == rank;
    var latest := devices[key].latest.value;
    EligibleInterval(latest, now);
    PointQuery(Start(latest), latest.epoch.sendUntil, now);
    d :| Hits(Start(latest), latest.epoch.sendUntil, now) == {d};
    assert d in Hits(Start(latest), latest.epoch.sendUntil, now);
    var row := Row(account, PointPrefix(now, d), rank);
    assert key == (row.account, row.rank.device);
    assert row in RowsOf(account, key.1, devices[key]);
    assert row in index;
  }

  /** Targets found in the buckets of the first k depths. */
  ghost function Seen(index: set<Row>, account: Account, now: Time, excluded: Option<Device>, k: nat): set<Rank>
    requires k <= 65
  {
    set row | row in index && row.account == account && excluded != Some(row.rank.device)
      && row.prefix.depth < k && row.prefix == PointPrefix(now, row.prefix.depth) :: row.rank
  }

  lemma SeenStep(index: set<Row>, account: Account, now: Time, excluded: Option<Device>, k: nat)
    requires k < 65
    ensures Seen(index, account, now, excluded, k + 1) ==
      Seen(index, account, now, excluded, k) + Filter(Bucket(index, account, PointPrefix(now, k)), excluded)
  {
    var bucket := Filter(Bucket(index, account, PointPrefix(now, k)), excluded);
    forall x | x in bucket
      ensures x in Seen(index, account, now, excluded, k + 1)
    {
      assert Row(account, PointPrefix(now, k), x) in index;
    }
  }

  lemma SeenAll(devices: Devices, index: set<Row>, account: Account, now: Time, excluded: Option<Device>)
    requires Indexed(devices, index)
    ensures Seen(index, account, now, excluded, 65) == Filter(EligibleRanks(devices, account, now), excluded)
  {
    forall x | x in Seen(index, account, now, excluded, 65)
      ensures x in EligibleRanks(devices, account, now)
    {
      var row :| row in index && row.account == account && excluded != Some(row.rank.device)
        && row.prefix.depth < 65 && row.prefix == PointPrefix(now, row.prefix.depth) && row.rank == x;
      assert x in Bucket(index, account, row.prefix);
      BucketSound(devices, index, account, now, row.prefix.depth, x);
    }
    forall x | x in Filter(EligibleRanks(devices, account, now), excluded)
      ensures x in Seen(index, account, now, excluded, 65)
    {
      var d := BucketComplete(devices, index, account, now, x);
      assert Row(account, PointPrefix(now, d), x) in index;
    }
  }

  /** The same device is never found at two depths. */
  lemma SeenFresh(devices: Devices, index: set<Row>, account: Account, now: Time, excluded: Option<Device>, k: nat,
                  x: Rank)
    requires Indexed(devices, index) && k < 65 && x in Bucket(index, account, PointPrefix(now, k))
    ensures x !in Seen(index, account, now, excluded, k)
  {
    if x in Seen(index, account, now, excluded, k) {
      var row :| row in index && row.account == account && excluded != Some(row.rank.device)
        && row.prefix.depth < k && row.prefix == PointPrefix(now, row.prefix.depth) && row.rank == x;
      BucketSound(devices, index, account, now, k, x);
      BucketSound(devices, index, account, now, row.prefix.depth, x);
    }
  }

  lemma OneExcluded(ranks: set<Rank>, excluded: Option<Device>)
    requires forall x, y | x in ranks && y in ranks && x.device == y.device :: x == y
    ensures |ranks| <= |Filter(ranks, excluded)| + 1
  {
    var own := ranks - Filter(ranks, excluded);
    assert ranks == Filter(ranks, excluded) + own;
    if own != {} {
      var x :| x in own;
      assert own == {x};
    }
  }

  /** One spare row per bucket makes up for the excluded installation. */
  lemma BucketDone(selected: seq<Rank>, seen: set<Rank>, bucket: set<Rank>, taken: seq<Rank>,
                   excluded: Option<Device>, slots: nat)
    requires IsTop(taken, bucket, slots + 1)
    requires forall x, y | x in bucket && y in bucket && x.device == y.device :: x == y
    requires IsTop(selected, seen + Filter(Members(taken), excluded), slots)
    ensures IsTop(selected, seen + Filter(bucket, excluded), slots)
  {
    var kept := Filter(Members(taken), excluded);
    SortedDistinct(taken);
    forall x | x in seen + Filter(bucket, excluded) && x !in seen + kept
      ensures Behind(x, seen + kept, slots)
    {
      if |taken| == |bucket| {
        SubsetEqual(Members(taken), bucket);
      }
      OneExcluded(Members(taken), excluded);
      assert AllNewer(kept, x);
    }
    TopIgnores(selected, seen + kept, seen + Filter(bucket, excluded), slots);
  }

  lemma BucketDevices(devices: Devices, index: set<Row>, account: Account, now: Time, k: nat)
    requires Indexed(devices, index) && k < 65
    ensures var bucket := Bucket(index, account, PointPrefix(now, k));
      forall x, y | x in bucket && y in bucket && x.device == y.device :: x == y
  {
    var bucket := Bucket(index, account, PointPrefix(now, k));
    forall x | x in bucket
      ensures RowCurrent(devices, account, now, x)
    {
      BucketSound(devices, index, account, now, k, x);
    }
  }

  /** Pushing the next taken row, or skipping the excluded one, keeps the running selection the newest. */
  lemma MergeStep(top: seq<Rank>, seen: set<Rank>, taken: seq<Rank>, i: nat, excluded: Option<Device>, slots: nat)
    requires i < |taken| && Sorted(taken) && taken[i] !in seen
    requires IsTop(top, seen + Filter(Members(taken[..i]), excluded), slots)
    ensures var all := seen + Filter(Members(taken[..i + 1]), excluded);
      if excluded == Some(taken[i].device) then IsTop(top, all, slots)
      else IsTop(Truncate(InsertRanked(top, taken[i]), slots), all, slots)
  {
    var rank, before := taken[i], seen + Filter(Members(taken[..i]), excluded);
    var after := seen + Filter(Members(taken[..i + 1]), excluded);
    assert Members(taken[..i + 1]) == Members(taken[..i]) + {rank};
    if excluded == Some(rank.device) {
      assert after == before;
    } else {
      assert after == before + {rank};
      InsertTop(top, before, slots, rank);
    }
  }

  /** Merge the taken rows of one bucket into the running selection. */
  method MergeBucket(devices: Devices, account: Account, now: Time, excluded: Option<Device>, slots: nat,
                     selected: seq<Rank>, taken: seq<Rank>, ghost seen: set<Rank>)
    returns (r: Result<seq<Rank>>)
    requires IsTop(selected, seen, slots) && Sorted(taken)
    requires forall x | x in taken :: x !in seen
    ensures (forall x | x in taken :: RowCurrent(devices, account, now, x)) ==> r.Ok?
    ensures r.Ok? ==> IsTop(r.value, seen + Filter(Members(taken), excluded), slots)
  {
    var top := selected;
    assert seen + Filter(Members(taken[..0]), excluded) == seen;
    for i := 0 to |taken|
      invariant IsTop(top, seen + Filter(Members(taken[..i]), excluded), slots)
    {
      MergeStep(top, seen, taken, i, excluded, slots);
      if excluded != Some(taken[i].device) {
        if !RowCurrent(devices, account, now, taken[i]) {
          return Err(DirectMessageInvalid);
        }
        top := Truncate(InsertRanked(top, taken[i]), slots);
      }
    }
    assert taken[..|taken|] == taken;
    r := Ok(top);
  }

  /**
   The bounded query: at most `slots + 1` rows of each of the 65 buckets.
   With an exact index it equals filtering and sorting all devices.
   */
  method Candidates(devices: Devices, index: set<Row>, account: Account, now: Time, excluded: Option<Device>,
                    slots: nat)
    returns (r: Result<seq<Rank>>)
    requires Indexed(devices, index)
    ensures r.Ok? && IsTop(r.value, Filter(EligibleRanks(devices, account, now), excluded), slots)
  {
    var selected: seq<Rank> := [];
    var prefixes := PointPrefixes(now);
    assert Seen(index, account, now, excluded, 0) == {};
    for k := 0 to |prefixes|
      invariant IsTop(selected, Seen(index, account, now, excluded, k), slots)
    {
      var bucket := Bucket(index, account, prefixes[k]);
      var taken := TakeNewest(bucket, slots + 1);
      ghost var seen := Seen(index, account, now, excluded, k);
      forall x | x in taken
        ensures x !in seen && RowCurrent(devices, account, now, x)
      {
        assert x in Members(taken);
        SeenFresh(devices, index, account, now, excluded, k, x);
        BucketSound(devices, index, account, now, k, x);
      }
      var merged := MergeBucket(devices, account, now, excluded, slots, selected, taken, seen);
      BucketDevices(devices, index, account, now, k);
      BucketDone(merged.value, seen, bucket, taken, excluded, slots);
      SeenStep(index, account, now, excluded, k);
      selected := merged.value;
    }
    SeenAll(devices, index, account, now, excluded);
    r := Ok(selected);
  }

  // Four slots for each side, and each side may use what the other leaves.

  const SLOT_COUNT: nat := 8

  function Min(a: nat, b: nat): nat { if a < b then a else b }

  function Minus(a: nat, b: nat): nat { if a < b then 0 else a - b }

  function RecipientCount(recipients: nat, senders: nat): nat {
    Min(recipients, 4) + Min(Minus(recipients, 4), Minus(4, senders))
  }

  function SenderCount(recipients: nat, senders: nat): nat {
    Min(senders, Minus(SLOT_COUNT, RecipientCount(recipients, senders)))
  }

  lemma Spillover(recipients: nat, senders: nat)
    requires recipients <= SLOT_COUNT && senders <= SLOT_COUNT
    ensures var r, s := RecipientCount(recipients, senders), SenderCount(recipients, senders);
      && r <= recipients && s <= senders
      && r + s == (if recipients + senders < 8 then recipients + senders else 8)
      && (r < 4 ==> r == recipients) && (s < 4 ==> s == senders)
  {
  }

  /** Chosen devices and the window in which every chosen key may be used. */
  datatype SendPermit = SendPermit(recipients: seq<Rank>, senders: seq<Rank>, sendFrom: Time, sendUntil: Time)

  /** A device's key may be used from its own start, and from 300 seconds before it was announced. */
  ghost function WindowStart(devices: Devices, account: Account, x: Rank): int {
    if (account, x.device) in devices && devices[(account, x.device)].latest.Some? then
      var latest := devices[(account, x.device)].latest.value;
      if latest.epoch.sendFrom <= latest.time - 300 then latest.time - 300 else latest.epoch.sendFrom
    else 0
  }

  ghost function WindowEnd(devices: Devices, account: Account, x: Rank): Time {
    if (account, x.device) in devices && devices[(account, x.device)].latest.Some?
    then devices[(account, x.device)].latest.value.epoch.sendUntil else TIME_LIMIT - 1
  }

  /** Narrow a window to that of every listed device. */
  method Narrow(devices: Devices, account: Account, now: Time, ranks: seq<Rank>, from: Time, until: Time)
    returns (sendFrom: Time, sendUntil: Time)
    requires forall x | x in ranks :: RowCurrent(devices, account, now, x)
    requires from <= now < until
    ensures from <= sendFrom <= now < sendUntil <= until
    ensures forall x | x in ranks ::
      WindowStart(devices, account, x) <= sendFrom
      && sendUntil <= WindowEnd(devices, account, x)
    ensures sendFrom == from || exists x :: x in ranks && WindowStart(devices, account, x) == sendFrom
    ensures sendUntil == until || exists x :: x in ranks && WindowEnd(devices, account, x) == sendUntil
  {
    sendFrom, sendUntil := from, until;
    for i := 0 to |ranks|
      invariant from <= sendFrom <= now < sendUntil <= until
      invariant forall j | 0 <= j < i ::
        WindowStart(devices, account, ranks[j]) <= sendFrom
        && sendUntil <= WindowEnd(devices, account, ranks[j])
      invariant sendFrom == from || exists x :: x in ranks && WindowStart(devices, account, x) == sendFrom
      invariant sendUntil == until || exists x :: x in ranks && WindowEnd(devices, account, x) == sendUntil
    {
      assert ranks[i] in ranks;
      var latest := devices[(account, ranks[i].device)].latest.value;
      EligibleInterval(latest, now);
      if sendFrom < Start(latest) {
        sendFrom := Start(latest);
      }
      if latest.epoch.sendUntil < sendUntil {
        sendUntil := latest.epoch.sendUntil;
      }
    }
  }

  /** The window is the whole time in which every chosen key may be used: its ends are the last start and the first end. */
  ghost predicate CommonWindow(devices: Devices, recipient: Account, self: Account, p: SendPermit) {
    && (forall x | x in p.recipients ::
         WindowStart(devices, recipient, x) <= p.sendFrom && p.sendUntil <= WindowEnd(devices, recipient, x))
    && (forall x | x in p.senders :: WindowStart(devices, self, x) <= p.sendFrom && p.sendUntil <= WindowEnd(devices, self, x))
    && ((exists x :: x in p.recipients && WindowStart(devices, recipient, x) == p.sendFrom)
        || (exists x :: x in p.senders && WindowStart(devices, self, x) == p.sendFrom))
    && ((exists x :: x in p.recipients && WindowEnd(devices, recipient, x) == p.sendUntil)
        || (exists x :: x in p.senders && WindowEnd(devices, self, x) == p.sendUntil))
  }

  method ChooseWindow(devices: Devices, recipient: Account, self: Account, now: Time, first: seq<Rank>, second: seq<Rank>)
    returns (p: SendPermit)
    requires first != [] && now < TIME_LIMIT - 1
    requires forall x | x in first :: RowCurrent(devices, recipient, now, x)
    requires forall x | x in second :: RowCurrent(devices, self, now, x)
    ensures p.recipients == first && p.senders == second && p.sendFrom <= now < p.sendUntil
    ensures CommonWindow(devices, recipient, self, p)
  {
    var from, until := Narrow(devices, recipient, now, first, 0, TIME_LIMIT - 1);
    from, until := Narrow(devices, self, now, second, from, until);
    assert first[0] in first;
    p := SendPermit(first, second, from, until);
  }

  lemma TopCurrent(devices: Devices, account: Account, now: Time, excluded: Option<Device>, top: seq<Rank>, x: Rank)
    requires Members(top) <= Filter(EligibleRanks(devices, account, now), excluded) && x in top
    ensures RowCurrent(devices, account, now, x)
  {
    assert x in Members(top);
  }

  /** A prefix of the newest n is the newest of its own length. */
  lemma TopPrefix(top: seq<Rank>, all: set<Rank>, n: nat, k: nat)
    requires IsTop(top, all, n) && k <= |top|
    ensures IsTop(top[..k], all, k)
  {
    var p := top[..k];
    forall x, y | x in all && x !in p && y in p
      ensures Above(y, x)
    {
      if x in top {
        var i :| 0 <= i < |top| && top[i] == x;
        var j :| 0 <= j < k && p[j] == y;
        assert k <= i;
      } else {
        assert y in top;
      }
    }
    SortedDistinct(top);
    Sums.SubsetCount(Members(top), all);
    assert Members(p) <= Members(top);
  }

  /**
   Destination selection for one message. Refused when the local installation is retired or
   the recipient has no eligible device; otherwise the newest devices of each side fill the slots.
   */
  method Destinations(devices: Devices, index: set<Row>, self: Account, installation: Option<Installation>,
                      recipient: Account, now: Time)
    returns (permit: Option<SendPermit>)
    requires Indexed(devices, index)
    ensures var sending := if installation.Some? then Some(installation.value.device) else None;
      var mine := Filter(EligibleRanks(devices, self, now), sending);
      var theirs := if recipient == self then mine else EligibleRanks(devices, recipient, now);
      && (permit.None? <==> (installation.Some? && installation.value.retired) || theirs == {})
      && (permit.Some? ==>
            && IsTop(permit.value.recipients, theirs, |permit.value.recipients|)
            && IsTop(permit.value.senders, if recipient == self then {} else mine, |permit.value.senders|)
            && (var both := |theirs| + (if recipient == self then 0 else |mine|);
                |permit.value.recipients| + |permit.value.senders| == if both < 8 then both else 8)
            && (|permit.value.recipients| < 4 ==> |permit.value.recipients| == |theirs|)
            && (recipient != self && |permit.value.senders| < 4 ==> |permit.value.senders| == |mine|)
            && permit.value.sendFrom <= now < permit.value.sendUntil
            && CommonWindow(devices, recipient, self, permit.value))
  {
    if installation.Some? && installation.value.retired {
      return None;
    }
    var sending := if installation.Some? then Some(installation.value.device) else None;
    var excluded := if recipient == self then sending else None;
    ghost var theirs := Filter(EligibleRanks(devices, recipient, now), excluded);
    ghost var mine := if recipient == self then {} else Filter(EligibleRanks(devices, self, now), sending);
    assert Filter(EligibleRanks(devices, recipient, now), None) == EligibleRanks(devices, recipient, now);
    var recipients := Candidates(devices, index, recipient, now, excluded, SLOT_COUNT);
    if recipients.value == [] {
      return None;
    }
    var senders: seq<Rank> := [];
    if recipient != self {
      var own := Candidates(devices, index, self, now, sending, SLOT_COUNT);
      senders := own.value;
    }
    Spillover(|recipients.value|, |senders|);
    var first := recipients.value[..RecipientCount(|recipients.value|, |senders|)];
    var second := senders[..SenderCount(|recipients.value|, |senders|)];
    TopPrefix(recipients.value, theirs, SLOT_COUNT, |first|);
    TopPrefix(senders, mine, SLOT_COUNT, |second|);
    forall x | x in first
      ensures RowCurrent(devices, recipient, now, x)
    {
      TopCurrent(devices, recipient, now, excluded, first, x);
    }
    forall x | x in second
      ensures RowCurrent(devices, self, now, x)
    {
      TopCurrent(devices, self, now, sending, second, x);
    }
    var chosen := ChooseWindow(devices, recipient, self, now, first, second);
    permit := Some(chosen);
  }
}
