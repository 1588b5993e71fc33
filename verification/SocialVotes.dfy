/**
 Vote sums kept beside the latest vote of every voter: whatever the order and repetition of
 deliveries, a target's sum is the sum over the winning votes that point at it.
 */
module SocialVotes {
  import opened Wrappers
  import opened Sums

  const I64_MAX: int := 0x7FFF_FFFF_FFFF_FFFF
  const I64_MIN: int := -0x8000_0000_0000_0000

  /** A post by its author and its shortened identifier; two posts may share the latter. */
  datatype Target = Target(owner: nat, event: nat)

  datatype Value = Down | Neutral | Up {
    function Score(): int {
      match this
      case Down => -1
      case Neutral => 0
      case Up => 1
    }
  }

  datatype Order = Order(timestamp: nat, event: nat)

  predicate NotAfter(a: Order, b: Order) {
    a.timestamp < b.timestamp || (a.timestamp == b.timestamp && a.event <= b.event)
  }

  datatype VoteEvent = VoteEvent(voter: nat, aux: nat, singleton: bool, replyTo: Option<Target>, value: Value, order: Order)

  datatype Projection = Projection(target: Target, value: Value)

  datatype Winner = Winner(order: Order, projection: Option<Projection>)

  /** The slot a vote competes for: the voter and the target's shortened identifier. */
  datatype Slot = Slot(voter: nat, aux: nat)

  datatype Adjustment = Adjustment(target: Target, delta: int)

  function SlotOf(e: VoteEvent): Slot {
    Slot(e.voter, e.aux)
  }

  /** A vote counts when it is a singleton filed under the target it names. */
  function ProjectionOf(e: VoteEvent): Option<Projection> {
    if e.replyTo.Some? && e.singleton && e.aux == e.replyTo.value.event
    then Some(Projection(e.replyTo.value, e.value)) else None
  }

  function SaturatingAdd(a: int, b: int): int {
    if a + b < I64_MIN then I64_MIN else if I64_MAX < a + b then I64_MAX else a + b
  }

  function Adjust(sums: map<Target, int>, a: Adjustment): map<Target, int> {
    if a.delta == 0 then sums else sums[a.target := SaturatingAdd(Get<Target>(sums, a.target), a.delta)]
  }

  /** The stored winner must carry a projection filed under its own slot. */
  function ValidateProjection(winner: Winner, aux: nat): Result<Projection> {
    if winner.projection.None? then Err(MissingVoteProjection)
    else if winner.projection.value.target.event != aux then Err(InvalidVoteProjection)
    else Ok(winner.projection.value)
  }

  function Previous(winners: map<Slot, Winner>, slot: Slot): Result<Option<Projection>> {
    if slot !in winners then Ok(None)
    else
      var p := ValidateProjection(winners[slot], slot.aux);
      if p.Ok? then Ok(Some(p.value)) else Err(p.error)
  }

  function Adjustments(previous: Option<Projection>, vote: Projection): seq<Adjustment> {
    if previous.None? then [Adjustment(vote.target, vote.value.Score())]
    else if previous.value.target == vote.target
    then [Adjustment(vote.target, vote.value.Score() - previous.value.value.Score())]
    else [Adjustment(previous.value.target, -previous.value.value.Score()), Adjustment(vote.target, vote.value.Score())]
  }

  // What a sum stands for.

  /** One up for an upvote of the target, one down for a downvote. */
  ghost function Contribution(p: Option<Projection>, x: Target): int {
    if p == Some(Projection(x, Up)) then 1 else if p == Some(Projection(x, Down)) then -1 else 0
  }

  /** The score each slot's winner gives to one full target. */
  ghost function Scores(winners: map<Slot, Winner>, x: Target): map<Slot, int> {
    map k | k in winners :: Contribution(winners[k].projection, x)
  }

  ghost function Tally(winners: map<Slot, Winner>, x: Target): int {
    Sum<Slot>(Scores(winners, x))
  }

  ghost predicate ExactAt(winners: map<Slot, Winner>, sums: map<Target, int>, x: Target) {
    Get<Target>(sums, x) == Tally(winners, x)
  }

  ghost predicate SumsExact(winners: map<Slot, Winner>, sums: map<Target, int>) {
    forall x: Target :: ExactAt(winners, sums, x)
  }

  lemma TallyUpdate(winners: map<Slot, Winner>, slot: Slot, w: Winner, x: Target)
    ensures Tally(winners[slot := w], x) ==
      Tally(winners, x) + Contribution(w.projection, x) - (if slot in winners then Contribution(winners[slot].projection, x) else 0)
  {
    assert Scores(winners[slot := w], x) == Scores(winners, x)[slot := Contribution(w.projection, x)];
    SumUpdate<Slot>(Scores(winners, x), slot, Contribution(w.projection, x));
  }

  lemma {:induction false} SmallSum(m: map<Slot, int>)
    requires forall k | k in m :: -1 <= m[k] <= 1
    ensures -|m| <= Sum<Slot>(m) <= |m|
    decreases |m|
  {
    if m != map[] {
      var k :| k in m && Sum<Slot>(m) == m[k] + Sum<Slot>(m - {k});
      assert (m - {k}).Keys == m.Keys - {k};
      SmallSum(m - {k});
    }
  }

  /** No sum is larger than the number of winners, so few winners never saturate. */
  lemma TallyBounded(winners: map<Slot, Winner>, x: Target)
    ensures -|winners| <= Tally(winners, x) <= |winners|
  {
    assert Scores(winners, x).Keys == winners.Keys;
    SmallSum(Scores(winners, x));
  }

  // One delivery.

  ghost function ApplyAll(sums: map<Target, int>, adjustments: seq<Adjustment>): map<Target, int> {
    if adjustments == [] then sums
    else Adjust(ApplyAll(sums, adjustments[..|adjustments| - 1]), adjustments[|adjustments| - 1])
  }

  method ApplyAdjustments(sums: map<Target, int>, adjustments: seq<Adjustment>) returns (r: map<Target, int>)
    ensures r == ApplyAll(sums, adjustments)
  {
    r := sums;
    for i := 0 to |adjustments|
      invariant r == ApplyAll(sums, adjustments[..i])
    {
      assert adjustments[..i + 1][..i] == adjustments[..i];
      r := Adjust(r, adjustments[i]);
    }
    assert adjustments[..|adjustments|] == adjustments;
  }

  ghost predicate Fit(sums: map<Target, int>) {
    forall x | x in sums :: I64_MIN <= sums[x] <= I64_MAX
  }

  /** Saturation keeps every sum within 64 bits. */
  lemma {:induction false} AppliedFit(sums: map<Target, int>, adjustments: seq<Adjustment>)
    requires Fit(sums)
    ensures Fit(ApplyAll(sums, adjustments))
  {
    if adjustments != [] {
      AppliedFit(sums, adjustments[..|adjustments| - 1]);
    }
  }

  lemma AppliedOne(sums: map<Target, int>, a: Adjustment)
    ensures ApplyAll(sums, [a]) == Adjust(sums, a)
  {
    assert [a][..0] == [];
  }

  lemma AppliedTwo(sums: map<Target, int>, a: Adjustment, b: Adjustment)
    ensures ApplyAll(sums, [a, b]) == Adjust(Adjust(sums, a), b)
  {
    assert [a, b][..1] == [a];
    AppliedOne(sums, a);
  }

  /** Short of saturation, the adjustments move each target by the change of its contribution. */
  lemma AdjustedSum(sums: map<Target, int>, previous: Option<Projection>, vote: Projection, x: Target)
    requires I64_MIN <= Get<Target>(sums, x) - Contribution(previous, x) + Contribution(Some(vote), x) <= I64_MAX
    ensures Get<Target>(ApplyAll(sums, Adjustments(previous, vote)), x) ==
      Get<Target>(sums, x) - Contribution(previous, x) + Contribution(Some(vote), x)
  {
    if previous.Some? && previous.value.target != vote.target {
      AppliedTwo(sums, Adjustment(previous.value.target, -previous.value.value.Score()), Adjustment(vote.target, vote.value.Score()));
    } else {
      AppliedOne(sums, Adjustments(previous, vote)[0]);
    }
  }

  lemma DeliveredExact(winners: map<Slot, Winner>, sums: map<Target, int>, slot: Slot, order: Order, vote: Projection)
    requires SumsExact(winners, sums) && Previous(winners, slot).Ok?
    requires |winners[slot := Winner(order, Some(vote))]| <= I64_MAX
    ensures SumsExact(winners[slot := Winner(order, Some(vote))], ApplyAll(sums, Adjustments(Previous(winners, slot).value, vote)))
  {
    var next, after := winners[slot := Winner(order, Some(vote))], ApplyAll(sums, Adjustments(Previous(winners, slot).value, vote));
    forall x: Target ensures ExactAt(next, after, x) {
      assert ExactAt(winners, sums, x);
      TallyUpdate(winners, slot, Winner(order, Some(vote)), x);
      TallyBounded(next, x);
      AdjustedSum(sums, Previous(winners, slot).value, vote, x);
    }
  }

  // All deliveries.

  /** The vote is a singleton of the slot's voter, filed under the target it names. */
  ghost predicate Competes(e: VoteEvent, slot: Slot) {
    e.singleton && e.replyTo.Some? && e.aux == e.replyTo.value.event && e.voter == slot.voter && e.aux == slot.aux
  }

  ghost predicate Carries(w: Winner, e: VoteEvent) {
    e.replyTo.Some? && w.order == e.order && w.projection == Some(Projection(e.replyTo.value, e.value))
  }

  /** Published earlier, or at the same time under no greater identifier. */
  ghost predicate Loses(a: Order, b: Order) {
    a.timestamp <= b.timestamp && (a.timestamp == b.timestamp ==> a.event <= b.event)
  }

  /** The slot holds the latest of the votes delivered for it, and is empty when there are none. */
  ghost predicate WinnerAt(winners: map<Slot, Winner>, delivered: set<VoteEvent>, slot: Slot) {
    && (forall e | e in delivered && Competes(e, slot) :: slot in winners && Loses(e.order, winners[slot].order))
    && (slot in winners ==> exists e :: e in delivered && Competes(e, slot) && Carries(winners[slot], e))
  }

  ghost predicate Winners(winners: map<Slot, Winner>, delivered: set<VoteEvent>) {
    forall slot: Slot :: WinnerAt(winners, delivered, slot)
  }

  lemma WinnersStay(winners: map<Slot, Winner>, delivered: set<VoteEvent>, e: VoteEvent)
    requires Winners(winners, delivered)
    requires ProjectionOf(e).Some? ==> SlotOf(e) in winners && NotAfter(e.order, winners[SlotOf(e)].order)
    ensures Winners(winners, delivered + {e})
  {
    var more := delivered + {e};
    forall slot: Slot ensures WinnerAt(winners, more, slot) {
      assert WinnerAt(winners, delivered, slot);
    }
  }

  lemma WinnersChange(winners: map<Slot, Winner>, delivered: set<VoteEvent>, e: VoteEvent)
    requires Winners(winners, delivered) && ProjectionOf(e).Some?
    requires SlotOf(e) in winners ==> !NotAfter(e.order, winners[SlotOf(e)].order)
    ensures Winners(winners[SlotOf(e) := Winner(e.order, ProjectionOf(e))], delivered + {e})
  {
    var next, more := winners[SlotOf(e) := Winner(e.order, ProjectionOf(e))], delivered + {e};
    forall slot: Slot ensures WinnerAt(next, more, slot) {
      assert WinnerAt(winners, delivered, slot);
      assert Competes(e, SlotOf(e)) && Carries(next[SlotOf(e)], e);
    }
  }

  lemma PreviousValid(winners: map<Slot, Winner>, delivered: set<VoteEvent>, slot: Slot)
    requires Winners(winners, delivered)
    ensures Previous(winners, slot).Ok?
  {
    assert WinnerAt(winners, delivered, slot);
  }

  /** An identifier names one event. */
  ghost predicate Coherent(delivered: set<VoteEvent>) {
    forall d, e | d in delivered && e in delivered && d.order == e.order && SlotOf(d) == SlotOf(e) :: d == e
  }

  /** Whatever the order and repetition, the same votes elect the same winners. */
  lemma WinnersConverge(a: map<Slot, Winner>, b: map<Slot, Winner>, delivered: set<VoteEvent>)
    requires Coherent(delivered) && Winners(a, delivered) && Winners(b, delivered)
    ensures a == b
  {
    forall slot: Slot ensures slot in a <==> slot in b {
      assert WinnerAt(a, delivered, slot) && WinnerAt(b, delivered, slot);
    }
    forall slot: Slot | slot in a ensures a[slot] == b[slot] {
      assert WinnerAt(a, delivered, slot) && WinnerAt(b, delivered, slot);
      var d :| d in delivered && Competes(d, slot) && Carries(a[slot], d);
      var e :| e in delivered && Competes(e, slot) && Carries(b[slot], e);
      assert Loses(d.order, b[slot].order) && Loses(e.order, a[slot].order);
    }
  }

  /** A vote published after every other vote of its voter on its target counts in full: one up, or one down. */
  lemma LatestCounts(winners: map<Slot, Winner>, delivered: set<VoteEvent>, e: VoteEvent)
    requires Winners(winners, delivered) && e in delivered && Competes(e, Slot(e.voter, e.aux))
    requires forall d | d in delivered && Competes(d, Slot(e.voter, e.aux)) && d != e ::
      d.order.timestamp < e.order.timestamp || (d.order.timestamp == e.order.timestamp && d.order.event < e.order.event)
    ensures var slot, rest := Slot(e.voter, e.aux), winners - {Slot(e.voter, e.aux)};
      && slot in winners
      && Tally(winners, e.replyTo.value) == Tally(rest, e.replyTo.value) + match e.value case Up => 1 case Neutral => 0 case Down => -1
  {
    var slot, x := Slot(e.voter, e.aux), e.replyTo.value;
    assert WinnerAt(winners, delivered, slot);
    var d :| d in delivered && Competes(d, slot) && Carries(winners[slot], d);
    assert d == e;
    SumRemove<Slot>(Scores(winners, x), slot);
    assert Scores(winners - {slot}, x) == Scores(winners, x) - {slot};
  }

  lemma Grows(winners: map<Slot, Winner>, slot: Slot, w: Winner)
    ensures |winners| <= |winners[slot := w]|
  {
    assert winners[slot := w].Keys == winners.Keys + {slot};
  }

  class VoteStore {
    var winners: map<Slot, Winner>
    var sums: map<Target, int>
    ghost var delivered: set<VoteEvent>

    ghost predicate Valid()
      reads this
    {
      && Winners(winners, delivered)
      && (|winners| <= I64_MAX ==> SumsExact(winners, sums))
      && Fit(sums)
    }

    constructor ()
      ensures Valid() && delivered == {} && winners == map[] && sums == map[]
    {
      winners, sums, delivered := map[], map[], {};
      new;
      forall x: Target ensures ExactAt(winners, sums, x) {
        assert Scores(winners, x) == map[];
      }
    }

    /** Reduce one delivered vote; sums and winner change together. */
    method Deliver(e: VoteEvent) returns (ok: bool)
      requires Valid()
      modifies this
      ensures Valid() && ok && delivered == old(delivered) + {e}
    {
      var slot, vote := SlotOf(e), ProjectionOf(e);
      if vote.None? || (slot in winners && NotAfter(e.order, winners[slot].order)) {
        WinnersStay(winners, delivered, e);
        delivered := delivered + {e};
        return true;
      }
      PreviousValid(winners, delivered, slot);
      var previous := Previous(winners, slot);
      ok := previous.Ok?;
      if ok {
        WinnersChange(winners, delivered, e);
        Grows(winners, slot, Winner(e.order, vote));
        if |winners[slot := Winner(e.order, vote)]| <= I64_MAX {
          DeliveredExact(winners, sums, slot, e.order, vote.value);
        }
        AppliedFit(sums, Adjustments(previous.value, vote.value));
        sums := ApplyAdjustments(sums, Adjustments(previous.value, vote.value));
        winners := winners[slot := Winner(e.order, vote)];
      }
      delivered := delivered + {e};
    }

    /** A run delivers any sequence of votes, in any order and with any repetition. */
    method DeliverAll(events: seq<VoteEvent>)
      requires Valid()
      modifies this
      ensures Valid() && delivered == old(delivered) + set e | e in events
    {
      for i := 0 to |events|
        invariant Valid() && delivered == old(delivered) + set e | e in events[..i]
      {
        var ok := Deliver(events[i]);
        assert events[..i + 1] == events[..i] + [events[i]];
      }
      assert events[..|events|] == events;
    }
  }

  /** Two stores that received the same votes show the same winners and the same sums. */
  lemma StoresConverge(winnersA: map<Slot, Winner>, sumsA: map<Target, int>, winnersB: map<Slot, Winner>,
                       sumsB: map<Target, int>, delivered: set<VoteEvent>)
    requires Coherent(delivered) && Winners(winnersA, delivered) && Winners(winnersB, delivered)
    requires SumsExact(winnersA, sumsA) && SumsExact(winnersB, sumsB)
    ensures winnersA == winnersB
    ensures forall x: Target :: Get<Target>(sumsA, x) == Get<Target>(sumsB, x) == Tally(winnersA, x)
  {
    WinnersConverge(winnersA, winnersB, delivered);
    forall x: Target ensures Get<Target>(sumsA, x) == Get<Target>(sumsB, x) == Tally(winnersA, x) {
      assert ExactAt(winnersA, sumsA, x) && ExactAt(winnersB, sumsB, x);
    }
  }
}
