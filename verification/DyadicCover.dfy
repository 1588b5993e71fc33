/**
 A half-open interval of 64-bit times as a canonical sequence of aligned
 power-of-two blocks, and the 65 blocks that can contain one point.

 Masks and shifts are modelled bit by bit: each recursion drops the lowest bit.
 */
module DyadicCover {
  const TIME_LIMIT: nat := 0x1_0000_0000_0000_0000

  /** An unsigned 64-bit time. */
  type Time = t: nat | t < TIME_LIMIT witness 0

  function Pow2(n: nat): (p: nat)
    ensures 0 < p
  {
    if n == 0 then 1 else 2 * Pow2(n - 1)
  }

  /** `n & (MAX << k)`: the lowest k bits cleared. */
  function ClearLow(n: nat, k: nat): nat {
    if k == 0 then n else 2 * ClearLow(n / 2, k - 1)
  }

  /** The lowest k bits are zero. */
  predicate LowZero(n: nat, k: nat) {
    k == 0 || (n % 2 == 0 && LowZero(n / 2, k - 1))
  }

  /** Trailing zero bits, at most `cap`. */
  function TrailingZeros(n: nat, cap: nat): (z: nat)
    ensures z <= cap
    decreases cap, n
  {
    if cap == 0 || n % 2 == 1 then 0 else 1 + TrailingZeros(n / 2, cap - 1)
  }

  /** Position of the highest set bit. */
  function FloorLog2(n: nat): nat
    requires 0 < n
  {
    if n == 1 then 0 else 1 + FloorLog2(n / 2)
  }

  /** Depth in 0..64 and first point; the block has 2^(64 - depth) points. */
  datatype Prefix = Prefix(depth: nat, start: nat)

  ghost predicate Contains(p: Prefix, t: nat) {
    p.depth <= 64 && p.start <= t < p.start + Pow2(64 - p.depth)
  }

  /** The power of the next block: limited by alignment and by what remains. */
  function Power(cursor: nat, end: nat): (power: nat)
    requires cursor < end
  {
    var alignment, remaining := TrailingZeros(cursor, 64), FloorLog2(end - cursor);
    if alignment <= remaining then alignment else remaining
  }

  lemma {:induction false} FloorLog2Bounds(n: nat)
    requires 0 < n
    ensures Pow2(FloorLog2(n)) <= n < 2 * Pow2(FloorLog2(n))
  {
    if n != 1 {
      FloorLog2Bounds(n / 2);
    }
  }

  lemma {:induction false} Pow2Monotone(a: nat, b: nat)
    requires a <= b
    ensures Pow2(a) <= Pow2(b)
    decreases b
  {
    if a < b {
      Pow2Monotone(a, b - 1);
    }
  }

  lemma SixtyFour()
    ensures Pow2(64) == TIME_LIMIT
  {
    assert Pow2(8) == 0x100;
    assert Pow2(16) == 0x1_0000;
    assert Pow2(24) == 0x100_0000;
    assert Pow2(32) == 0x1_0000_0000;
    assert Pow2(40) == 0x100_0000_0000;
    assert Pow2(48) == 0x1_0000_0000_0000;
    assert Pow2(56) == 0x100_0000_0000_0000;
  }

  /** A smaller number has a smaller or equal highest bit. */
  lemma LogBelow(n: nat, k: nat)
    requires 0 < n < Pow2(k)
    ensures FloorLog2(n) < k
  {
    FloorLog2Bounds(n);
    if k <= FloorLog2(n) {
      Pow2Monotone(k, FloorLog2(n));
    }
  }

  lemma PowerBounds(cursor: nat, end: nat)
    requires cursor < end < TIME_LIMIT
    ensures Power(cursor, end) <= FloorLog2(end - cursor) <= 63
    ensures cursor + Pow2(Power(cursor, end)) <= end
  {
    SixtyFour();
    LogBelow(end - cursor, 64);
    FloorLog2Bounds(end - cursor);
    Pow2Monotone(Power(cursor, end), FloorLog2(end - cursor));
  }

  /** The canonical cover of `[cursor, end)`; empty for an empty interval. */
  function IntervalCover(cursor: nat, end: nat): seq<Prefix>
    requires end < TIME_LIMIT
    decreases end - cursor
  {
    if cursor >= end then []
    else
      PowerBounds(cursor, end);
      [Prefix(64 - Power(cursor, end), cursor)] + IntervalCover(cursor + Pow2(Power(cursor, end)), end)
  }

  /** One unfolding of the cover. */
  lemma CoverStep(cursor: nat, end: nat)
    requires cursor < end < TIME_LIMIT
    ensures Power(cursor, end) <= 63 && cursor < cursor + Pow2(Power(cursor, end)) <= end
    ensures IntervalCover(cursor, end) ==
      [Prefix(64 - Power(cursor, end), cursor)] + IntervalCover(cursor + Pow2(Power(cursor, end)), end)
  {
    PowerBounds(cursor, end);
  }

  function PointPrefix(now: Time, depth: nat): Prefix
    requires depth <= 64
  {
    Prefix(depth, if depth == 0 then 0 else ClearLow(now, 64 - depth))
  }

  /** The 65 prefixes of one point, one per depth. */
  function PointPrefixes(now: Time): seq<Prefix> {
    seq(65, depth requires 0 <= depth < 65 => PointPrefix(now, depth))
  }

  /** The loop of the store. */
  method IntervalPrefixes(start: Time, end: Time) returns (prefixes: seq<Prefix>)
    ensures prefixes == IntervalCover(start, end)
  {
    prefixes := [];
    var cursor: nat := start;
    while cursor < end
      invariant prefixes + IntervalCover(cursor, end) == IntervalCover(start, end)
      decreases end - cursor
    {
      CoverStep(cursor, end);
      var power := Power(cursor, end);
      var block := Prefix(64 - power, cursor);
      assert prefixes + ([block] + IntervalCover(cursor + Pow2(power), end)) ==
        (prefixes + [block]) + IntervalCover(cursor + Pow2(power), end);
      prefixes := prefixes + [block];
      cursor := cursor + Pow2(power);
    }
  }

  // Bit arithmetic.

  lemma {:induction false} ZerosAreLow(n: nat, k: nat, cap: nat)
    requires k <= cap
    ensures LowZero(n, k) <==> k <= TrailingZeros(n, cap)
    decreases k
  {
    if k != 0 && n % 2 == 0 {
      ZerosAreLow(n / 2, k - 1, cap - 1);
    }
  }

  lemma {:induction false} LowZeroWeaken(n: nat, j: nat, k: nat)
    requires j <= k && LowZero(n, k)
    ensures LowZero(n, j)
    decreases k
  {
    if j != 0 {
      LowZeroWeaken(n / 2, j - 1, k - 1);
    }
  }

  /** An aligned block of 2^k points is exactly the set of points whose higher bits agree. */
  lemma {:induction false} BlockOfPoint(start: nat, t: nat, k: nat)
    requires LowZero(start, k)
    ensures start <= t < start + Pow2(k) <==> ClearLow(t, k) == start
    decreases k
  {
    if k != 0 {
      BlockOfPoint(start / 2, t / 2, k - 1);
    }
  }

  lemma HalfSum(c: nat, p: nat)
    requires c % 2 == 0
    ensures (c + 2 * p) % 2 == 0 && (c + 2 * p) / 2 == c / 2 + p
  {
  }

  /** Stepping over a block that alignment limited leaves a better aligned cursor. */
  lemma {:induction false} CarryAligns(c: nat, cap: nat)
    requires TrailingZeros(c, cap) < cap
    ensures TrailingZeros(c, cap) < TrailingZeros(c + Pow2(TrailingZeros(c, cap)), cap)
    decreases cap
  {
    if c % 2 == 0 {
      CarryAligns(c / 2, cap - 1);
      HalfSum(c, Pow2(TrailingZeros(c / 2, cap - 1)));
    }
  }

  /** Stepping over a block smaller than the alignment leaves exactly that block's alignment. */
  lemma {:induction false} StepAligns(c: nat, k: nat, cap: nat)
    requires k < TrailingZeros(c, cap)
    ensures TrailingZeros(c + Pow2(k), cap) == k
    decreases k
  {
    assert c % 2 == 0;
    if k == 0 {
      assert (c + 1) % 2 == 1;
    } else {
      StepAligns(c / 2, k - 1, cap - 1);
      HalfSum(c, Pow2(k - 1));
    }
  }

  // The cover is exact.

  /** Consecutive aligned blocks from `start` to `end`. */
  ghost predicate Tiles(cover: seq<Prefix>, start: nat, end: nat) {
    if cover == [] then start == end
    else
      && cover[0].start == start
      && cover[0].depth <= 64
      && LowZero(start, 64 - cover[0].depth)
      && Tiles(cover[1..], start + Pow2(64 - cover[0].depth), end)
  }

  lemma {:induction false} CoverTiles(cursor: nat, end: nat)
    requires cursor <= end < TIME_LIMIT
    ensures Tiles(IntervalCover(cursor, end), cursor, end)
    decreases end - cursor
  {
    if cursor < end {
      var power := Power(cursor, end);
      CoverStep(cursor, end);
      ZerosAreLow(cursor, power, 64);
      CoverTiles(cursor + Pow2(power), end);
      var rest := IntervalCover(cursor + Pow2(power), end);
      assert IntervalCover(cursor, end)[1..] == rest;
    }
  }

  /** Blocks of a tiling lie inside the interval. */
  lemma {:induction false} TilesInside(cover: seq<Prefix>, start: nat, end: nat)
    requires Tiles(cover, start, end)
    ensures start <= end
    ensures forall p | p in cover :: p.depth <= 64 && LowZero(p.start, 64 - p.depth) && start <= p.start && p.start + Pow2(64 - p.depth) <= end
  {
    if cover != [] {
      TilesInside(cover[1..], start + Pow2(64 - cover[0].depth), end);
      forall p | p in cover
        ensures p.depth <= 64 && LowZero(p.start, 64 - p.depth) && start <= p.start && p.start + Pow2(64 - p.depth) <= end
      {
        assert p == cover[0] || p in cover[1..];
      }
    }
  }

  /** Every point of the interval is in a block, and in only one. */
  lemma {:induction false} TilesOnce(cover: seq<Prefix>, start: nat, end: nat, t: nat)
    requires Tiles(cover, start, end)
    ensures start <= t < end <==> exists p :: p in cover && Contains(p, t)
    ensures forall p, q | p in cover && q in cover && Contains(p, t) && Contains(q, t) :: p == q
  {
    if cover != [] {
      var rest, mid := cover[1..], start + Pow2(64 - cover[0].depth);
      TilesInside(rest, mid, end);
      TilesOnce(rest, mid, end, t);
      forall p | p in cover && Contains(p, t)
        ensures p == if t < mid then cover[0] else p
        ensures t < mid || p in rest
      {
        assert p == cover[0] || p in rest;
      }
      if start <= t < mid {
        assert cover[0] in cover && Contains(cover[0], t);
      } else if mid <= t < end {
        var p :| p in rest && Contains(p, t);
        assert p in cover;
      }
    }
  }

  /** A point prefix names the aligned block of its depth that contains the point. */
  lemma PointPrefixContains(now: Time, p: Prefix)
    requires p.depth <= 64 && LowZero(p.start, 64 - p.depth)
    requires p.start + Pow2(64 - p.depth) <= TIME_LIMIT
    ensures Contains(p, now) <==> PointPrefix(now, p.depth) == p
  {
    SixtyFour();
    if p.depth != 0 {
      BlockOfPoint(p.start, now, 64 - p.depth);
    }
  }

  ghost function Hits(start: nat, end: nat, now: Time): set<nat>
    requires end < TIME_LIMIT
  {
    set d | 0 <= d <= 64 && PointPrefix(now, d) in IntervalCover(start, end)
  }

  /**
   Main result: of the 65 prefixes of a point exactly one is in the cover of an
   interval that contains the point, and none is in the cover of one that does not.
   */
  lemma PointQuery(start: Time, end: Time, now: Time)
    ensures start <= now < end ==> exists d :: Hits(start, end, now) == {d}
    ensures !(start <= now < end) ==> Hits(start, end, now) == {}
  {
    var cover := IntervalCover(start, end);
    if start < end {
      CoverTiles(start, end);
      TilesInside(cover, start, end);
      TilesOnce(cover, start, end, now);
      forall p | p in cover
        ensures Contains(p, now) <==> PointPrefix(now, p.depth) == p
      {
        PointPrefixContains(now, p);
      }
      if start <= now < end {
        var p :| p in cover && Contains(p, now);
        forall d | d in Hits(start, end, now)
          ensures d == p.depth
        {
          assert Contains(PointPrefix(now, d), now);
        }
        assert Hits(start, end, now) == {p.depth};
      }
    }
  }

  // The cover is small.

  ghost predicate Increasing(cover: seq<Prefix>) {
    forall i, j | 0 <= i < j < |cover| :: cover[j].depth < cover[i].depth
  }

  ghost predicate Decreasing(cover: seq<Prefix>) {
    forall i, j | 0 <= i < j < |cover| :: cover[i].depth < cover[j].depth
  }

  ghost predicate Unimodal(cover: seq<Prefix>) {
    exists turn | 0 <= turn <= |cover| :: Increasing(cover[..turn]) && Decreasing(cover[turn..])
  }

  lemma DecreasingCons(p: Prefix, rest: seq<Prefix>)
    requires Decreasing(rest) && forall q | q in rest :: p.depth < q.depth
    ensures Decreasing([p] + rest)
    ensures forall q | q in [p] + rest :: p.depth <= q.depth
  {
  }

  lemma UnimodalCons(p: Prefix, rest: seq<Prefix>, turn: nat)
    requires turn <= |rest| && Increasing(rest[..turn]) && Decreasing(rest[turn..])
    requires 0 < turn ==> rest[0].depth < p.depth
    ensures var cover := [p] + rest; Increasing(cover[..turn + 1]) && Decreasing(cover[turn + 1..])
  {
    var cover := [p] + rest;
    assert cover[turn + 1..] == rest[turn..];
    assert cover[..turn + 1] == [p] + rest[..turn];
    forall j | 0 <= j < turn
      ensures rest[..turn][j].depth < p.depth
    {
      assert 0 < j ==> rest[..turn][j].depth < rest[..turn][0].depth;
    }
  }

  /** After a block that the remaining length limited, less remains and alignment stays slack. */
  lemma RemainingStep(cursor: nat, end: nat)
    requires cursor < end < TIME_LIMIT
    requires FloorLog2(end - cursor) < TrailingZeros(cursor, 64)
    ensures var l := FloorLog2(end - cursor);
      && Power(cursor, end) == l
      && TrailingZeros(cursor + Pow2(l), 64) == l
      && (cursor + Pow2(l) < end ==> FloorLog2(end - (cursor + Pow2(l))) < l)
  {
    var l := FloorLog2(end - cursor);
    FloorLog2Bounds(end - cursor);
    StepAligns(cursor, l, 64);
    if cursor + Pow2(l) < end {
      LogBelow(end - (cursor + Pow2(l)), l);
    }
  }

  /** Once the remaining length limits a block, it limits every later one, by a smaller power each time. */
  lemma {:induction false} RemainingLimited(cursor: nat, end: nat, l: nat)
    requires cursor < end < TIME_LIMIT
    requires l == FloorLog2(end - cursor) < TrailingZeros(cursor, 64)
    ensures |IntervalCover(cursor, end)| <= l + 1
    ensures Decreasing(IntervalCover(cursor, end))
    ensures forall p | p in IntervalCover(cursor, end) :: 64 - l <= p.depth
    decreases end - cursor
  {
    RemainingStep(cursor, end);
    CoverStep(cursor, end);
    var next := cursor + Pow2(l);
    var rest := IntervalCover(next, end);
    if next < end {
      RemainingLimited(next, end, FloorLog2(end - next));
    } else {
      assert rest == [];
    }
    DecreasingCons(Prefix(64 - l, cursor), rest);
  }

  /** A block that alignment limited leaves a strictly better aligned cursor. */
  lemma AlignmentStep(cursor: nat, end: nat, zeros: nat)
    requires cursor < end < TIME_LIMIT
    requires zeros == TrailingZeros(cursor, 64) <= FloorLog2(end - cursor)
    ensures Power(cursor, end) == zeros <= 63
    ensures zeros < TrailingZeros(cursor + Pow2(zeros), 64)
  {
    PowerBounds(cursor, end);
    CarryAligns(cursor, 64);
  }

  /** The shape of a cover that starts at a cursor with `zeros` trailing zero bits. */
  ghost predicate Shaped(cover: seq<Prefix>, zeros: nat, turn: nat) {
    && zeros <= 64
    && turn <= |cover| <= 64 - zeros + 64
    && Increasing(cover[..turn]) && Decreasing(cover[turn..])
    && (0 < turn ==> cover[0].depth == 64 - zeros)
  }

  lemma ShapedCons(p: Prefix, rest: seq<Prefix>, zeros: nat, later: nat, turn: nat)
    requires Shaped(rest, later, turn) && p.depth + zeros == 64 && zeros < later
    ensures Shaped([p] + rest, zeros, turn + 1)
  {
    UnimodalCons(p, rest, turn);
  }

  lemma RemainingShaped(cursor: nat, end: nat, l: nat, zeros: nat)
    requires cursor < end < TIME_LIMIT
    requires l == FloorLog2(end - cursor) < zeros == TrailingZeros(cursor, 64)
    ensures Shaped(IntervalCover(cursor, end), zeros, 0)
  {
    PowerBounds(cursor, end);
    RemainingLimited(cursor, end, l);
    var cover := IntervalCover(cursor, end);
    assert cover[0..] == cover;
  }

  lemma AlignmentShaped(cursor: nat, end: nat, zeros: nat, later: nat, turn: nat)
    requires cursor < end < TIME_LIMIT
    requires zeros == TrailingZeros(cursor, 64) <= FloorLog2(end - cursor)
    requires later == TrailingZeros(cursor + Pow2(zeros), 64)
    requires Shaped(IntervalCover(cursor + Pow2(zeros), end), later, turn)
    ensures Shaped(IntervalCover(cursor, end), zeros, turn + 1)
  {
    AlignmentStep(cursor, end, zeros);
    CoverStep(cursor, end);
    ShapedCons(Prefix(64 - zeros, cursor), IntervalCover(cursor + Pow2(zeros), end), zeros, later, turn);
  }

  /** While alignment limits the block, powers strictly increase, at most to 63. */
  lemma {:induction false} CoverShape(cursor: nat, end: nat, zeros: nat) returns (turn: nat)
    requires end < TIME_LIMIT && zeros == TrailingZeros(cursor, 64)
    ensures Shaped(IntervalCover(cursor, end), zeros, turn)
    decreases end - cursor
  {
    turn := 0;
    if end <= cursor {
      assert IntervalCover(cursor, end) == [];
    } else if FloorLog2(end - cursor) < zeros {
      RemainingShaped(cursor, end, FloorLog2(end - cursor), zeros);
    } else {
      var next := cursor + Pow2(zeros);
      var later := CoverShape(next, end, TrailingZeros(next, 64));
      AlignmentShaped(cursor, end, zeros, TrailingZeros(next, 64), later);
      turn := later + 1;
    }
  }

  /** Main result: a cover has at most 128 blocks, of powers that rise and then fall. */
  lemma CoverSize(start: nat, end: nat)
    requires end < TIME_LIMIT
    ensures |IntervalCover(start, end)| <= 128
    ensures Unimodal(IntervalCover(start, end))
  {
    var turn := CoverShape(start, end, TrailingZeros(start, 64));
    var cover := IntervalCover(start, end);
    assert Increasing(cover[..turn]) && Decreasing(cover[turn..]);
  }
}
