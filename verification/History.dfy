/** Realized PnL of one broker trading day, and the calendar of trading days in a zone
    with any changes of its clock. */
module History {
  import opened Common
  import opened FailClosed
  import opened Deals

  function DailyAssessment(deals: seq<Deal>, start: int, end: int): Assessment<BlockReason> {
    Assess(deals, DailyVerdict(start, end), TicketOf, REASON_ORDER)
  }

  method ComputeRealizedDailyPnL(deals: seq<Deal>, start: int, end: int)
    returns (r: Result<Assessment<BlockReason>, Fault>)
    ensures r == Validated(DailyAssessment(deals, start, end))
  {
    ghost var classify := DailyVerdict(start, end);
    var contributions: seq<real> := [];
    var reasons: set<BlockReason> := {};
    var tickets: seq<nat> := [];
    for i := 0 to |deals|
      invariant Gathered(deals[..i], classify, TicketOf, contributions, reasons, tickets)
    {
      var deal := deals[i];
      ghost var done := deals[..i];
      assert deals[..i + 1] == done + [deal];
      if deal.time <= EPOCH {
        GatherUnsafe(done, deal, classify, TicketOf, contributions, reasons, tickets);
        reasons, tickets := reasons + {MalformedTimestamp}, tickets + [deal.ticket];
      } else if !(start <= deal.time < end) {
        GatherSkipped(done, deal, classify, TicketOf, contributions, reasons, tickets);
      } else if deal.dealType.NonTrading? {
        GatherCounted(done, deal, classify, TicketOf, contributions, reasons, tickets);
        contributions := contributions + [0.0];
      } else if deal.dealType.UnknownType? {
        GatherUnsafe(done, deal, classify, TicketOf, contributions, reasons, tickets);
        reasons, tickets := reasons + {UnmappableDealType}, tickets + [deal.ticket];
      } else {
        match ClassifyTradingDeal(deal)
        case Counted(amount) =>
          GatherCounted(done, deal, classify, TicketOf, contributions, reasons, tickets);
          contributions := contributions + [amount];
        case Unsafe(reason) =>
          GatherUnsafe(done, deal, classify, TicketOf, contributions, reasons, tickets);
          reasons, tickets := reasons + {reason}, tickets + [deal.ticket];
      }
    }
    assert deals[..|deals|] == deals;
    GatheredConclusion(deals, classify, TicketOf, REASON_ORDER, contributions, reasons, tickets);
    if reasons != {} {
      r := Validated(Blocked(Canonical(REASON_ORDER, reasons), tickets));
    } else {
      r := Success(Ready(Sum(contributions, Identity)));
    }
  }

  const DAY: int := 86_400_000_000

  /** From `at` on the zone's clocks run `offset` ahead of UTC. */
  datatype Change = Change(at: int, offset: int)

  datatype Zone = Zone(initial: int, changes: seq<Change>) {
    function Last(): Change
      requires changes != []
    {
      changes[|changes| - 1]
    }

    /** The zone without its last change. */
    function Earlier(): Zone
      requires changes != []
    {
      Zone(initial, changes[..|changes| - 1])
    }

    function FinalOffset(): int { if changes == [] then initial else Last().offset }
  }

  /** Changes at least a day apart, each by at most a day. */
  predicate ValidZone(z: Zone)
    decreases |z.changes|
  {
    z.changes != [] ==>
      && ValidZone(z.Earlier())
      && -DAY <= z.Last().offset - z.Earlier().FinalOffset() <= DAY
      && Settles(z.Earlier(), z.Last().at)
  }

  /** The zone's last change is at least a day before. */
  predicate Settles(z: Zone, t: int) { z.changes != [] ==> z.Last().at + DAY <= t }

  /** What the wall clock reads. */
  function Local(z: Zone, t: int): int
    decreases |z.changes|
  {
    if z.changes == [] then t + z.initial
    else if t >= z.Last().at then t + z.Last().offset
    else Local(z.Earlier(), t)
  }

  function KeyIn(z: Zone, rollover: int, t: int): int { (Local(z, t) - rollover) / DAY }

  function Greater(a: int, b: int): int { if a >= b then a else b }

  /** The instant of a wall-clock reading: the earlier one when it occurs twice, and by
      the offset in force before the jump when it does not occur. */
  function InstantOf(z: Zone, wall: int): int
    decreases |z.changes|
  {
    if z.changes == [] then wall - z.initial
    else if wall >= z.Last().at + Greater(z.Earlier().FinalOffset(), z.Last().offset) then wall - z.Last().offset
    else InstantOf(z.Earlier(), wall)
  }

  function DayStartIn(z: Zone, rollover: int, key: int): int { InstantOf(z, key * DAY + rollover) }

  /** The reading lies strictly inside the stretch of wall clock that the last change
      skips or repeats. */
  predicate InsideLastJump(z: Zone, wall: int)
    requires z.changes != []
  {
    var at, before, after := z.Last().at, z.Earlier().FinalOffset(), z.Last().offset;
    at + before < wall < at + after || at + after < wall < at + before
  }

  predicate InsideJump(z: Zone, wall: int)
    decreases |z.changes|
  {
    z.changes != [] && (InsideLastJump(z, wall) || InsideJump(z.Earlier(), wall))
  }

  /** From its instant on, and only then, the wall clock reads `wall` or later. */
  predicate CrossesAt(z: Zone, wall: int, t: int) { InstantOf(z, wall) <= t <==> wall <= Local(z, t) }

  // Before a later instant the clock has not reached what it reads there, and a reading
  // up to there has its instant up to there.

  lemma {:induction false} LocalBelow(z: Zone, t: int, end: int)
    requires ValidZone(z) && Settles(z, end) && t < end
    ensures Local(z, t) < end + z.FinalOffset()
    decreases |z.changes|
  {
    if z.changes != [] && t < z.Last().at {
      LocalBelow(z.Earlier(), t, z.Last().at);
    }
  }

  lemma {:induction false} InstantBelow(z: Zone, wall: int, end: int)
    requires ValidZone(z) && Settles(z, end) && wall <= end + z.FinalOffset()
    ensures InstantOf(z, wall) <= end
    decreases |z.changes|
  {
    if z.changes != [] && wall < z.Last().at + Greater(z.Earlier().FinalOffset(), z.Last().offset) {
      InstantBelow(z.Earlier(), wall, z.Last().at + DAY);
    }
  }

  lemma InstantAbove(z: Zone, wall: int, end: int)
    requires ValidZone(z) && Settles(z, end) && wall > end + z.FinalOffset()
    ensures InstantOf(z, wall) == wall - z.FinalOffset() > end
  {
  }

  lemma {:induction false} InsideBelow(z: Zone, wall: int, end: int)
    requires ValidZone(z) && Settles(z, end) && InsideJump(z, wall)
    ensures wall < end + z.FinalOffset()
    decreases |z.changes|
  {
    if !InsideLastJump(z, wall) {
      InsideBelow(z.Earlier(), wall, z.Last().at);
    }
  }

  /** A reading outside every jump is crossed once and for all. */
  lemma {:induction false} ClearCrossesOnce(z: Zone, wall: int, t: int)
    requires ValidZone(z) && !InsideJump(z, wall)
    ensures CrossesAt(z, wall, t)
    decreases |z.changes|
  {
    if z.changes != [] {
      var before, last := z.Earlier(), z.Last();
      ClearCrossesOnce(before, wall, t);
      if wall >= last.at + Greater(before.FinalOffset(), last.offset) {
        if t < last.at {
          LocalBelow(before, t, last.at);
        }
      } else {
        InstantBelow(before, wall, last.at);
      }
    }
  }

  /** A reading inside a jump is not: the clock steps over it, or back before it, at the
      instant of a change. */
  lemma {:induction false} JumpCrossesOtherwise(z: Zone, wall: int) returns (t: int)
    requires ValidZone(z) && InsideJump(z, wall)
    ensures !CrossesAt(z, wall, t) && t <= z.Last().at
    decreases |z.changes|
  {
    var before, last := z.Earlier(), z.Last();
    if InsideLastJump(z, wall) {
      t := last.at;
      if before.FinalOffset() < last.offset {
        InstantAbove(before, wall, last.at);
      } else {
        InstantBelow(before, wall, last.at);
      }
    } else {
      t := JumpCrossesOtherwise(before, wall);
      InsideBelow(before, wall, last.at);
    }
  }

  lemma {:induction false} NextDayLater(z: Zone, wall: int)
    requires ValidZone(z)
    ensures InstantOf(z, wall) <= InstantOf(z, wall + DAY)
    decreases |z.changes|
  {
    if z.changes != [] {
      var before, last := z.Earlier(), z.Last();
      NextDayLater(before, wall);
      if wall <= last.at + before.FinalOffset() {
        InstantBelow(before, wall, last.at);
      } else {
        InstantAbove(before, wall, last.at);
      }
    }
  }

  lemma KeyReaches(z: Zone, rollover: int, t: int, key: int)
    ensures key * DAY + rollover <= Local(z, t) <==> key <= KeyIn(z, rollover, t)
  {
    var shifted := Local(z, t) - rollover;
    assert shifted == (shifted / DAY) * DAY + shifted % DAY;
  }

  lemma {:induction false} StartsAscend(z: Zone, rollover: int, j: int, k: int)
    requires ValidZone(z) && j <= k
    ensures DayStartIn(z, rollover, j) <= DayStartIn(z, rollover, k)
    decreases k - j
  {
    if j < k {
      StartsAscend(z, rollover, j, k - 1);
      NextDayLater(z, (k - 1) * DAY + rollover);
    }
  }

  /** The instant lies in the day's half-open interval exactly when it keys onto it. */
  predicate InvertsAt(z: Zone, rollover: int, t: int, key: int) {
    KeyIn(z, rollover, t) == key <==> DayStartIn(z, rollover, key) <= t < DayStartIn(z, rollover, key + 1)
  }

  /** The day's rollover reading is outside every jump. */
  predicate ClearOfJumps(z: Zone, rollover: int, key: int) { !InsideJump(z, key * DAY + rollover) }

  lemma ClearDaysInvert(z: Zone, rollover: int, t: int, key: int)
    requires ValidZone(z) && ClearOfJumps(z, rollover, key) && ClearOfJumps(z, rollover, key + 1)
    ensures InvertsAt(z, rollover, t, key)
  {
    ClearCrossesOnce(z, key * DAY + rollover, t);
    ClearCrossesOnce(z, (key + 1) * DAY + rollover, t);
    KeyReaches(z, rollover, t, key);
    KeyReaches(z, rollover, t, key + 1);
  }

  lemma InversionCrossesOnce(z: Zone, rollover: int, t: int, key: int)
    requires ValidZone(z) && InvertsAt(z, rollover, t, KeyIn(z, rollover, t))
    ensures CrossesAt(z, key * DAY + rollover, t)
  {
    var day := KeyIn(z, rollover, t);
    KeyReaches(z, rollover, t, key);
    if key <= day {
      StartsAscend(z, rollover, key, day);
    } else {
      StartsAscend(z, rollover, day + 1, key);
    }
  }

  /** `trading_day_interval` inverts `compute_trading_day_key` for every instant and every
      day exactly when no day's rollover reading lies inside a jump of the zone's clock.
      Days may then be shorter or longer than 24 hours. */
  lemma ZoneIntervalsInvertIff(z: Zone, rollover: int)
    requires ValidZone(z)
    ensures (forall t, key :: InvertsAt(z, rollover, t, key)) <==> forall key :: ClearOfJumps(z, rollover, key)
  {
    if forall key :: ClearOfJumps(z, rollover, key) {
      forall t, key
        ensures InvertsAt(z, rollover, t, key)
      {
        assert ClearOfJumps(z, rollover, key) && ClearOfJumps(z, rollover, key + 1);
        ClearDaysInvert(z, rollover, t, key);
      }
    }
    if forall t, key :: InvertsAt(z, rollover, t, key) {
      forall key
        ensures ClearOfJumps(z, rollover, key)
      {
        if !ClearOfJumps(z, rollover, key) {
          var t := JumpCrossesOtherwise(z, key * DAY + rollover);
          assert InvertsAt(z, rollover, t, KeyIn(z, rollover, t));
          InversionCrossesOnce(z, rollover, t, key);
        }
      }
    }
  }

  const HOUR: int := 3_600_000_000

  /** Every change is by at most an hour and happens on the hour of the wall clock. */
  predicate ChangesOnTheHour(z: Zone)
    decreases |z.changes|
  {
    z.changes != [] ==>
      && ChangesOnTheHour(z.Earlier())
      && -HOUR <= z.Last().offset - z.Earlier().FinalOffset() <= HOUR
      && (z.Last().at + z.Earlier().FinalOffset()) % HOUR == 0
  }

  /** With a rollover on the hour the usual daylight-saving changes never break the
      inversion, nor does a zone without any. */
  lemma IntervalInvertsKey(z: Zone, rollover: int, t: int, key: int)
    requires ValidZone(z) && ChangesOnTheHour(z) && rollover % HOUR == 0
    ensures InvertsAt(z, rollover, t, key)
  {
    OnTheHour(rollover, key);
    OnTheHour(rollover, key + 1);
    NoHourInside(z, key * DAY + rollover);
    NoHourInside(z, (key + 1) * DAY + rollover);
    ClearDaysInvert(z, rollover, t, key);
  }

  lemma OnTheHour(rollover: int, key: int)
    requires rollover % HOUR == 0
    ensures (key * DAY + rollover) % HOUR == 0
  {
    assert DAY == 24 * HOUR;
    assert key * DAY + rollover == HOUR * (24 * key + rollover / HOUR);
  }

  lemma {:induction false} NoHourInside(z: Zone, wall: int)
    requires ChangesOnTheHour(z) && wall % HOUR == 0
    ensures !InsideJump(z, wall)
    decreases |z.changes|
  {
    if z.changes != [] {
      NoHourInside(z.Earlier(), wall);
      var hours, edge := wall / HOUR, (z.Last().at + z.Earlier().FinalOffset()) / HOUR;
      assert wall == hours * HOUR && z.Last().at + z.Earlier().FinalOffset() == edge * HOUR;
    }
  }

  /** A two-hour jump is not: where clocks go from 01:00 to 03:00, a rollover at 02:00 puts
      the instants just after the jump into the new day's key but the old day's
      interval. */
  lemma TwoHourJumpFails()
    ensures exists z: Zone, rollover: int, t: int, key: int ::
              ValidZone(z) && rollover % HOUR == 0 && !InvertsAt(z, rollover, t, key)
  {
    var z := Zone(0, [Change(HOUR, 2 * HOUR)]);
    assert z.Earlier() == Zone(0, []);
    assert Local(z, HOUR) == 3 * HOUR && KeyIn(z, 2 * HOUR, HOUR) == 0;
    assert InstantOf(z.Earlier(), 2 * HOUR) == 2 * HOUR;
    assert DayStartIn(z, 2 * HOUR, 0) == InstantOf(z, 2 * HOUR) == 2 * HOUR;
    assert HOUR < DayStartIn(z, 2 * HOUR, 0);
    assert !InvertsAt(z, 2 * HOUR, HOUR, 0);
    assert ValidZone(z);
  }

  lemma VerdictSplits(d: Deal, start: int, mid: int, end: int)
    requires start <= mid <= end
    ensures DailyVerdict(start, end)(d).Unsafe? <==>
            DailyVerdict(start, mid)(d).Unsafe? || DailyVerdict(mid, end)(d).Unsafe?
    ensures AmountOf(DailyVerdict(start, end))(d) ==
            AmountOf(DailyVerdict(start, mid))(d) + AmountOf(DailyVerdict(mid, end))(d)
  {
  }

  ghost predicate AllSafe(deals: seq<Deal>, start: int, end: int) {
    forall d :: d in deals ==> !DailyVerdict(start, end)(d).Unsafe?
  }

  lemma ReadyIffSafe(deals: seq<Deal>, start: int, end: int)
    ensures DailyAssessment(deals, start, end).Ready? <==> AllSafe(deals, start, end)
  {
    ReadyIffAllSafe(deals, DailyVerdict(start, end), TicketOf, REASON_ORDER);
  }

  lemma SafeSplits(deals: seq<Deal>, start: int, mid: int, end: int)
    requires start <= mid <= end
    ensures AllSafe(deals, start, end) <==> AllSafe(deals, start, mid) && AllSafe(deals, mid, end)
  {
    forall d: Deal
      ensures DailyVerdict(start, end)(d).Unsafe? <==>
              DailyVerdict(start, mid)(d).Unsafe? || DailyVerdict(mid, end)(d).Unsafe?
    {
      VerdictSplits(d, start, mid, end);
    }
  }

  function WindowTotal(deals: seq<Deal>, start: int, end: int): real {
    Sum(deals, AmountOf(DailyVerdict(start, end)))
  }

  /** A window cut at `mid` is READY exactly when both halves are, and its total
      is the sum of theirs. */
  lemma WindowSplits(deals: seq<Deal>, start: int, mid: int, end: int)
    requires start <= mid <= end
    ensures DailyAssessment(deals, start, end).Ready? <==>
            DailyAssessment(deals, start, mid).Ready? && DailyAssessment(deals, mid, end).Ready?
    ensures WindowTotal(deals, start, end) == WindowTotal(deals, start, mid) + WindowTotal(deals, mid, end)
  {
    ReadyIffSafe(deals, start, end);
    ReadyIffSafe(deals, start, mid);
    ReadyIffSafe(deals, mid, end);
    SafeSplits(deals, start, mid, end);
    forall d | d in deals
      ensures AmountOf(DailyVerdict(start, end))(d) ==
              AmountOf(DailyVerdict(start, mid))(d) + AmountOf(DailyVerdict(mid, end))(d)
    {
      VerdictSplits(d, start, mid, end);
    }
    SumAdd(deals, AmountOf(DailyVerdict(start, mid)), AmountOf(DailyVerdict(mid, end)),
           AmountOf(DailyVerdict(start, end)));
  }

  /** Boundaries of consecutive trading days. Days may differ in length, so a
      zone with daylight-saving changes is covered too. */
  predicate Boundaries(cuts: seq<int>) {
    forall i :: 0 <= i < |cuts| - 1 ==> cuts[i] <= cuts[i + 1]
  }

  predicate DayReady(deals: seq<Deal>, cuts: seq<int>, day: nat)
    requires day < |cuts| - 1
  {
    DailyAssessment(deals, cuts[day], cuts[day + 1]).Ready?
  }

  function DayTotals(deals: seq<Deal>, cuts: seq<int>): real {
    if |cuts| <= 1 then 0.0
    else DayTotals(deals, cuts[..|cuts| - 1]) + WindowTotal(deals, cuts[|cuts| - 2], cuts[|cuts| - 1])
  }

  lemma {:induction false} BoundariesAscend(cuts: seq<int>)
    requires cuts != [] && Boundaries(cuts)
    ensures cuts[0] <= cuts[|cuts| - 1]
  {
    if |cuts| > 1 {
      BoundariesAscend(cuts[..|cuts| - 1]);
    }
  }

  /** Conservation by day: consecutive trading days are each READY exactly when
      the whole span is, and their daily PnL sums to the span's. */
  lemma {:induction false} DaysPartitionSpan(deals: seq<Deal>, cuts: seq<int>)
    requires |cuts| >= 2 && Boundaries(cuts)
    ensures DailyAssessment(deals, cuts[0], cuts[|cuts| - 1]).Ready? <==>
            forall day :: 0 <= day < |cuts| - 1 ==> DayReady(deals, cuts, day)
    ensures WindowTotal(deals, cuts[0], cuts[|cuts| - 1]) == DayTotals(deals, cuts)
  {
    var n := |cuts| - 1;
    var earlier := cuts[..n];
    if n == 1 {
      assert DayTotals(deals, earlier) == 0.0;
      assert DayReady(deals, cuts, 0) <==> DailyAssessment(deals, cuts[0], cuts[1]).Ready?;
    } else {
      DaysPartitionSpan(deals, earlier);
      BoundariesAscend(earlier);
      WindowSplits(deals, cuts[0], cuts[n - 1], cuts[n]);
      assert forall day :: 0 <= day < n - 1 ==> (DayReady(deals, earlier, day) <==> DayReady(deals, cuts, day));
      assert DayReady(deals, cuts, n - 1) <==> DailyAssessment(deals, cuts[n - 1], cuts[n]).Ready?;
    }
  }
}
