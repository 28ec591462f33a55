/** Reconstruction of one broker position's lifecycle from its deals. `Lifecycle`
    is the reference definition over order-free sums and extremes; the fold in
    `ReconstructPositionLifecycle` is proved against it. */
module PositionLifecycle {
  import opened Common
  import opened FailClosed
  import opened Deals

  datatype LifecycleAssessment =
    | LifecycleBlocked(reasons: seq<BlockReason>, tickets: seq<nat>)
    | OpenLifecycle(actualEntry: real, actualEntryTime: int, realizedPnl: real)
    | ClosedLifecycle(actualEntry: real, actualEntryTime: int, exitPrice: real, exitTime: int, realizedPnl: real)

  predicate IsOpening(d: Deal) { LifecycleVerdict(d).Counted? && d.entry.In? }

  predicate IsClosing(d: Deal) { LifecycleVerdict(d).Counted? && !d.entry.In? }

  function Openings(deals: seq<Deal>, p: nat): seq<Deal> {
    Filter(OfPosition(deals, p), IsOpening)
  }

  function Closings(deals: seq<Deal>, p: nat): seq<Deal> {
    Filter(OfPosition(deals, p), IsClosing)
  }

  /** What reconstruction needs to know of one side's deals. */
  datatype Side = NoDeals | Side(volume: real, money: real, earliest: int, latest: int) {
    function Volume(): real { if NoDeals? then 0.0 else volume }

    /** Volume-weighted average price. */
    function Average(): real
      requires Side? && volume != 0.0
    {
      money / volume
    }
  }

  function SideOf(deals: seq<Deal>): Side {
    if deals == [] then NoDeals
    else Side(Sum(deals, VolumeOf), Sum(deals, MoneyOf), EarliestTime(deals), LatestTime(deals))
  }

  function OpenedVolume(deals: seq<Deal>, p: nat): real { SideOf(Openings(deals, p)).Volume() }

  function ClosedVolume(deals: seq<Deal>, p: nat): real { SideOf(Closings(deals, p)).Volume() }

  function PositionPnl(deals: seq<Deal>, p: nat): real {
    Sum(OfPosition(deals, p), AmountOf(LifecycleVerdict))
  }

  function OwnAssessment(deals: seq<Deal>, p: nat): Assessment<BlockReason> {
    Assess(OfPosition(deals, p), LifecycleVerdict, TicketOf, REASON_ORDER)
  }

  function Conclude(assessment: Assessment<BlockReason>, opening: Side, closing: Side, pnl: real):
    Result<LifecycleAssessment, TrackingFault>
  {
    if assessment.Blocked? then
      if Distinct(assessment.tickets) then Success(LifecycleBlocked(assessment.reasons, assessment.tickets))
      else Failure(RepeatedUnsafeTickets)
    else if opening.NoDeals? then Failure(NoOpeningDeal)
    else if opening.volume == 0.0 then Failure(ZeroEntryVolume)
    else if opening.volume > closing.Volume() then
      Success(OpenLifecycle(opening.Average(), opening.earliest, pnl))
    else if closing.NoDeals? then Failure(NoClosingDeal)
    else if closing.volume == 0.0 then Failure(ZeroExitVolume)
    else Success(ClosedLifecycle(opening.Average(), opening.earliest, closing.Average(), closing.latest, pnl))
  }

  function Lifecycle(p: nat, deals: seq<Deal>): Result<LifecycleAssessment, TrackingFault> {
    if p == 0 then Failure(InvalidPositionId)
    else Conclude(OwnAssessment(deals, p), SideOf(Openings(deals, p)), SideOf(Closings(deals, p)), PositionPnl(deals, p))
  }

  /** The fold's running values after the deals in `done`. */
  ghost predicate Folded(done: seq<Deal>, reasons: set<BlockReason>, tickets: seq<nat>, contributions: seq<real>,
                         inDeals: seq<Deal>, outDeals: seq<Deal>, netVolume: real)
  {
    && Gathered(done, LifecycleVerdict, TicketOf, contributions, reasons, tickets)
    && inDeals == Filter(done, IsOpening)
    && outDeals == Filter(done, IsClosing)
    && netVolume == Sum(inDeals, VolumeOf) - Sum(outDeals, VolumeOf)
  }

  lemma FoldUnsafe(done: seq<Deal>, d: Deal, reasons: set<BlockReason>, tickets: seq<nat>, contributions: seq<real>,
                   inDeals: seq<Deal>, outDeals: seq<Deal>, netVolume: real)
    requires Folded(done, reasons, tickets, contributions, inDeals, outDeals, netVolume) && LifecycleVerdict(d).Unsafe?
    ensures Folded(done + [d], reasons + {LifecycleVerdict(d).reason}, tickets + [d.ticket], contributions,
                   inDeals, outDeals, netVolume)
  {
    GatherUnsafe(done, d, LifecycleVerdict, TicketOf, contributions, reasons, tickets);
    SidesSnoc(done, d);
  }

  lemma FoldSkipped(done: seq<Deal>, d: Deal, reasons: set<BlockReason>, tickets: seq<nat>, contributions: seq<real>,
                    inDeals: seq<Deal>, outDeals: seq<Deal>, netVolume: real)
    requires Folded(done, reasons, tickets, contributions, inDeals, outDeals, netVolume) && LifecycleVerdict(d).Skipped?
    ensures Folded(done + [d], reasons, tickets, contributions, inDeals, outDeals, netVolume)
  {
    GatherSkipped(done, d, LifecycleVerdict, TicketOf, contributions, reasons, tickets);
    SidesSnoc(done, d);
  }

  lemma FoldOpening(done: seq<Deal>, d: Deal, reasons: set<BlockReason>, tickets: seq<nat>, contributions: seq<real>,
                    inDeals: seq<Deal>, outDeals: seq<Deal>, netVolume: real)
    requires Folded(done, reasons, tickets, contributions, inDeals, outDeals, netVolume) && IsOpening(d)
    ensures Folded(done + [d], reasons, tickets, contributions + [LifecycleVerdict(d).amount],
                   inDeals + [d], outDeals, netVolume + d.volume)
  {
    GatherCounted(done, d, LifecycleVerdict, TicketOf, contributions, reasons, tickets);
    SidesSnoc(done, d);
    SumSnoc(inDeals, d, VolumeOf);
  }

  lemma FoldClosing(done: seq<Deal>, d: Deal, reasons: set<BlockReason>, tickets: seq<nat>, contributions: seq<real>,
                    inDeals: seq<Deal>, outDeals: seq<Deal>, netVolume: real)
    requires Folded(done, reasons, tickets, contributions, inDeals, outDeals, netVolume) && IsClosing(d)
    ensures Folded(done + [d], reasons, tickets, contributions + [LifecycleVerdict(d).amount],
                   inDeals, outDeals + [d], netVolume - d.volume)
  {
    GatherCounted(done, d, LifecycleVerdict, TicketOf, contributions, reasons, tickets);
    SidesSnoc(done, d);
    SumSnoc(outDeals, d, VolumeOf);
  }

  lemma SidesSnoc(done: seq<Deal>, d: Deal)
    ensures Filter(done + [d], IsOpening) == if IsOpening(d) then Filter(done, IsOpening) + [d] else Filter(done, IsOpening)
    ensures Filter(done + [d], IsClosing) == if IsClosing(d) then Filter(done, IsClosing) + [d] else Filter(done, IsClosing)
  {
    assert (done + [d])[..|done|] == done;
  }

  /** The fold over one position's deals. */
  method FoldDeals(relevant: seq<Deal>)
    returns (reasons: set<BlockReason>, tickets: seq<nat>, contributions: seq<real>,
             inDeals: seq<Deal>, outDeals: seq<Deal>, netVolume: real)
    ensures Folded(relevant, reasons, tickets, contributions, inDeals, outDeals, netVolume)
  {
    reasons, tickets, contributions, inDeals, outDeals, netVolume := {}, [], [], [], [], 0.0;
    for i := 0 to |relevant|
      invariant Folded(relevant[..i], reasons, tickets, contributions, inDeals, outDeals, netVolume)
    {
      var deal := relevant[i];
      ghost var done := relevant[..i];
      assert relevant[..i + 1] == done + [deal];
      if deal.time <= EPOCH {
        FoldUnsafe(done, deal, reasons, tickets, contributions, inDeals, outDeals, netVolume);
        reasons, tickets := reasons + {MalformedTimestamp}, tickets + [deal.ticket];
      } else if deal.dealType.NonTrading? {
        FoldSkipped(done, deal, reasons, tickets, contributions, inDeals, outDeals, netVolume);
      } else if deal.dealType.UnknownType? {
        FoldUnsafe(done, deal, reasons, tickets, contributions, inDeals, outDeals, netVolume);
        reasons, tickets := reasons + {UnmappableDealType}, tickets + [deal.ticket];
      } else {
        var contribution := ClassifyTradingDeal(deal);
        if contribution.Unsafe? {
          FoldUnsafe(done, deal, reasons, tickets, contributions, inDeals, outDeals, netVolume);
          reasons, tickets := reasons + {contribution.reason}, tickets + [deal.ticket];
        } else if deal.entry.In? {
          FoldOpening(done, deal, reasons, tickets, contributions, inDeals, outDeals, netVolume);
          contributions := contributions + [contribution.amount];
          netVolume, inDeals := netVolume + deal.volume, inDeals + [deal];
        } else {
          FoldClosing(done, deal, reasons, tickets, contributions, inDeals, outDeals, netVolume);
          contributions := contributions + [contribution.amount];
          netVolume, outDeals := netVolume - deal.volume, outDeals + [deal];
        }
      }
    }
    assert relevant[..|relevant|] == relevant;
  }

  method ReconstructPositionLifecycle(p: nat, deals: seq<Deal>)
    returns (r: Result<LifecycleAssessment, TrackingFault>)
    ensures r == Lifecycle(p, deals)
  {
    var relevant := OfPosition(deals, p);
    var reasons, tickets, contributions, inDeals, outDeals, netVolume := FoldDeals(relevant);
    GatheredConclusion(relevant, LifecycleVerdict, TicketOf, REASON_ORDER, contributions, reasons, tickets);
    ghost var assessment := OwnAssessment(deals, p);
    assert assessment == if reasons == {} then Ready(Sum(contributions, Identity))
                         else Blocked(Canonical(REASON_ORDER, reasons), tickets);
    ghost var opening, closing := SideOf(inDeals), SideOf(outDeals);
    assert p != 0 ==> Lifecycle(p, deals) == Conclude(assessment, opening, closing, Sum(contributions, Identity));
    if p == 0 {
      return Failure(InvalidPositionId);
    }
    if reasons != {} {
      return if Distinct(tickets) then Success(LifecycleBlocked(Canonical(REASON_ORDER, reasons), tickets))
             else Failure(RepeatedUnsafeTickets);
    }
    if inDeals == [] {
      return Failure(NoOpeningDeal);
    }
    var entryVolume := Sum(inDeals, VolumeOf);
    if entryVolume == 0.0 {
      return Failure(ZeroEntryVolume);
    }
    var actualEntry := Sum(inDeals, MoneyOf) / entryVolume;
    var realizedPnl := Sum(contributions, Identity);
    if netVolume <= 0.0 {
      if outDeals == [] {
        return Failure(NoClosingDeal);
      }
      var exitVolume := Sum(outDeals, VolumeOf);
      if exitVolume == 0.0 {
        return Failure(ZeroExitVolume);
      }
      return Success(ClosedLifecycle(actualEntry, EarliestTime(inDeals), Sum(outDeals, MoneyOf) / exitVolume,
                                     LatestTime(outDeals), realizedPnl));
    }
    return Success(OpenLifecycle(actualEntry, EarliestTime(inDeals), realizedPnl));
  }

  lemma {:induction false} VolumesNonnegative(deals: seq<Deal>)
    ensures Sum(deals, VolumeOf) >= 0.0
    ensures forall d :: d in deals ==> Sum(deals, VolumeOf) >= d.volume
  {
    if deals != [] {
      VolumesNonnegative(deals[..|deals| - 1]);
    }
  }

  predicate PricesWithin(deals: seq<Deal>, low: real, high: real) {
    forall d :: d in deals ==> low <= d.price <= high
  }

  lemma LowerStep(bound: real, volume: real, v: real, sum: real, price: real, before: real, after: real, fill: real)
    requires v >= 0.0 && bound <= price && sum == volume + v
    requires before == bound * volume && after == bound * sum && fill == price * v
    ensures after <= before + fill
  {
    var part := bound * v;
    assert after == before + part;
    assert (price - bound) * v >= 0.0;
    assert fill - part == (price - bound) * v;
  }

  lemma UpperStep(bound: real, volume: real, v: real, sum: real, price: real, before: real, after: real, fill: real)
    requires v >= 0.0 && price <= bound && sum == volume + v
    requires before == bound * volume && after == bound * sum && fill == price * v
    ensures before + fill <= after
  {
    var part := bound * v;
    assert after == before + part;
    assert (bound - price) * v >= 0.0;
    assert part - fill == (bound - price) * v;
  }

  lemma {:induction false} MoneyAtLeast(deals: seq<Deal>, low: real, volume: real, bound: real)
    requires forall d :: d in deals ==> low <= d.price
    requires volume == Sum(deals, VolumeOf) && bound == low * volume
    ensures bound <= Sum(deals, MoneyOf)
  {
    if deals != [] {
      var init, d := deals[..|deals| - 1], deals[|deals| - 1];
      var earlier := Sum(init, VolumeOf);
      var before := low * earlier;
      assert d in deals;
      MoneyAtLeast(init, low, earlier, before);
      LowerStep(low, earlier, d.volume, volume, d.price, before, bound, MoneyOf(d));
    }
  }

  lemma {:induction false} MoneyAtMost(deals: seq<Deal>, high: real, volume: real, bound: real)
    requires forall d :: d in deals ==> d.price <= high
    requires volume == Sum(deals, VolumeOf) && bound == high * volume
    ensures Sum(deals, MoneyOf) <= bound
  {
    if deals != [] {
      var init, d := deals[..|deals| - 1], deals[|deals| - 1];
      var earlier := Sum(init, VolumeOf);
      var before := high * earlier;
      assert d in deals;
      MoneyAtMost(init, high, earlier, before);
      UpperStep(high, earlier, d.volume, volume, d.price, before, bound, MoneyOf(d));
    }
  }

  /** A volume-weighted average lies between any bounds on the fill prices. */
  lemma AverageWithin(deals: seq<Deal>, low: real, high: real)
    requires PricesWithin(deals, low, high) && SideOf(deals).Volume() > 0.0
    ensures low <= SideOf(deals).Average() <= high
  {
    var money, volume := Sum(deals, MoneyOf), Sum(deals, VolumeOf);
    var lowest, highest := low * volume, high * volume;
    MoneyAtLeast(deals, low, volume, lowest);
    MoneyAtMost(deals, high, volume, highest);
    QuotientAtLeast(money, volume, low, lowest);
    QuotientAtMost(money, volume, high, highest);
  }

  /** Reconstruction raises in exactly three situations. In particular a closed
      position always has a closing deal with volume: neither closing-side failure
      is reachable. */
  lemma FaultsExactly(p: nat, deals: seq<Deal>)
    ensures Lifecycle(p, deals).Failure? <==>
            || p == 0
            || (OwnAssessment(deals, p).Blocked? && !Distinct(OwnAssessment(deals, p).tickets))
            || (OwnAssessment(deals, p).Ready? && OpenedVolume(deals, p) == 0.0)
    ensures Lifecycle(p, deals).Failure? ==> !Lifecycle(p, deals).error.NoClosingDeal?
    ensures Lifecycle(p, deals).Failure? ==> !Lifecycle(p, deals).error.ZeroExitVolume?
    ensures Lifecycle(p, deals).Failure? ==> !Lifecycle(p, deals).error.ExitBeforeEntry?
  {
    VolumesNonnegative(Openings(deals, p));
    VolumesNonnegative(Closings(deals, p));
  }

  /** Closed exactly when the closing volume is at least the opening volume. */
  lemma ClosedIff(p: nat, deals: seq<Deal>)
    requires Lifecycle(p, deals).Success? && !Lifecycle(p, deals).value.LifecycleBlocked?
    ensures Lifecycle(p, deals).value.ClosedLifecycle? <==> ClosedVolume(deals, p) >= OpenedVolume(deals, p)
    ensures Lifecycle(p, deals).value.realizedPnl == PositionPnl(deals, p)
    ensures OpenedVolume(deals, p) > 0.0
  {
    VolumesNonnegative(Openings(deals, p));
    var opening, closing := SideOf(Openings(deals, p)), SideOf(Closings(deals, p));
    ConclusionClosedIff(OwnAssessment(deals, p), opening, closing, PositionPnl(deals, p), Lifecycle(p, deals).value);
  }

  lemma ConclusionClosedIff(assessment: Assessment<BlockReason>, opening: Side, closing: Side, pnl: real,
                            r: LifecycleAssessment)
    requires Conclude(assessment, opening, closing, pnl) == Success(r) && !r.LifecycleBlocked?
    ensures r.ClosedLifecycle? <==> closing.Volume() >= opening.Volume()
    ensures r.realizedPnl == pnl && opening.Volume() != 0.0
  {
  }

  lemma ReadyConclusion(assessment: Assessment<BlockReason>, opening: Side, closing: Side, pnl: real)
    ensures var r := Conclude(assessment, opening, closing, pnl);
            r.Success? && !r.value.LifecycleBlocked? ==>
              && opening.Side? && opening.volume != 0.0
              && r.value.actualEntry == opening.Average()
              && r.value.actualEntryTime == opening.earliest
              && (r.value.ClosedLifecycle? ==>
                    && closing.Side? && closing.volume != 0.0
                    && r.value.exitPrice == closing.Average()
                    && r.value.exitTime == closing.latest)
  {
  }

  /** Entry and exit averages lie between the extreme fill prices of their side. */
  lemma AveragesWithinFills(p: nat, deals: seq<Deal>, low: real, high: real)
    requires Lifecycle(p, deals).Success? && !Lifecycle(p, deals).value.LifecycleBlocked?
    ensures PricesWithin(Openings(deals, p), low, high) ==> low <= Lifecycle(p, deals).value.actualEntry <= high
    ensures Lifecycle(p, deals).value.ClosedLifecycle? && PricesWithin(Closings(deals, p), low, high) ==>
            low <= Lifecycle(p, deals).value.exitPrice <= high
  {
    ReadyConclusion(OwnAssessment(deals, p), SideOf(Openings(deals, p)), SideOf(Closings(deals, p)),
                    PositionPnl(deals, p));
    VolumesNonnegative(Openings(deals, p));
    VolumesNonnegative(Closings(deals, p));
    if PricesWithin(Openings(deals, p), low, high) {
      AverageWithin(Openings(deals, p), low, high);
    }
    if Lifecycle(p, deals).value.ClosedLifecycle? && PricesWithin(Closings(deals, p), low, high) {
      AverageWithin(Closings(deals, p), low, high);
    }
  }

  ghost predicate SameReading(a: Result<LifecycleAssessment, TrackingFault>,
                              b: Result<LifecycleAssessment, TrackingFault>)
  {
    if a.Success? && a.value.LifecycleBlocked? then
      && b.Success? && b.value.LifecycleBlocked?
      && b.value.reasons == a.value.reasons
      && multiset(b.value.tickets) == multiset(a.value.tickets)
    else a == b
  }

  lemma SidesAgree(a: seq<Deal>, b: seq<Deal>)
    requires multiset(a) == multiset(b)
    ensures SideOf(a) == SideOf(b)
  {
    PermutationMembers(a, b);
    SumPermutation(a, b, VolumeOf);
    SumPermutation(a, b, MoneyOf);
  }

  /** Every reordering of the deals reconstructs the same lifecycle. */
  lemma LifecycleOrderIrrelevant(p: nat, a: seq<Deal>, b: seq<Deal>)
    requires multiset(a) == multiset(b)
    ensures SameReading(Lifecycle(p, a), Lifecycle(p, b))
  {
    FilterPermutation(a, b, AtPosition(p));
    var oa, ob := OfPosition(a, p), OfPosition(b, p);
    OrderIrrelevant(oa, ob, LifecycleVerdict, TicketOf, REASON_ORDER);
    SumPermutation(oa, ob, AmountOf(LifecycleVerdict));
    FilterPermutation(oa, ob, IsOpening);
    FilterPermutation(oa, ob, IsClosing);
    SidesAgree(Openings(a, p), Openings(b, p));
    SidesAgree(Closings(a, p), Closings(b, p));
    SameConclusion(OwnAssessment(a, p), OwnAssessment(b, p),
                   SideOf(Openings(a, p)), SideOf(Closings(a, p)), PositionPnl(a, p));
  }

  lemma SameConclusion(a: Assessment<BlockReason>, b: Assessment<BlockReason>, opening: Side, closing: Side, pnl: real)
    requires SameUpToOrder(a, b)
    requires Validated(a).Success? <==> Validated(b).Success?
    ensures SameReading(Conclude(a, opening, closing, pnl), Conclude(b, opening, closing, pnl))
  {
  }

  /** Only a position's own deals matter. */
  lemma LifecycleReadsOwnDeals(p: nat, a: seq<Deal>, b: seq<Deal>)
    requires OfPosition(a, p) == OfPosition(b, p)
    ensures Lifecycle(p, a) == Lifecycle(p, b)
  {
  }
}
