/** Realized PnL is the same money however it is grouped: over a READY span it is
    the sum over trading days and the sum over position lifecycles. */
module PnlConservation {
  import opened Common
  import opened FailClosed
  import opened Deals
  import opened History
  import opened PositionLifecycle

  /** Every deal lies in the span, and every deal that is not a safe account
      operation belongs to one of the listed positions. */
  ghost predicate Covers(positions: seq<nat>, deals: seq<Deal>, start: int, end: int) {
    && Distinct(positions)
    && (forall d :: d in deals ==> start <= d.time < end)
    && (forall d :: d in deals && !LifecycleVerdict(d).Skipped? ==> d.positionId in positions)
  }

  /** The PnL that `Lifecycle` reports for a position, when it reports one. */
  function ReportedPnl(deals: seq<Deal>): nat -> real {
    (p: nat) =>
      var r := Lifecycle(p, deals);
      if r.Success? && !r.value.LifecycleBlocked? then r.value.realizedPnl else 0.0
  }

  function PnlOfPosition(deals: seq<Deal>): nat -> real {
    (p: nat) => PositionPnl(deals, p)
  }

  function AmountWithin(positions: seq<nat>): Deal -> real {
    (d: Deal) => if d.positionId in positions then AmountOf(LifecycleVerdict)(d) else 0.0
  }

  function AmountAt(p: nat): Deal -> real {
    (d: Deal) => if d.positionId == p then AmountOf(LifecycleVerdict)(d) else 0.0
  }

  /** Summing position by position is summing deal by deal. */
  lemma {:induction false} PositionsSumToDeals(positions: seq<nat>, deals: seq<Deal>)
    requires Distinct(positions)
    ensures Sum(positions, PnlOfPosition(deals)) == Sum(deals, AmountWithin(positions))
  {
    if positions == [] {
      SumZero(deals, AmountWithin(positions));
    } else {
      var init, p := positions[..|positions| - 1], positions[|positions| - 1];
      PositionsSumToDeals(init, deals);
      SumFilter(deals, AtPosition(p), AmountOf(LifecycleVerdict), AmountAt(p));
      assert positions == init + [p] && p !in init;
      SumAdd(deals, AmountWithin(init), AmountAt(p), AmountWithin(positions));
    }
  }

  lemma SpanReadyMeansSafe(positions: seq<nat>, deals: seq<Deal>, start: int, end: int)
    requires Covers(positions, deals, start, end)
    ensures DailyAssessment(deals, start, end).Ready? <==> forall d :: d in deals ==> !LifecycleVerdict(d).Unsafe?
    ensures forall d :: d in deals ==> AmountOf(DailyVerdict(start, end))(d) == AmountOf(LifecycleVerdict)(d)
  {
    ReadyIffAllSafe(deals, DailyVerdict(start, end), TicketOf, REASON_ORDER);
    forall d | d in deals
      ensures DailyVerdict(start, end)(d).Unsafe? <==> LifecycleVerdict(d).Unsafe?
      ensures AmountOf(DailyVerdict(start, end))(d) == AmountOf(LifecycleVerdict)(d)
    {
    }
  }

  /** The span is READY exactly when no position's own deals block. */
  lemma SpanReadyIffPositionsReady(positions: seq<nat>, deals: seq<Deal>, start: int, end: int)
    requires Covers(positions, deals, start, end)
    ensures DailyAssessment(deals, start, end).Ready? <==>
            forall p :: p in positions ==> OwnAssessment(deals, p).Ready?
  {
    SpanReadyMeansSafe(positions, deals, start, end);
    forall p | p in positions
      ensures OwnAssessment(deals, p).Ready? <==>
              forall d :: d in deals && d.positionId == p ==> !LifecycleVerdict(d).Unsafe?
    {
      OwnDeals(deals, p);
      ReadyIffAllSafe(OfPosition(deals, p), LifecycleVerdict, TicketOf, REASON_ORDER);
    }
  }

  /** Conservation by position: over a READY span whose positions all reconstruct,
      the sum of lifecycle `realized_pnl` equals the span's realized PnL. */
  lemma LifecyclesPartitionSpan(positions: seq<nat>, deals: seq<Deal>, start: int, end: int)
    requires Covers(positions, deals, start, end)
    requires DailyAssessment(deals, start, end).Ready?
    requires forall p :: p in positions ==> Lifecycle(p, deals).Success?
    ensures DailyAssessment(deals, start, end).total == Sum(positions, ReportedPnl(deals))
  {
    SpanReadyMeansSafe(positions, deals, start, end);
    SpanReadyIffPositionsReady(positions, deals, start, end);
    forall p | p in positions
      ensures ReportedPnl(deals)(p) == PnlOfPosition(deals)(p)
    {
      ReportsItsPnl(p, deals);
    }
    SumSame(positions, ReportedPnl(deals), PnlOfPosition(deals));
    PositionsSumToDeals(positions, deals);
    forall d | d in deals
      ensures AmountWithin(positions)(d) == AmountOf(LifecycleVerdict)(d)
    {
    }
    SumSame(deals, AmountWithin(positions), AmountOf(LifecycleVerdict));
    SumSame(deals, AmountOf(DailyVerdict(start, end)), AmountOf(LifecycleVerdict));
  }

  lemma ReportsItsPnl(p: nat, deals: seq<Deal>)
    requires OwnAssessment(deals, p).Ready? && Lifecycle(p, deals).Success?
    ensures !Lifecycle(p, deals).value.LifecycleBlocked?
    ensures Lifecycle(p, deals).value.realizedPnl == PositionPnl(deals, p)
  {
  }

  /** Both groupings at once: the daily figures of consecutive trading days and the
      lifecycle figures of the positions traded in them add up to the same sum. */
  lemma DaysAndPositionsAgree(positions: seq<nat>, deals: seq<Deal>, cuts: seq<int>)
    requires |cuts| >= 2 && Boundaries(cuts)
    requires Covers(positions, deals, cuts[0], cuts[|cuts| - 1])
    requires forall day :: 0 <= day < |cuts| - 1 ==> DayReady(deals, cuts, day)
    requires forall p :: p in positions ==> Lifecycle(p, deals).Success?
    ensures DayTotals(deals, cuts) == Sum(positions, ReportedPnl(deals))
  {
    DaysPartitionSpan(deals, cuts);
    LifecyclesPartitionSpan(positions, deals, cuts[0], cuts[|cuts| - 1]);
  }
}
