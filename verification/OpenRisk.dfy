/** Account-wide risk from current prices to protective stops. */
module OpenRisk {
  import opened Common
  import opened FailClosed

  datatype Side = Buy | Sell

  /** `priceOpen` and `volume` are positive, `priceCurrent` and a stop nonnegative. */
  datatype Position = Position(
    ticket: nat,
    symbol: string,
    side: Side,
    volume: real,
    priceOpen: real,
    priceCurrent: Amount,
    stopLoss: Option<Amount>)

  predicate ValidPosition(p: Position) { p.volume > 0.0 && p.priceOpen > 0.0 }

  datatype TickFacts = TickFacts(tickSize: real, tickValueLoss: real)

  datatype BlockReason = NoProtectiveStop | InvalidCurrentPrice | InvalidTickEconomics | SymbolUnavailable

  const REASON_ORDER: seq<BlockReason> :=
    [NoProtectiveStop, InvalidCurrentPrice, InvalidTickEconomics, SymbolUnavailable]

  function TicketOf(p: Position): nat { p.ticket }

  predicate IsProtected(p: Position) {
    && p.stopLoss.Some?
    && if p.side.Buy? then p.stopLoss.value >= p.priceOpen else p.stopLoss.value <= p.priceOpen
  }

  function PositionContribution(p: Position, facts: map<string, TickFacts>): (v: Verdict<BlockReason>)
    ensures !v.Skipped?
  {
    if p.stopLoss.None? then Unsafe(NoProtectiveStop)
    else if IsProtected(p) then Counted(0.0)
    else if p.priceCurrent <= 0.0 then Unsafe(InvalidCurrentPrice)
    else if p.symbol !in facts then Unsafe(SymbolUnavailable)
    else if facts[p.symbol].tickSize <= 0.0 || facts[p.symbol].tickValueLoss <= 0.0 then Unsafe(InvalidTickEconomics)
    else
      var distance := if p.side.Buy? then Max(0.0, p.priceCurrent - p.stopLoss.value)
                      else Max(0.0, p.stopLoss.value - p.priceCurrent);
      Counted((distance / facts[p.symbol].tickSize) * facts[p.symbol].tickValueLoss * p.volume)
  }

  function Contribution(facts: map<string, TickFacts>): Position -> Verdict<BlockReason> {
    (p: Position) => PositionContribution(p, facts)
  }

  function RiskAssessment(positions: seq<Position>, facts: map<string, TickFacts>): Assessment<BlockReason> {
    Assess(positions, Contribution(facts), TicketOf, REASON_ORDER)
  }

  method AssessOpenRisk(positions: seq<Position>, facts: map<string, TickFacts>)
    returns (r: Result<Assessment<BlockReason>, Fault>)
    ensures r == Validated(RiskAssessment(positions, facts))
  {
    var contributions: seq<real> := [];
    var reasons: set<BlockReason> := {};
    var tickets: seq<nat> := [];
    ghost var classify := Contribution(facts);
    for i := 0 to |positions|
      invariant Gathered(positions[..i], classify, TicketOf, contributions, reasons, tickets)
    {
      var position := positions[i];
      ghost var done := positions[..i];
      assert positions[..i + 1] == done + [position];
      var contribution := PositionContribution(position, facts);
      assert contribution == classify(position);
      if contribution.Unsafe? {
        GatherUnsafe(done, position, classify, TicketOf, contributions, reasons, tickets);
        reasons, tickets := reasons + {contribution.reason}, tickets + [position.ticket];
      } else {
        GatherCounted(done, position, classify, TicketOf, contributions, reasons, tickets);
        contributions := contributions + [contribution.amount];
      }
    }
    assert positions[..|positions|] == positions;
    GatheredConclusion(positions, classify, TicketOf, REASON_ORDER, contributions, reasons, tickets);
    if reasons != {} {
      r := Validated(Blocked(Canonical(REASON_ORDER, reasons), tickets));
    } else {
      r := Success(Ready(Sum(contributions, Identity)));
    }
  }

  lemma ProductNonnegative(a: real, b: real)
    requires a >= 0.0 && b >= 0.0
    ensures a * b >= 0.0
  {
  }

  lemma QuotientNonnegative(a: real, b: real)
    requires a >= 0.0 && b > 0.0
    ensures a / b >= 0.0
  {
    assert (a / b) * b == a;
  }

  /** A counted position never lowers the total, and contributes nothing exactly when
      its stop already guarantees its entry or the price is at or beyond the stop. */
  lemma ContributionSign(p: Position, facts: map<string, TickFacts>)
    requires ValidPosition(p) && Contribution(facts)(p).Counted?
    ensures Contribution(facts)(p).amount >= 0.0
    ensures Contribution(facts)(p).amount == 0.0 <==>
            || IsProtected(p)
            || (p.side.Buy? && p.priceCurrent <= p.stopLoss.value)
            || (p.side.Sell? && p.priceCurrent >= p.stopLoss.value)
  {
    if !IsProtected(p) {
      var f := facts[p.symbol];
      var distance := if p.side.Buy? then Max(0.0, p.priceCurrent - p.stopLoss.value)
                      else Max(0.0, p.stopLoss.value - p.priceCurrent);
      var ticks := distance / f.tickSize;
      assert ticks * f.tickSize == distance;
      QuotientNonnegative(distance, f.tickSize);
      ProductNonnegative(ticks, f.tickValueLoss);
      ProductNonnegative(ticks * f.tickValueLoss, p.volume);
      if distance > 0.0 {
        assert ticks > 0.0;
        assert ticks * f.tickValueLoss > 0.0;
        assert ticks * f.tickValueLoss * p.volume > 0.0;
      }
    }
  }

  /** What a position must show to be priced. */
  predicate Assessable(p: Position, facts: map<string, TickFacts>) {
    && p.stopLoss.Some?
    && (!IsProtected(p) ==>
          && p.priceCurrent > 0.0
          && p.symbol in facts
          && facts[p.symbol].tickSize > 0.0
          && facts[p.symbol].tickValueLoss > 0.0)
  }

  /** READY exactly when every position can be priced; the total is then never
      negative. */
  lemma ReadyIffAssessable(positions: seq<Position>, facts: map<string, TickFacts>)
    requires forall p :: p in positions ==> ValidPosition(p)
    ensures RiskAssessment(positions, facts).Ready? <==> forall p :: p in positions ==> Assessable(p, facts)
    ensures RiskAssessment(positions, facts).Ready? ==> RiskAssessment(positions, facts).total >= 0.0
  {
    ReadyIffAllSafe(positions, Contribution(facts), TicketOf, REASON_ORDER);
    TotalNonnegative(positions, facts);
  }

  lemma {:induction false} TotalNonnegative(positions: seq<Position>, facts: map<string, TickFacts>)
    requires forall p :: p in positions ==> ValidPosition(p)
    ensures Sum(positions, AmountOf(Contribution(facts))) >= 0.0
  {
    if positions != [] {
      var last := positions[|positions| - 1];
      TotalNonnegative(positions[..|positions| - 1], facts);
      if Contribution(facts)(last).Counted? {
        ContributionSign(last, facts);
      }
    }
  }

  // ---- in money ----------------------------------------------------------------------------

  /** How far the price can still fall to the stop of a BUY, or rise to that of a SELL. */
  function DistanceToStop(p: Position): real
    requires p.stopLoss.Some?
  {
    match p.side
    case Buy => if p.priceCurrent > p.stopLoss.value then p.priceCurrent - p.stopLoss.value else 0.0
    case Sell => if p.priceCurrent < p.stopLoss.value then p.stopLoss.value - p.priceCurrent else 0.0
  }

  /** A stop at the entry or beyond, on the winning side. */
  predicate LocksInEntry(p: Position) {
    p.stopLoss.Some? &&
    ((p.side.Buy? && p.priceOpen <= p.stopLoss.value) || (p.side.Sell? && p.stopLoss.value <= p.priceOpen))
  }

  /** A counted position that does not lock in its entry adds, times the tick size, the
      distance to its stop times the value of a tick times its volume. */
  lemma ContributionInMoney(p: Position, facts: map<string, TickFacts>)
    requires Contribution(facts)(p).Counted?
    ensures p.stopLoss.Some?
    ensures if LocksInEntry(p) then Contribution(facts)(p).amount == 0.0
            else
              && p.symbol in facts && facts[p.symbol].tickSize > 0.0
              && Contribution(facts)(p).amount * facts[p.symbol].tickSize ==
                 DistanceToStop(p) * facts[p.symbol].tickValueLoss * p.volume
  {
    if !LocksInEntry(p) {
      var f, distance := facts[p.symbol], DistanceToStop(p);
      var ticks := distance / f.tickSize;
      QuotientTimes(distance, f.tickSize);
      TicksInMoney(ticks, f.tickSize, distance, f.tickValueLoss, p.volume, ticks * f.tickValueLoss,
                   Contribution(facts)(p).amount);
    }
  }

  /** Which reason a position that cannot be priced gives: the first that applies. */
  lemma UnpricedFor(p: Position, facts: map<string, TickFacts>, reason: BlockReason)
    ensures Contribution(facts)(p) == Unsafe(reason) <==>
              match reason
              case NoProtectiveStop => p.stopLoss.None?
              case InvalidCurrentPrice => p.stopLoss.Some? && !LocksInEntry(p) && p.priceCurrent == 0.0
              case SymbolUnavailable =>
                p.stopLoss.Some? && !LocksInEntry(p) && p.priceCurrent > 0.0 && p.symbol !in facts
              case InvalidTickEconomics =>
                && p.stopLoss.Some? && !LocksInEntry(p) && p.priceCurrent > 0.0 && p.symbol in facts
                && (facts[p.symbol].tickSize <= 0.0 || facts[p.symbol].tickValueLoss <= 0.0)
  {
  }

  /** A READY assessment is worth the sum of those amounts, and a blocked one names each
      reason some position gives. */
  lemma OpenRiskOf(positions: seq<Position>, facts: map<string, TickFacts>, amount: Position -> real, reason: BlockReason)
    requires forall p :: p in positions && Contribution(facts)(p).Counted? ==> amount(p) == Contribution(facts)(p).amount
    ensures var a := RiskAssessment(positions, facts);
            && (a.Ready? ==> a.total == Sum(positions, amount))
            && ((a.Blocked? && reason in a.reasons) <==> exists p :: p in positions && Contribution(facts)(p) == Unsafe(reason))
  {
    var classify := Contribution(facts);
    ReadyIffAllSafe(positions, classify, TicketOf, REASON_ORDER);
    if RiskAssessment(positions, facts).Ready? {
      SumSame(positions, AmountOf(classify), amount);
    } else {
      assert REASON_ORDER[0].NoProtectiveStop? && REASON_ORDER[1].InvalidCurrentPrice?
             && REASON_ORDER[2].InvalidTickEconomics? && REASON_ORDER[3].SymbolUnavailable?;
      FilterMembers(REASON_ORDER, r => r in ReasonSet(positions, classify));
      if reason in ReasonSet(positions, classify) {
        var p :| p in positions && classify(p).Unsafe? && classify(p).reason == reason;
        assert classify(p) == Unsafe(reason);
      }
    }
  }
}
