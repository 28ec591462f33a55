/** Broker-aware sizing: the greatest volume on the broker's grid whose risk stays
    within the allocation. */
module Sizing {
  import opened Common
  import opened Matching

  datatype TradeMode = Disabled | LongOnly | ShortOnly | CloseOnly | Full | UnknownTradeMode

  datatype SymbolFacts = SymbolFacts(
    symbol: string,
    tickSize: real,
    tickValueLoss: real,
    point: real,
    volumeMin: real,
    volumeMax: real,
    volumeStep: real,
    stopsLevel: nat,
    mode: TradeMode,
    bid: real,
    ask: real)

  datatype SizingRequest = SizingRequest(
    direction: Direction,
    stopLoss: Amount,
    entryPrice: Option<Amount>,
    allocatedRisk: real)

  /** The request model's own constraints. */
  predicate ValidRequest(r: SizingRequest) {
    (r.direction.Long? || r.direction.Short?) && r.allocatedRisk > 0.0
  }

  datatype SizingResult =
    | Actionable(volume: real, risk: real)
    | InvalidCurrentPrice
    | SymbolNotTradable
    | InvalidTickEconomics
    | InvalidVolumeConstraints
    | InvalidStopDistance
    | BelowBrokerMinimumVolume
    | RiskVerificationFailed

  function FloorVolumeToStep(volume: real, volumeMin: real, volumeMax: real, volumeStep: real): Option<real> {
    if volumeMin <= 0.0 || volumeStep <= 0.0 || volumeMax < volumeMin then None
    else
      var capped := Min(volume, volumeMax);
      if capped < volumeMin then None
      else Some(volumeMin + ((capped - volumeMin) / volumeStep).Floor as real * volumeStep)
  }

  predicate DirectionBlocked(direction: Direction, mode: TradeMode) {
    if direction.Long? then mode in {Disabled, ShortOnly, CloseOnly, UnknownTradeMode}
    else mode in {Disabled, LongOnly, CloseOnly, UnknownTradeMode}
  }

  function ReferencePrice(r: SizingRequest, facts: SymbolFacts): real {
    match r.entryPrice
    case Some(price) => price
    case None => if r.direction.Long? then facts.ask else facts.bid
  }

  function RiskPerVolume(price: real, stopLoss: real, facts: SymbolFacts): real
    requires facts.tickSize != 0.0
  {
    (Abs(price - stopLoss) / facts.tickSize) * facts.tickValueLoss
  }

  predicate TickEconomicsUsable(facts: SymbolFacts) { facts.tickSize > 0.0 && facts.tickValueLoss > 0.0 }

  predicate VolumeConstraintsUsable(facts: SymbolFacts) {
    facts.volumeMin > 0.0 && facts.volumeStep > 0.0 && facts.volumeMax >= facts.volumeMin
  }

  predicate ValidStopSide(direction: Direction, price: real, stopLoss: real) {
    if direction.Long? then stopLoss < price else stopLoss > price
  }

  lemma RiskPerVolumePositive(price: real, stopLoss: real, facts: SymbolFacts)
    requires TickEconomicsUsable(facts) && price != stopLoss
    ensures RiskPerVolume(price, stopLoss, facts) > 0.0
  {
    var ticks := Abs(price - stopLoss) / facts.tickSize;
    assert ticks * facts.tickSize == Abs(price - stopLoss);
    assert ticks > 0.0;
    assert ticks * facts.tickValueLoss > 0.0;
  }

  function ComputeBrokerSizing(r: SizingRequest, facts: SymbolFacts): SizingResult {
    var price := ReferencePrice(r, facts);
    if r.entryPrice.None? && price <= 0.0 then InvalidCurrentPrice
    else if DirectionBlocked(r.direction, facts.mode) then SymbolNotTradable
    else if !TickEconomicsUsable(facts) then InvalidTickEconomics
    else if !VolumeConstraintsUsable(facts) then InvalidVolumeConstraints
    else if !ValidStopSide(r.direction, price, r.stopLoss) then InvalidStopDistance
    else
      var perVolume := RiskPerVolume(price, r.stopLoss, facts);
      RiskPerVolumePositive(price, r.stopLoss, facts);
      var normalized := FloorVolumeToStep(r.allocatedRisk / perVolume, facts.volumeMin, facts.volumeMax, facts.volumeStep);
      if normalized.None? then BelowBrokerMinimumVolume
      else if perVolume * normalized.value > r.allocatedRisk then RiskVerificationFailed
      else Actionable(normalized.value, perVolume * normalized.value)
  }

  /** The broker's k-th valid volume. */
  function GridPoint(facts: SymbolFacts, k: nat): real {
    facts.volumeMin + k as real * facts.volumeStep
  }

  predicate Affordable(volume: real, perVolume: real, risk: real, facts: SymbolFacts) {
    volume <= facts.volumeMax && perVolume * volume <= risk
  }

  /** `volume` is a grid point, it is affordable, and no greater grid point is. */
  ghost predicate GreatestAffordable(volume: real, perVolume: real, risk: real, facts: SymbolFacts) {
    && (exists k: nat :: volume == GridPoint(facts, k))
    && Affordable(volume, perVolume, risk, facts)
    && forall k: nat :: Affordable(GridPoint(facts, k), perVolume, risk, facts) ==> GridPoint(facts, k) <= volume
  }

  /** Staying within the risk is staying at or below the raw volume. */
  lemma WithinRiskIffBelowRaw(volume: real, perVolume: real, risk: real)
    requires perVolume > 0.0
    ensures perVolume * volume <= risk <==> volume <= risk / perVolume
  {
    var raw := risk / perVolume;
    assert perVolume * raw == risk;
    if volume <= raw {
      assert perVolume * (raw - volume) >= 0.0;
    } else {
      assert perVolume * (volume - raw) > 0.0;
    }
  }

  lemma FloorSteps(distance: real, step: real, k: nat)
    requires distance >= 0.0 && step > 0.0
    ensures (distance / step).Floor >= 0
    ensures (distance / step).Floor as real * step <= distance
    ensures k as real * step <= distance ==> k <= (distance / step).Floor
  {
    var ratio := distance / step;
    assert ratio * step == distance;
    assert ratio >= 0.0;
    assert (ratio - ratio.Floor as real) * step >= 0.0;
    if k as real * step <= distance {
      assert (ratio - k as real) * step >= 0.0;
      assert k as real <= ratio;
    }
  }

  /** Flooring to the grid loses nothing: the result is the greatest grid point not
      above the capped volume, and there is one iff the minimum fits. */
  lemma FloorIsGreatest(volume: real, facts: SymbolFacts, k: nat)
    requires VolumeConstraintsUsable(facts)
    ensures var r := FloorVolumeToStep(volume, facts.volumeMin, facts.volumeMax, facts.volumeStep);
            && (r.None? <==> volume < facts.volumeMin)
            && (r.Some? ==>
                  && r.value <= volume && r.value <= facts.volumeMax && r.value >= facts.volumeMin
                  && (exists j: nat :: r.value == GridPoint(facts, j))
                  && (GridPoint(facts, k) <= Min(volume, facts.volumeMax) ==> GridPoint(facts, k) <= r.value))
  {
    var capped := Min(volume, facts.volumeMax);
    if capped >= facts.volumeMin {
      var steps := ((capped - facts.volumeMin) / facts.volumeStep).Floor;
      FloorSteps(capped - facts.volumeMin, facts.volumeStep, k);
      assert facts.volumeMin + steps as real * facts.volumeStep == GridPoint(facts, steps as nat);
      if GridPoint(facts, k) <= capped {
        ScaleOrder(k as real, steps as real, facts.volumeStep, k as real * facts.volumeStep, steps as real * facts.volumeStep);
      }
    }
  }

  /** The risk re-check can never fail in exact arithmetic, and an ACTIONABLE sizing
      returns the greatest affordable grid point together with its risk. */
  lemma ActionableIsGreatest(r: SizingRequest, facts: SymbolFacts)
    requires ValidRequest(r)
    ensures !ComputeBrokerSizing(r, facts).RiskVerificationFailed?
    ensures ComputeBrokerSizing(r, facts).Actionable? ==>
              && TickEconomicsUsable(facts)
              && var perVolume := RiskPerVolume(ReferencePrice(r, facts), r.stopLoss, facts);
              && var sized := ComputeBrokerSizing(r, facts);
              && sized.risk == perVolume * sized.volume
              && 0.0 < sized.risk <= r.allocatedRisk
              && GreatestAffordable(sized.volume, perVolume, r.allocatedRisk, facts)
  {
    var price := ReferencePrice(r, facts);
    if ReachesVolume(r, facts) {
      var perVolume := RiskPerVolume(price, r.stopLoss, facts);
      RiskPerVolumePositive(price, r.stopLoss, facts);
      var raw := r.allocatedRisk / perVolume;
      FloorIsGreatest(raw, facts, 0);
      var normalized := FloorVolumeToStep(raw, facts.volumeMin, facts.volumeMax, facts.volumeStep);
      if normalized.Some? {
        WithinRiskIffBelowRaw(normalized.value, perVolume, r.allocatedRisk);
        assert perVolume * normalized.value > 0.0;
        forall k: nat | Affordable(GridPoint(facts, k), perVolume, r.allocatedRisk, facts)
          ensures GridPoint(facts, k) <= normalized.value
        {
          WithinRiskIffBelowRaw(GridPoint(facts, k), perVolume, r.allocatedRisk);
          FloorIsGreatest(raw, facts, k);
        }
      }
    }
  }

  /** Every check before the volume arithmetic passes. */
  predicate ReachesVolume(r: SizingRequest, facts: SymbolFacts) {
    && (r.entryPrice.Some? || ReferencePrice(r, facts) > 0.0)
    && !DirectionBlocked(r.direction, facts.mode)
    && TickEconomicsUsable(facts)
    && VolumeConstraintsUsable(facts)
    && ValidStopSide(r.direction, ReferencePrice(r, facts), r.stopLoss)
  }

  /** Sizing succeeds exactly when the inputs are usable and the broker's minimum
      volume is affordable; BELOW_BROKER_MINIMUM_VOLUME says exactly that it is not. */
  lemma ActionableIff(r: SizingRequest, facts: SymbolFacts)
    requires ValidRequest(r)
    ensures ComputeBrokerSizing(r, facts).Actionable? <==>
            ReachesVolume(r, facts) &&
            RiskPerVolume(ReferencePrice(r, facts), r.stopLoss, facts) * facts.volumeMin <= r.allocatedRisk
    ensures ComputeBrokerSizing(r, facts).BelowBrokerMinimumVolume? <==>
            ReachesVolume(r, facts) &&
            RiskPerVolume(ReferencePrice(r, facts), r.stopLoss, facts) * facts.volumeMin > r.allocatedRisk
  {
    ActionableIsGreatest(r, facts);
    if ReachesVolume(r, facts) {
      var perVolume := RiskPerVolume(ReferencePrice(r, facts), r.stopLoss, facts);
      RiskPerVolumePositive(ReferencePrice(r, facts), r.stopLoss, facts);
      FloorIsGreatest(r.allocatedRisk / perVolume, facts, 0);
      WithinRiskIffBelowRaw(facts.volumeMin, perVolume, r.allocatedRisk);
    }
  }

  // ---- in money ------------------------------------------------------------------------

  /** What a volume loses at the stop, times the tick size: the distance in price times
      the value of a tick times the volume. */
  function LossAtStop(price: real, stopLoss: real, facts: SymbolFacts, volume: real): real {
    (if price >= stopLoss then price - stopLoss else stopLoss - price) * facts.tickValueLoss * volume
  }

  lemma RiskIsLoss(price: real, stopLoss: real, facts: SymbolFacts, volume: real, risk: real)
    requires facts.tickSize > 0.0 && risk == RiskPerVolume(price, stopLoss, facts) * volume
    ensures risk * facts.tickSize == LossAtStop(price, stopLoss, facts, volume)
  {
    var distance := Abs(price - stopLoss);
    var ticks := distance / facts.tickSize;
    QuotientTimes(distance, facts.tickSize);
    TicksInMoney(ticks, facts.tickSize, distance, facts.tickValueLoss, volume, ticks * facts.tickValueLoss, risk);
  }

  /** The price a sizing is measured from: the setup's entry, or else the side of the
      market that would be traded. */
  predicate MeasuredFrom(r: SizingRequest, facts: SymbolFacts, price: real) {
    if r.entryPrice.Some? then price == r.entryPrice.value
    else if r.direction.Long? then price == facts.ask
    else price == facts.bid
  }

  /** `volume` is the broker's minimum plus `k` steps. */
  predicate OnGrid(volume: real, k: nat, facts: SymbolFacts) {
    volume == facts.volumeMin + k as real * facts.volumeStep
  }

  /** An ACTIONABLE sizing in money: its volume is on the broker's grid and within its
      maximum, the risk it reports is what that volume loses at the stop, and that is
      within the allocation. */
  lemma ActionableInMoney(r: SizingRequest, facts: SymbolFacts, price: real)
    requires ValidRequest(r) && MeasuredFrom(r, facts, price) && ComputeBrokerSizing(r, facts).Actionable?
    ensures var sized := ComputeBrokerSizing(r, facts);
            && facts.tickSize > 0.0
            && sized.risk * facts.tickSize == LossAtStop(price, r.stopLoss, facts, sized.volume)
            && 0.0 < sized.risk <= r.allocatedRisk
            && sized.volume <= facts.volumeMax
            && exists k: nat :: OnGrid(sized.volume, k, facts)
  {
    ActionableIsGreatest(r, facts);
    var sized := ComputeBrokerSizing(r, facts);
    RiskIsLoss(price, r.stopLoss, facts, sized.volume, sized.risk);
    var k: nat :| sized.volume == GridPoint(facts, k);
    assert OnGrid(sized.volume, k, facts);
  }

  /** Any greater volume on the grid exceeds the broker's maximum, or loses more than
      the allocation. */
  lemma GreaterLosesMore(r: SizingRequest, facts: SymbolFacts, price: real, volume: real, k: nat)
    requires ValidRequest(r) && MeasuredFrom(r, facts, price) && ComputeBrokerSizing(r, facts).Actionable?
    requires OnGrid(volume, k, facts) && volume > ComputeBrokerSizing(r, facts).volume
    ensures volume > facts.volumeMax || LossAtStop(price, r.stopLoss, facts, volume) > r.allocatedRisk * facts.tickSize
  {
    ActionableIsGreatest(r, facts);
    var perVolume := RiskPerVolume(price, r.stopLoss, facts);
    NotAffordable(ComputeBrokerSizing(r, facts).volume, perVolume, r.allocatedRisk, facts, volume, k);
    ExceedsInMoney(price, r.stopLoss, facts, volume, perVolume * volume, r.allocatedRisk);
  }

  lemma NotAffordable(greatest: real, perVolume: real, risk: real, facts: SymbolFacts, volume: real, k: nat)
    requires GreatestAffordable(greatest, perVolume, risk, facts) && OnGrid(volume, k, facts) && volume > greatest
    ensures volume > facts.volumeMax || perVolume * volume > risk
  {
    assert volume == GridPoint(facts, k);
    assert !Affordable(GridPoint(facts, k), perVolume, risk, facts);
  }

  lemma ExceedsInMoney(price: real, stopLoss: real, facts: SymbolFacts, volume: real, risk: real, allowed: real)
    requires facts.tickSize > 0.0 && risk == RiskPerVolume(price, stopLoss, facts) * volume
    ensures risk > allowed <==> LossAtStop(price, stopLoss, facts, volume) > allowed * facts.tickSize
  {
    RiskIsLoss(price, stopLoss, facts, volume, risk);
    if risk > allowed {
      ScaleStrictly(allowed, risk, facts.tickSize, allowed * facts.tickSize, risk * facts.tickSize);
    } else {
      ScaleOrder(risk, allowed, facts.tickSize, risk * facts.tickSize, allowed * facts.tickSize);
    }
  }

  predicate TradableSide(direction: Direction, mode: TradeMode) {
    mode.Full? || (direction.Long? && mode.LongOnly?) || (!direction.Long? && mode.ShortOnly?)
  }

  /** Sizing succeeds exactly when there is a price, the side may be traded, tick and
      volume facts are usable, the stop is on the losing side, and the broker's minimum
      volume loses no more than the allocation. */
  lemma ActionableInMoneyIff(r: SizingRequest, facts: SymbolFacts, price: real)
    requires ValidRequest(r) && MeasuredFrom(r, facts, price)
    ensures ComputeBrokerSizing(r, facts).Actionable? <==>
              && (r.entryPrice.Some? || price > 0.0)
              && TradableSide(r.direction, facts.mode)
              && facts.tickSize > 0.0 && facts.tickValueLoss > 0.0
              && facts.volumeMin > 0.0 && facts.volumeStep > 0.0 && facts.volumeMin <= facts.volumeMax
              && (if r.direction.Long? then r.stopLoss < price else price < r.stopLoss)
              && LossAtStop(price, r.stopLoss, facts, facts.volumeMin) <= r.allocatedRisk * facts.tickSize
  {
    ActionableIff(r, facts);
    assert DirectionBlocked(r.direction, facts.mode) <==> !TradableSide(r.direction, facts.mode);
    if ReachesVolume(r, facts) {
      var perVolume := RiskPerVolume(price, r.stopLoss, facts);
      ExceedsInMoney(price, r.stopLoss, facts, facts.volumeMin, perVolume * facts.volumeMin, r.allocatedRisk);
    }
  }
}
