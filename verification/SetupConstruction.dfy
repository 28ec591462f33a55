/** From M15 structure to a price/risk setup: stop selection, stop rounding away
    from entry, geometry and broker stop distance. */
module SetupConstruction {
  import opened Common
  import opened Matching
  import opened Sizing
  import opened Strategies

  datatype SwingKind = High | Low

  datatype Swing = Swing(kind: SwingKind, time: int, price: Amount)

  datatype BreakDirection = UpwardBreak | DownwardBreak

  datatype StructuralBreak = StructuralBreak(direction: BreakDirection, brokenSwing: Swing)

  datatype Structure = Structure(swings: seq<Swing>, breaks: seq<StructuralBreak>, usable: bool)

  datatype Setup = Setup(
    family: Family,
    direction: Direction,
    symbol: string,
    entryPrice: Amount,
    stopLoss: Amount,
    riskPerUnit: real,
    signalTime: int,
    validUntil: int)

  datatype SetupBlock =
    | FamilySetupUnavailable
    | MissingStopReference
    | InvalidStopSide
    | SharedFactUnavailable
    | BrokerStopDistance

  datatype SetupOutcome = Constructed(setup: Setup) | SetupBlocked(reason: SetupBlock)

  /** A setup model refuses a negative price by raising. */
  datatype SetupFault = NegativePrice

  const SIGNAL_EXECUTION_WINDOW: int := 300_000_000

  predicate FactsUsable(facts: SymbolFacts) {
    TickEconomicsUsable(facts) && facts.point > 0.0
  }

  function EntryPrice(direction: Direction, facts: SymbolFacts): real {
    if direction.Long? then facts.ask else facts.bid
  }

  /** Whole ticks, away from entry. */
  function RoundedTicks(ticks: real, direction: Direction): (n: int)
    ensures direction.Long? ==> n as real <= ticks < n as real + 1.0
    ensures !direction.Long? ==> n as real - 1.0 < ticks <= n as real
  {
    if direction.Long? then ticks.Floor else -(-ticks).Floor
  }

  function TickMultiple(n: int, tick: real): real { n as real * tick }

  function RoundStopToTick(price: real, direction: Direction, tick: real): real
    requires tick > 0.0
  {
    TickMultiple(RoundedTicks(price / tick, direction), tick)
  }

  function OfKind(kind: SwingKind): Swing -> bool {
    (s: Swing) => s.kind == kind
  }

  /** Python's `max(..., key=candle_time)`: the first of the latest swings. */
  function LatestSwing(swings: seq<Swing>): Swing
    requires swings != []
  {
    var last := swings[|swings| - 1];
    if |swings| == 1 then last
    else
      var best := LatestSwing(swings[..|swings| - 1]);
      if last.time > best.time then last else best
  }

  function SelectTrendFollowingStop(direction: Direction, structure: Structure): Option<real> {
    var candidates := Filter(structure.swings, OfKind(if direction.Long? then Low else High));
    if candidates == [] then None else Some(LatestSwing(candidates).price)
  }

  function SelectBreakoutStop(direction: Direction, structure: Structure): Option<real> {
    if structure.breaks == [] then None
    else
      var latest := structure.breaks[|structure.breaks| - 1];
      if latest.direction != (if direction.Long? then UpwardBreak else DownwardBreak) then None
      else Some(latest.brokenSwing.price)
  }

  function SelectStop(family: Family, direction: Direction, structure: Structure): Option<real> {
    if family.TrendFollowing? then SelectTrendFollowingStop(direction, structure)
    else SelectBreakoutStop(direction, structure)
  }

  function BrokerDistance(direction: Direction, facts: SymbolFacts, stop: real): real {
    if direction.Long? then facts.bid - stop else stop - facts.ask
  }

  function ConstructFamily(family: Family, direction: Direction, symbol: string, asOf: int,
                           facts: Option<SymbolFacts>, structure: Option<Structure>): Result<SetupOutcome, SetupFault>
  {
    if family.MeanReversion? || family.EventDriven? then Success(SetupBlocked(FamilySetupUnavailable))
    else if facts.None? || !FactsUsable(facts.value) then Success(SetupBlocked(SharedFactUnavailable))
    else if structure.None? || !structure.value.usable then Success(SetupBlocked(SharedFactUnavailable))
    else
      var entry := EntryPrice(direction, facts.value);
      var structural := SelectStop(family, direction, structure.value);
      if structural.None? then Success(SetupBlocked(MissingStopReference))
      else
        var stop := RoundStopToTick(structural.value, direction, facts.value.tickSize);
        if !ValidStopSide(direction, entry, stop) then Success(SetupBlocked(InvalidStopSide))
        else if BrokerDistance(direction, facts.value, stop) < facts.value.stopsLevel as real * facts.value.point then
          Success(SetupBlocked(BrokerStopDistance))
        else if entry < 0.0 || stop < 0.0 then Failure(NegativePrice)
        else
          Success(Constructed(Setup(family, direction, symbol, entry, stop, RiskPerVolume(entry, stop, facts.value),
                                    asOf, asOf + SIGNAL_EXECUTION_WINDOW)))
  }

  /** Rounding lands on a tick multiple, moves away from entry, and by less than one
      tick. */
  lemma RoundingAwayFromEntry(price: real, direction: Direction, tick: real)
    requires tick > 0.0
    ensures exists n: int :: RoundStopToTick(price, direction, tick) == TickMultiple(n, tick)
    ensures direction.Long? ==>
              RoundStopToTick(price, direction, tick) <= price < RoundStopToTick(price, direction, tick) + tick
    ensures !direction.Long? ==>
              RoundStopToTick(price, direction, tick) - tick < price <= RoundStopToTick(price, direction, tick)
  {
    var ticks := price / tick;
    var n := RoundedTicks(ticks, direction);
    var stop := RoundStopToTick(price, direction, tick);
    QuotientTimes(price, tick);
    if direction.Long? {
      ScaleOrder(n as real, ticks, tick, stop, price);
      StepOver(ticks, n as real, tick, price, stop);
    } else {
      ScaleOrder(ticks, n as real, tick, price, stop);
      StepOver(n as real, ticks, tick, stop, price);
    }
  }

  lemma StepOver(a: real, b: real, scale: real, x: real, y: real)
    requires scale > 0.0 && a < b + 1.0 && x == a * scale && y == b * scale
    ensures x < y + scale
  {
    var gap := b + 1.0 - a;
    assert gap * scale > 0.0;
    assert gap * scale == y + scale - x;
  }

  /** The swing at `i` is the first of the latest of its kind. */
  predicate IsLatestOfKind(swings: seq<Swing>, kind: SwingKind, i: nat) {
    && i < |swings| && swings[i].kind == kind
    && (forall j :: 0 <= j < |swings| && swings[j].kind == kind ==> swings[j].time <= swings[i].time)
    && (forall j :: 0 <= j < i && swings[j].kind == kind ==> swings[j].time < swings[i].time)
  }

  lemma LatestOfKept(earlier: seq<Swing>, last: Swing, kind: SwingKind)
    requires earlier != [] || last.kind == kind
    ensures LatestSwing(earlier + if last.kind == kind then [last] else []) ==
            if earlier == [] then last
            else if last.kind == kind && last.time > LatestSwing(earlier).time then last
            else LatestSwing(earlier)
  {
    if last.kind == kind {
      assert (earlier + [last])[..|earlier|] == earlier;
    } else {
      assert earlier + [] == earlier;
    }
  }

  lemma NoneOfKind(swings: seq<Swing>, kind: SwingKind)
    ensures Filter(swings, OfKind(kind)) == [] <==> forall j :: 0 <= j < |swings| ==> swings[j].kind != kind
  {
    FilterMembers(swings, OfKind(kind));
    var kept := Filter(swings, OfKind(kind));
    if kept == [] {
      forall j | 0 <= j < |swings|
        ensures swings[j].kind != kind
      {
        assert swings[j] in swings && swings[j] !in kept;
      }
    } else {
      assert kept[0] in kept;
    }
  }

  /** One more swing becomes the latest of its kind, or leaves it. */
  lemma LatestNext(init: seq<Swing>, last: Swing, kind: SwingKind, i: nat)
    requires IsLatestOfKind(init, kind, i)
    ensures IsLatestOfKind(init + [last], kind, if last.kind == kind && last.time > init[i].time then |init| else i)
  {
  }

  lemma KeptNext(init: seq<Swing>, last: Swing, kind: SwingKind)
    ensures Filter(init + [last], OfKind(kind)) == Filter(init, OfKind(kind)) + if last.kind == kind then [last] else []
  {
    FilterAppend(init, [last], OfKind(kind));
    FilterOne(last, OfKind(kind));
  }

  lemma FirstOfKind(init: seq<Swing>, last: Swing, kind: SwingKind)
    requires Filter(init, OfKind(kind)) == [] && last.kind == kind
    ensures IsLatestOfKind(init + [last], kind, |init|)
    ensures LatestSwing(Filter(init + [last], OfKind(kind))) == last
  {
    NoneOfKind(init, kind);
    KeptNext(init, last, kind);
    LatestOfKept([], last, kind);
  }

  lemma {:induction false} LatestIsLatest(swings: seq<Swing>, kind: SwingKind) returns (i: nat)
    requires Filter(swings, OfKind(kind)) != []
    ensures IsLatestOfKind(swings, kind, i) && swings[i] == LatestSwing(Filter(swings, OfKind(kind)))
  {
    var n := |swings| - 1;
    var init, last := swings[..n], swings[n];
    assert swings == init + [last];
    KeptNext(init, last, kind);
    var earlier := Filter(init, OfKind(kind));
    if earlier == [] {
      FirstOfKind(init, last, kind);
      i := n;
    } else {
      i := LatestIsLatest(init, kind);
      LatestNext(init, last, kind, i);
      LatestOfKept(earlier, last, kind);
      i := if last.kind == kind && last.time > init[i].time then n else i;
    }
  }

  /** The structural level a family's stop protects against: for trend following the
      latest opposite swing, for breakout the swing the last break went through,
      provided it broke the trade's way. */
  ghost predicate StructuralLevel(family: Family, direction: Direction, structure: Structure, level: real) {
    if family.TrendFollowing? then
      exists i: nat :: IsLatestOfKind(structure.swings, if direction.Long? then Low else High, i)
                  && structure.swings[i].price == level
    else
      && structure.breaks != []
      && structure.breaks[|structure.breaks| - 1].direction == (if direction.Long? then UpwardBreak else DownwardBreak)
      && structure.breaks[|structure.breaks| - 1].brokenSwing.price == level
  }

  /** The selected stop is the structural level, and there is none exactly when the
      structure has none. */
  lemma SelectedStopIsStructural(family: Family, direction: Direction, structure: Structure)
    requires family.TrendFollowing? || family.Breakout?
    ensures forall level :: StructuralLevel(family, direction, structure, level) <==>
                            SelectStop(family, direction, structure) == Some(level)
  {
    if family.TrendFollowing? {
      var kind := if direction.Long? then Low else High;
      FilterMembers(structure.swings, OfKind(kind));
      if Filter(structure.swings, OfKind(kind)) != [] {
        var i := LatestIsLatest(structure.swings, kind);
        assert forall j: nat :: IsLatestOfKind(structure.swings, kind, j) ==> j == i;
      } else {
        forall i: nat
          ensures !IsLatestOfKind(structure.swings, kind, i)
        {
          if i < |structure.swings| {
            assert structure.swings[i] in structure.swings;
          }
        }
      }
    }
  }

  /** A constructed stop is a tick multiple less than one tick further from entry than
      the structural level, on the protective side of it. */
  lemma ConstructedStop(family: Family, direction: Direction, symbol: string, asOf: int,
                        facts: SymbolFacts, structure: Structure)
    requires direction.Long? || direction.Short?
    requires var r := ConstructFamily(family, direction, symbol, asOf, Some(facts), Some(structure));
             r.Success? && r.value.Constructed?
    ensures var setup := ConstructFamily(family, direction, symbol, asOf, Some(facts), Some(structure)).value.setup;
            && facts.tickSize > 0.0
            && ValidStopSide(direction, setup.entryPrice, setup.stopLoss)
            && setup.entryPrice == EntryPrice(direction, facts)
            && (exists n: int :: setup.stopLoss == TickMultiple(n, facts.tickSize))
            && var level := SelectStop(family, direction, structure).value;
            && StructuralLevel(family, direction, structure, level)
            && (direction.Long? ==> level - facts.tickSize < setup.stopLoss <= level)
            && (direction.Short? ==> level <= setup.stopLoss < level + facts.tickSize)
  {
    SelectedStopIsStructural(family, direction, structure);
    RoundingAwayFromEntry(SelectStop(family, direction, structure).value, direction, facts.tickSize);
  }

  function RequestFor(setup: Setup, allocatedRisk: real): SizingRequest {
    SizingRequest(setup.direction, setup.stopLoss, Some(setup.entryPrice), allocatedRisk)
  }

  /** Sized with the facts it was constructed from, a setup can be refused only for
      tradability, volume constraints or minimum volume, and sizing prices exactly
      the setup's own risk per unit. */
  lemma ConstructedSetupSizes(family: Family, direction: Direction, symbol: string, asOf: int,
                              facts: SymbolFacts, structure: Structure, allocatedRisk: real)
    requires direction.Long? || direction.Short?
    requires allocatedRisk > 0.0
    requires var r := ConstructFamily(family, direction, symbol, asOf, Some(facts), Some(structure));
             r.Success? && r.value.Constructed?
    ensures var setup := ConstructFamily(family, direction, symbol, asOf, Some(facts), Some(structure)).value.setup;
            var sized := ComputeBrokerSizing(RequestFor(setup, allocatedRisk), facts);
            && setup.riskPerUnit > 0.0
            && (sized.Actionable? <==>
                  && !DirectionBlocked(direction, facts.mode)
                  && VolumeConstraintsUsable(facts)
                  && setup.riskPerUnit * facts.volumeMin <= allocatedRisk)
            && (sized.Actionable? ==> sized.risk == setup.riskPerUnit * sized.volume)
            && (!sized.Actionable? ==>
                  sized.SymbolNotTradable? || sized.InvalidVolumeConstraints? || sized.BelowBrokerMinimumVolume?)
  {
    var setup := ConstructFamily(family, direction, symbol, asOf, Some(facts), Some(structure)).value.setup;
    ConstructedFields(family, direction, symbol, asOf, facts, structure, setup);
    SoundSetupSizes(setup, facts, allocatedRisk);
  }

  lemma ConstructedFields(family: Family, direction: Direction, symbol: string, asOf: int,
                          facts: SymbolFacts, structure: Structure, setup: Setup)
    requires ConstructFamily(family, direction, symbol, asOf, Some(facts), Some(structure)) == Success(Constructed(setup))
    ensures setup.symbol == symbol && setup.direction == direction
    ensures setup.signalTime == asOf < setup.validUntil
    ensures TickEconomicsUsable(facts) && ValidStopSide(direction, setup.entryPrice, setup.stopLoss)
    ensures setup.riskPerUnit == RiskPerVolume(setup.entryPrice, setup.stopLoss, facts)
  {
  }

  lemma SoundSetupSizes(setup: Setup, facts: SymbolFacts, allocatedRisk: real)
    requires (setup.direction.Long? || setup.direction.Short?) && allocatedRisk > 0.0
    requires TickEconomicsUsable(facts) && ValidStopSide(setup.direction, setup.entryPrice, setup.stopLoss)
    requires setup.riskPerUnit == RiskPerVolume(setup.entryPrice, setup.stopLoss, facts)
    ensures var sized := ComputeBrokerSizing(RequestFor(setup, allocatedRisk), facts);
            && setup.riskPerUnit > 0.0
            && (sized.Actionable? <==>
                  && !DirectionBlocked(setup.direction, facts.mode)
                  && VolumeConstraintsUsable(facts)
                  && setup.riskPerUnit * facts.volumeMin <= allocatedRisk)
            && (sized.Actionable? ==> sized.risk == setup.riskPerUnit * sized.volume)
            && (!sized.Actionable? ==>
                  sized.SymbolNotTradable? || sized.InvalidVolumeConstraints? || sized.BelowBrokerMinimumVolume?)
  {
    var request := RequestFor(setup, allocatedRisk);
    RiskPerVolumePositive(setup.entryPrice, setup.stopLoss, facts);
    ActionableIff(request, facts);
    ActionableIsGreatest(request, facts);
  }

  // ---- in the broker's facts ---------------------------------------------------------

  /** A constructed setup enters at the price of its side, leaves the broker's minimum
      distance between the opposite side and its stop, prices one unit by distance in
      ticks and tick value, and lives five minutes. */
  lemma ConstructedFromFacts(family: Family, direction: Direction, symbol: string, asOf: int,
                             facts: SymbolFacts, structure: Structure, setup: Setup)
    requires direction.Long? || direction.Short?
    requires ConstructFamily(family, direction, symbol, asOf, Some(facts), Some(structure)) == Success(Constructed(setup))
    ensures setup.family == family && setup.direction == direction && setup.symbol == symbol
    ensures setup.entryPrice == if direction.Long? then facts.ask else facts.bid
    ensures var distance := if direction.Long? then setup.entryPrice - setup.stopLoss
                            else setup.stopLoss - setup.entryPrice;
            && distance > 0.0
            && setup.riskPerUnit * facts.tickSize == distance * facts.tickValueLoss
    ensures var room := if direction.Long? then facts.bid - setup.stopLoss else setup.stopLoss - facts.ask;
            room >= facts.stopsLevel as real * facts.point
    ensures setup.signalTime == asOf && setup.validUntil == asOf + 5 * 60 * 1_000_000
  {
    RiskIsLoss(setup.entryPrice, setup.stopLoss, facts, 1.0, setup.riskPerUnit);
  }

  /** The only families with a setup in this version. */
  predicate HasSetup(family: Family) { family.TrendFollowing? || family.Breakout? }

  predicate FactsAtHand(facts: Option<SymbolFacts>, structure: Option<Structure>) {
    && facts.Some? && facts.value.tickSize > 0.0 && facts.value.tickValueLoss > 0.0 && facts.value.point > 0.0
    && structure.Some? && structure.value.usable
  }

  /** `stop` is the level rounded to a whole number of ticks, away from the entry. */
  ghost predicate RoundedAway(stop: real, level: real, direction: Direction, tick: real) {
    && (exists n: int :: stop == TickMultiple(n, tick))
    && if direction.Long? then level - tick < stop <= level else level <= stop < level + tick
  }

  lemma RoundedOnce(a: real, b: real, level: real, direction: Direction, tick: real)
    requires tick > 0.0 && RoundedAway(a, level, direction, tick) && RoundedAway(b, level, direction, tick)
    ensures a == b
  {
    var m: int :| a == TickMultiple(m, tick);
    var n: int :| b == TickMultiple(n, tick);
    if m < n {
      TicksApart(m, n, tick, a, b);
    } else if n < m {
      TicksApart(n, m, tick, b, a);
    }
  }

  lemma TicksApart(m: int, n: int, tick: real, a: real, b: real)
    requires tick > 0.0 && m < n && a == TickMultiple(m, tick) && b == TickMultiple(n, tick)
    ensures a + tick <= b
  {
    var gap := n as real - m as real;
    assert gap >= 1.0 && b - a == gap * tick;
    ScaleOrder(1.0, gap, tick, tick, b - a);
  }

  /** Which refusal a family gets before a stop is placed: no setup for it, unusable
      facts, or no structural level. */
  lemma RefusedFor(family: Family, direction: Direction, symbol: string, asOf: int,
                   facts: Option<SymbolFacts>, structure: Option<Structure>)
    requires direction.Long? || direction.Short?
    ensures var r := ConstructFamily(family, direction, symbol, asOf, facts, structure);
            && (r == Success(SetupBlocked(FamilySetupUnavailable)) <==> !HasSetup(family))
            && (r == Success(SetupBlocked(SharedFactUnavailable)) <==> HasSetup(family) && !FactsAtHand(facts, structure))
            && (r == Success(SetupBlocked(MissingStopReference)) <==>
                  && HasSetup(family) && FactsAtHand(facts, structure)
                  && forall level: real :: !StructuralLevel(family, direction, structure.value, level))
  {
    if HasSetup(family) && structure.Some? {
      SelectedStopIsStructural(family, direction, structure.value);
      var stop := SelectStop(family, direction, structure.value);
      if stop.Some? {
        assert StructuralLevel(family, direction, structure.value, stop.value);
      }
    }
  }

  /** What becomes of a structural level: refused when its rounded stop is not beyond the
      entry or closer to the market than the broker allows, a raise when a price is
      negative, and otherwise the stop of the setup. */
  lemma StopDecides(family: Family, direction: Direction, symbol: string, asOf: int, facts: SymbolFacts,
                    structure: Structure, level: real, stop: real)
    requires direction.Long? || direction.Short?
    requires HasSetup(family) && FactsAtHand(Some(facts), Some(structure))
    requires StructuralLevel(family, direction, structure, level) && RoundedAway(stop, level, direction, facts.tickSize)
    ensures var r := ConstructFamily(family, direction, symbol, asOf, Some(facts), Some(structure));
            var entry, room := if direction.Long? then facts.ask else facts.bid,
                               if direction.Long? then facts.bid - stop else stop - facts.ask;
            var beyond := if direction.Long? then stop < entry else entry < stop;
            var tooClose := room < facts.stopsLevel as real * facts.point;
            && (r == Success(SetupBlocked(InvalidStopSide)) <==> !beyond)
            && (r == Success(SetupBlocked(BrokerStopDistance)) <==> beyond && tooClose)
            && (r.Failure? <==> beyond && !tooClose && (entry < 0.0 || stop < 0.0))
            && (r.Success? && r.value.Constructed? <==> beyond && !tooClose && entry >= 0.0 && stop >= 0.0)
            && (r.Success? && r.value.Constructed? ==> r.value.setup.stopLoss == stop)
  {
    SelectedStopIsStructural(family, direction, structure);
    RoundedIs(stop, level, direction, facts.tickSize);
  }

  lemma RoundedIs(stop: real, level: real, direction: Direction, tick: real)
    requires tick > 0.0 && (direction.Long? || direction.Short?) && RoundedAway(stop, level, direction, tick)
    ensures RoundStopToTick(level, direction, tick) == stop
  {
    RoundingAwayFromEntry(level, direction, tick);
    RoundedOnce(stop, RoundStopToTick(level, direction, tick), level, direction, tick);
  }
}
