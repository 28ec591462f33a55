/** One tracked recommendation and its per-cycle advance. Match immutability is
    enforced here: matching runs only while no position is matched. */
module Tracker {
  import opened Common
  import opened FailClosed
  import opened Deals
  import opened Matching
  import opened PositionLifecycle

  datatype TradeStatus = Pending | Open | Win | Loss | Breakeven | NotFilled

  datatype PositionRecord = PositionRecord(
    tradeId: string,
    symbol: string,
    direction: Direction,
    signalTime: int,
    validUntil: int,
    status: TradeStatus,
    plannedEntry: real,
    stopLoss: real,
    actualEntry: Option<real>,
    actualEntryTime: Option<int>,
    exitPrice: Option<real>,
    exitTime: Option<int>,
    pnl: Option<real>)

  datatype Tracked = Tracked(
    record: PositionRecord,
    approvedVolume: real,
    preExisting: set<nat>,
    matched: Option<nat>,
    lastOutcome: Option<MatchOutcome>,
    lastReadAt: Option<int>)

  predicate TimelineValid(r: PositionRecord) {
    && r.validUntil > r.signalTime
    && (r.actualEntryTime.Some? && r.exitTime.Some? ==> r.exitTime.value >= r.actualEntryTime.value)
  }

  /** The record models' own validators. */
  predicate ValidTracked(t: Tracked) {
    && TimelineValid(t.record)
    && t.approvedVolume > 0.0
    && (t.matched.Some? ==>
          && t.matched.value > 0
          && t.matched.value !in t.preExisting
          && !t.record.status.Pending? && !t.record.status.NotFilled?)
    && (t.matched.None? ==> t.record.status.Pending? || t.record.status.NotFilled?)
  }

  function QueryFor(t: Tracked, claimed: set<nat>): Query {
    Query(t.record.symbol, t.record.direction, t.record.signalTime, t.record.validUntil,
          t.approvedVolume, t.preExisting, claimed)
  }

  /** What one cycle knows about the broker's deal history. */
  datatype Reading = Reading(asOf: int, status: HistoryStatus, deals: seq<Deal>, coversUntil: int)

  function ClassifyTerminalStatus(pnl: real): TradeStatus {
    if pnl > 0.0 then Win else if pnl < 0.0 then Loss else Breakeven
  }

  function Revalidated(t: Tracked): Result<Tracked, TrackingFault> {
    if TimelineValid(t.record) then Success(t) else Failure(ExitBeforeEntry)
  }

  /** The lifecycle half of an advance, for an already matched record. */
  function Settled(t: Tracked, lifecycle: LifecycleAssessment, asOf: int): Result<Tracked, TrackingFault> {
    match lifecycle
    case LifecycleBlocked(_, _) => Success(t.(lastReadAt := Some(asOf)))
    case OpenLifecycle(entry, entryTime, _) =>
      Revalidated(t.(record := t.record.(status := Open, actualEntry := Some(entry), actualEntryTime := Some(entryTime)),
                     lastReadAt := Some(asOf)))
    case ClosedLifecycle(entry, entryTime, exit, exitTime, pnl) =>
      Revalidated(t.(record := t.record.(
                       status := ClassifyTerminalStatus(pnl),
                       actualEntry := Some(entry),
                       actualEntryTime := Some(entryTime),
                       exitPrice := Some(exit),
                       exitTime := Some(exitTime),
                       pnl := Some(pnl)),
                     lastReadAt := Some(asOf)))
  }

  function Settle(t: Tracked, reading: Reading): Result<Tracked, TrackingFault>
    requires t.matched.Some?
  {
    if !reading.status.HistoryOk? then Success(t.(lastReadAt := Some(reading.asOf)))
    else
      var lifecycle :- Lifecycle(t.matched.value, reading.deals);
      Settled(t, lifecycle, reading.asOf)
  }

  function WithMatch(t: Tracked, p: nat, asOf: int): Tracked {
    t.(record := t.record.(status := Open),
       matched := Some(p),
       lastOutcome := Some(Matched(p)),
       lastReadAt := Some(asOf))
  }

  ghost function Advance(t: Tracked, reading: Reading, claimed: set<nat>): Result<Tracked, TrackingFault> {
    if t.matched.Some? then Settle(t, reading)
    else
      var outcome :- Match(QueryFor(t, claimed), reading.deals, reading.status, reading.coversUntil);
      match outcome
      case Matched(p) => Settle(WithMatch(t, p, reading.asOf), reading)
      case ExpiredConfirmedUnfilled =>
        Success(t.(record := t.record.(status := NotFilled),
                   lastOutcome := Some(outcome),
                   lastReadAt := Some(reading.asOf)))
      case _ => Success(t.(lastOutcome := Some(outcome), lastReadAt := Some(reading.asOf)))
  }

  method AdvanceTrackedRecommendation(t: Tracked, reading: Reading, claimed: set<nat>)
    returns (r: Result<Tracked, TrackingFault>)
    ensures r == Advance(t, reading, claimed)
  {
    var tracked := t;
    if tracked.matched.None? {
      var attempt := MatchRecommendation(QueryFor(t, claimed), reading.deals, reading.status, reading.coversUntil);
      if attempt.Failure? {
        return Failure(attempt.error);
      }
      var outcome := attempt.value;
      if outcome.ExpiredConfirmedUnfilled? {
        return Success(t.(record := t.record.(status := NotFilled),
                          lastOutcome := Some(outcome),
                          lastReadAt := Some(reading.asOf)));
      }
      if !outcome.Matched? {
        return Success(t.(lastOutcome := Some(outcome), lastReadAt := Some(reading.asOf)));
      }
      tracked := WithMatch(t, outcome.positionId, reading.asOf);
    }
    if !reading.status.HistoryOk? {
      return Success(tracked.(lastReadAt := Some(reading.asOf)));
    }
    var lifecycle := ReconstructPositionLifecycle(tracked.matched.value, reading.deals);
    if lifecycle.Failure? {
      return Failure(lifecycle.error);
    }
    return Settled(tracked, lifecycle.value, reading.asOf);
  }

  predicate LockHolding(t: Tracked) { t.record.status.Pending? || t.record.status.Open? }

  /** The issued facts of a recommendation, which no advance may touch. */
  predicate SameIssue(t: Tracked, u: Tracked) {
    && u.approvedVolume == t.approvedVolume
    && u.preExisting == t.preExisting
    && u.record.tradeId == t.record.tradeId
    && u.record.symbol == t.record.symbol
    && u.record.direction == t.record.direction
    && u.record.signalTime == t.record.signalTime
    && u.record.validUntil == t.record.validUntil
    && u.record.plannedEntry == t.record.plannedEntry
    && u.record.stopLoss == t.record.stopLoss
  }

  lemma SettledKeeps(t: Tracked, lifecycle: LifecycleAssessment, asOf: int)
    requires t.matched.Some?
    ensures var r := Settled(t, lifecycle, asOf);
            r.Success? ==>
              && SameIssue(t, r.value)
              && r.value.matched == t.matched
              && (TimelineValid(t.record) ==> TimelineValid(r.value.record))
              && (r.value.record.status != t.record.status ==>
                    !r.value.record.status.Pending? && !r.value.record.status.NotFilled?)
  {
  }

  lemma SettleKeeps(t: Tracked, reading: Reading)
    requires t.matched.Some?
    ensures Settle(t, reading).Success? ==>
              && SameIssue(t, Settle(t, reading).value)
              && Settle(t, reading).value.matched == t.matched
              && (ValidTracked(t) ==> ValidTracked(Settle(t, reading).value))
  {
    var lifecycle := Lifecycle(t.matched.value, reading.deals);
    if reading.status.HistoryOk? && lifecycle.Success? {
      SettledKeeps(t, lifecycle.value, reading.asOf);
    }
  }

  /** How an unmatched record came by its match. */
  ghost predicate MatchJustified(t: Tracked, p: nat, reading: Reading, claimed: set<nat>) {
    && p > 0
    && p !in claimed
    && p !in t.preExisting
    && reading.status.HistoryOk?
    && SoleEligible(reading.deals, QueryFor(t, claimed), p)
    && OpeningVolume(reading.deals, QueryFor(t, claimed), p) == t.approvedVolume
  }

  lemma MatchedIsJustified(t: Tracked, p: nat, reading: Reading, claimed: set<nat>)
    requires Match(QueryFor(t, claimed), reading.deals, reading.status, reading.coversUntil) == Success(Matched(p))
    ensures MatchJustified(t, p, reading, claimed)
  {
    var q := QueryFor(t, claimed);
    MatchedIff(q, reading.deals, reading.status, reading.coversUntil, p);
    var f :| IsGenesis(f, reading.deals, q, p);
    assert Qualifies(f, q);
  }

  lemma NewMatchKeeps(t: Tracked, p: nat, reading: Reading)
    requires t.matched.None? && p > 0 && p !in t.preExisting
    ensures Settle(WithMatch(t, p, reading.asOf), reading).Success? ==>
              var u := Settle(WithMatch(t, p, reading.asOf), reading).value;
              SameIssue(t, u) && u.matched == Some(p) && (ValidTracked(t) ==> ValidTracked(u))
  {
    SettleKeeps(WithMatch(t, p, reading.asOf), reading);
  }

  /** A match, once set, is never re-derived; a new match is the sole eligible
      position, of exactly the approved volume, a positive id that nobody has
      claimed and that was not open when the signal was issued. */
  lemma MatchDiscipline(t: Tracked, reading: Reading, claimed: set<nat>)
    requires Advance(t, reading, claimed).Success?
    ensures var u := Advance(t, reading, claimed).value;
            && SameIssue(t, u)
            && (t.matched.Some? ==> u.matched == t.matched)
            && (t.matched.None? && u.matched.Some? ==> MatchJustified(t, u.matched.value, reading, claimed))
            && (ValidTracked(t) ==> ValidTracked(u))
  {
    if t.matched.Some? {
      SettleKeeps(t, reading);
    } else {
      var outcome := Match(QueryFor(t, claimed), reading.deals, reading.status, reading.coversUntil).value;
      if outcome.Matched? {
        MatchedIsJustified(t, outcome.positionId, reading, claimed);
        NewMatchKeeps(t, outcome.positionId, reading);
      }
    }
  }

  lemma SettledOutcome(t: Tracked, lifecycle: LifecycleAssessment, asOf: int)
    requires t.matched.Some? && Settled(t, lifecycle, asOf).Success? && !lifecycle.LifecycleBlocked?
    ensures var r := Settled(t, lifecycle, asOf).value.record;
            && (r.status.Open? <==> lifecycle.OpenLifecycle?)
            && (r.status.Win? <==> lifecycle.ClosedLifecycle? && lifecycle.realizedPnl > 0.0)
            && (r.status.Loss? <==> lifecycle.ClosedLifecycle? && lifecycle.realizedPnl < 0.0)
            && (r.status.Breakeven? <==> lifecycle.ClosedLifecycle? && lifecycle.realizedPnl == 0.0)
            && (lifecycle.ClosedLifecycle? ==> r.pnl == Some(lifecycle.realizedPnl))
  {
  }

  /** What a matched record reports after an advance on a readable, unblocked history:
      OPEN while less has been closed than opened, and otherwise WIN, LOSS or
      BREAKEVEN by the sign of all the money its deals booked. */
  lemma OutcomeFollowsMoney(t: Tracked, reading: Reading, claimed: set<nat>)
    requires Advance(t, reading, claimed).Success? && Advance(t, reading, claimed).value.matched.Some?
    requires reading.status.HistoryOk?
    requires OwnAssessment(reading.deals, Advance(t, reading, claimed).value.matched.value).Ready?
    ensures var r := Advance(t, reading, claimed).value.record;
            var p := Advance(t, reading, claimed).value.matched.value;
            var open := ClosedVolume(reading.deals, p) < OpenedVolume(reading.deals, p);
            var money := PositionPnl(reading.deals, p);
            && (r.status.Open? <==> open)
            && (r.status.Win? <==> !open && money > 0.0)
            && (r.status.Loss? <==> !open && money < 0.0)
            && (r.status.Breakeven? <==> !open && money == 0.0)
            && (!open ==> r.pnl == Some(money))
  {
    var u := Advance(t, reading, claimed).value;
    MatchDiscipline(t, reading, claimed);
    var p := u.matched.value;
    var before := if t.matched.Some? then t else WithMatch(t, p, reading.asOf);
    NewMatchIsItsOwn(t, reading, claimed);
    ClosedIff(p, reading.deals);
    SettledOutcome(before, Lifecycle(p, reading.deals).value, reading.asOf);
  }

  lemma NewMatchIsItsOwn(t: Tracked, reading: Reading, claimed: set<nat>)
    requires Advance(t, reading, claimed).Success? && Advance(t, reading, claimed).value.matched.Some?
    requires reading.status.HistoryOk?
    ensures var p := Advance(t, reading, claimed).value.matched.value;
            var before := if t.matched.Some? then t else WithMatch(t, p, reading.asOf);
            && before.matched == Some(p)
            && Lifecycle(p, reading.deals).Success?
            && Settled(before, Lifecycle(p, reading.deals).value, reading.asOf) == Advance(t, reading, claimed)
  {
    if t.matched.Some? {
      SettleKeeps(t, reading);
    } else {
      var outcome := Match(QueryFor(t, claimed), reading.deals, reading.status, reading.coversUntil).value;
      if outcome.Matched? {
        SettleKeeps(WithMatch(t, outcome.positionId, reading.asOf), reading);
      }
    }
  }

  /** A position found by matching can be reconstructed from any later history that
      still holds its fills: the asserts on opening and closing deals never fail
      and no average divides by zero. */
  lemma MatchedPositionReconstructs(q: Query, deals: seq<Deal>, p: nat, later: seq<Deal>)
    requires q.approvedVolume > 0.0 && p > 0
    requires OpeningVolume(deals, q, p) == q.approvedVolume
    requires forall d :: d in Fills(deals, q, p) ==> d in later
    ensures Lifecycle(p, later).Failure? ==> Lifecycle(p, later).error.RepeatedUnsafeTickets?
  {
    FaultsExactly(p, later);
    if OwnAssessment(later, p).Ready? {
      var fill := PositiveFill(Fills(deals, q, p));
      FilterMembers(deals, FillOf(q, p));
      FillIsOpening(q, p, fill, later);
      VolumesNonnegative(Openings(later, p));
    }
  }

  lemma FillIsOpening(q: Query, p: nat, fill: Deal, deals: seq<Deal>)
    requires FillOf(q, p)(fill) && fill in deals && OwnAssessment(deals, p).Ready?
    ensures fill in Openings(deals, p)
  {
    OwnDeals(deals, p);
    ReadyIffAllSafe(OfPosition(deals, p), LifecycleVerdict, TicketOf, REASON_ORDER);
    assert IsOpening(fill);
    FilterMembers(OfPosition(deals, p), IsOpening);
  }

  lemma {:induction false} PositiveFill(fills: seq<Deal>) returns (fill: Deal)
    requires Sum(fills, VolumeOf) > 0.0
    ensures fill in fills && fill.volume > 0.0
  {
    var last := fills[|fills| - 1];
    if last.volume > 0.0 {
      fill := last;
    } else {
      fill := PositiveFill(fills[..|fills| - 1]);
    }
  }

  lemma GenesisOpens(q: Query, p: nat, f: Deal, deals: seq<Deal>)
    requires IsGenesis(f, deals, q, p) && OwnAssessment(deals, p).Ready?
    ensures f in Openings(deals, p)
    ensures forall d :: d in Openings(deals, p) || d in Closings(deals, p) ==> f.time <= d.time
  {
    var own := OfPosition(deals, p);
    OwnDeals(deals, p);
    ReadyIffAllSafe(own, LifecycleVerdict, TicketOf, REASON_ORDER);
    assert IsOpening(f);
    FilterMembers(own, IsOpening);
    FilterMembers(own, IsClosing);
  }

  /** While the genesis fill is on record no exit can precede the entry. */
  lemma ExitNeverBeforeGenesis(q: Query, p: nat, f: Deal, deals: seq<Deal>)
    requires IsGenesis(f, deals, q, p)
    requires Lifecycle(p, deals).Success? && Lifecycle(p, deals).value.ClosedLifecycle?
    ensures Lifecycle(p, deals).value.actualEntryTime == f.time
    ensures Lifecycle(p, deals).value.exitTime >= f.time
  {
    GenesisOpens(q, p, f, deals);
    ReadyConclusion(OwnAssessment(deals, p), SideOf(Openings(deals, p)), SideOf(Closings(deals, p)),
                    PositionPnl(deals, p));
  }

  /** The order of the broker's deal list never matters to an advance. */
  lemma AdvanceOrderIrrelevant(t: Tracked, a: Reading, b: Reading, claimed: set<nat>)
    requires b == a.(deals := b.deals)
    requires multiset(a.deals) == multiset(b.deals)
    ensures Advance(t, a, claimed) == Advance(t, b, claimed)
  {
    DealOrderIrrelevant(QueryFor(t, claimed), a.deals, b.deals, a.status, a.coversUntil);
    forall p: nat
      ensures SameReading(Lifecycle(p, a.deals), Lifecycle(p, b.deals))
    {
      LifecycleOrderIrrelevant(p, a.deals, b.deals);
    }
  }

  /** What an advance notes beside the lifecycle: when the history was read and what
      matching answered. Without a readable history nothing else changes; a record that
      stays unmatched changes only by expiring. */
  lemma AdvanceNotes(t: Tracked, reading: Reading, claimed: set<nat>)
    requires Advance(t, reading, claimed).Success?
    ensures var u := Advance(t, reading, claimed).value;
            var answer := Match(QueryFor(t, claimed), reading.deals, reading.status, reading.coversUntil);
            && u.lastReadAt == Some(reading.asOf)
            && (t.matched.Some? ==> u.lastOutcome == t.lastOutcome)
            && (t.matched.None? ==> answer.Success? && u.lastOutcome == Some(answer.value))
            && (!reading.status.HistoryOk? ==> u.record == t.record && u.matched == t.matched)
            && (u.matched.None? ==>
                  u.record == if answer.value.ExpiredConfirmedUnfilled? then t.record.(status := NotFilled) else t.record)
  {
    if t.matched.Some? {
      SettleKeeps(t, reading);
      SettleNotes(t, reading);
    } else {
      var outcome := Match(QueryFor(t, claimed), reading.deals, reading.status, reading.coversUntil).value;
      if outcome.Matched? {
        MatchedIsJustified(t, outcome.positionId, reading, claimed);
        SettleKeeps(WithMatch(t, outcome.positionId, reading.asOf), reading);
        SettleNotes(WithMatch(t, outcome.positionId, reading.asOf), reading);
      }
    }
  }

  /** A lifecycle that blocks leaves the record as it was, and one that is still open
      reports no exit. */
  lemma SettleNotes(t: Tracked, reading: Reading)
    requires t.matched.Some? && Settle(t, reading).Success?
    ensures var u := Settle(t, reading).value;
            var lifecycle := Lifecycle(t.matched.value, reading.deals);
            && u.lastReadAt == Some(reading.asOf) && u.lastOutcome == t.lastOutcome
            && (!reading.status.HistoryOk? || lifecycle.value.LifecycleBlocked? ==> u.record == t.record)
            && (reading.status.HistoryOk? && lifecycle.value.OpenLifecycle? ==>
                  && u.record.exitPrice == t.record.exitPrice && u.record.exitTime == t.record.exitTime
                  && u.record.pnl == t.record.pnl)
  {
  }
}
