/** One runtime cycle over the store of tracked recommendations: load, read the
    broker history once, advance every loaded record with a running set of
    claimed positions, write the records back one at a time, pass the netting
    guard, issue. Reads and writes may fail. */
module RuntimeCycle {
  import opened Common
  import opened Deals
  import opened Matching
  import opened Tracker

  datatype AccountMode = Hedging | Netting | UnknownMode

  datatype BrokerPosition = BrokerPosition(ticket: nat, symbol: string)

  datatype Recommendation = Recommendation(
    tradeId: string,
    symbol: string,
    direction: Direction,
    entryPrice: real,
    stopLoss: real,
    approvedVolume: real,
    signalTime: int,
    validUntil: int)

  datatype GuardOutcome =
    | Allowed
    | NoActionable
    | BlockedExistingBrokerPosition
    | BlockedExistingUnresolved
    | BlockedMultipleActionable

  datatype CreationOutcome = Created | SnapshotUnavailable

  datatype Issuance = Issuance(
    tradeId: string,
    creation: CreationOutcome,
    trackingPersisted: bool,
    provenancePersisted: bool)

  datatype AdvanceOutcome = AdvanceOutcome(tradeId: string, tracked: Tracked, persisted: bool)

  type Store = map<string, Tracked>

  /** Everything one cycle meets from outside: the directory listing, which files
      cannot be read, the broker's answers, the pipeline's ACTIONABLE families
      and which writes succeed. `history` is the broker's answer to a query that
      starts at the given instant and ends at `asOf`. */
  datatype CycleInput = CycleInput(
    connected: bool,
    mode: Option<AccountMode>,
    listing: seq<string>,
    unreadable: set<string>,
    asOf: int,
    dayStart: int,
    historyStatus: HistoryStatus,
    history: int -> seq<Deal>,
    advanceWrites: set<string>,
    positionsOk: bool,
    positions: seq<BrokerPosition>,
    target: string,
    actionable: Option<seq<Recommendation>>,
    issueWrites: set<string>,
    provenanceWrites: set<string>)

  datatype CycleResult =
    | NotConnected
    | Raised(fault: TrackingFault)
    | Completed(advanced: seq<AdvanceOutcome>, guard: Option<GuardOutcome>, issuances: seq<Issuance>)

  // ---- loading and the history window -------------------------------------

  function Loaded(store: Store, input: CycleInput): Store {
    map id | id in input.listing && id in store && id !in input.unreadable :: store[id]
  }

  function InStore(store: Store): string -> bool {
    id => id in store
  }

  /** The loaded ids in the order of the directory listing. */
  function Order(store: Store, input: CycleInput): seq<string> {
    Filter(input.listing, InStore(Loaded(store, input)))
  }

  function HistoryStart(dayStart: int, order: seq<string>, loaded: Store): int
    requires forall id :: id in order ==> id in loaded
  {
    if order == [] then dayStart
    else
      var last := order[|order| - 1];
      assert forall id :: id in order[..|order| - 1] ==> id in order;
      var rest := HistoryStart(dayStart, order[..|order| - 1], loaded);
      if loaded[last].record.signalTime < rest then loaded[last].record.signalTime else rest
  }

  lemma {:induction false} HistoryReachesBack(dayStart: int, order: seq<string>, loaded: Store)
    requires forall id :: id in order ==> id in loaded
    ensures HistoryStart(dayStart, order, loaded) <= dayStart
    ensures forall id :: id in order ==> HistoryStart(dayStart, order, loaded) <= loaded[id].record.signalTime
    ensures || HistoryStart(dayStart, order, loaded) == dayStart
            || exists id :: id in order && loaded[id].record.signalTime == HistoryStart(dayStart, order, loaded)
  {
    if order != [] {
      var init, last := order[..|order| - 1], order[|order| - 1];
      assert order == init + [last];
      HistoryReachesBack(dayStart, init, loaded);
    }
  }

  lemma OrderListsLoaded(store: Store, input: CycleInput)
    ensures forall id :: id in Order(store, input) <==> id in Loaded(store, input)
    ensures Distinct(input.listing) ==> Distinct(Order(store, input))
  {
    FilterMembers(input.listing, InStore(Loaded(store, input)));
    if Distinct(input.listing) {
      FilterDistinct(input.listing, InStore(Loaded(store, input)));
    }
  }

  lemma {:induction false} FilterDistinct(s: seq<string>, keep: string -> bool)
    requires Distinct(s)
    ensures Distinct(Filter(s, keep))
  {
    if s != [] {
      var init, last := s[..|s| - 1], s[|s| - 1];
      FilterDistinct(init, keep);
      FilterMembers(init, keep);
      assert last !in init;
    }
  }

  function ReadingFor(store: Store, input: CycleInput): Reading
  {
    OrderListsLoaded(store, input);
    var start := HistoryStart(input.dayStart, Order(store, input), Loaded(store, input));
    Reading(input.asOf, input.historyStatus, input.history(start), input.asOf)
  }

  // ---- advancing -----------------------------------------------------------

  function MatchedId(t: Tracked): set<nat> {
    if t.matched.Some? then {t.matched.value} else {}
  }

  function ClaimedOf(store: Store): set<nat> {
    set id | id in store && store[id].matched.Some? :: store[id].matched.value
  }

  ghost function AdvanceSeq(order: seq<string>, loaded: Store, claimed: set<nat>, reading: Reading):
    Result<seq<Tracked>, TrackingFault>
    requires forall id :: id in order ==> id in loaded
  {
    if order == [] then Success([])
    else
      var t := loaded[order[0]];
      var updated :- Advance(t, reading, claimed - MatchedId(t));
      var rest :- AdvanceSeq(order[1..], loaded, claimed + MatchedId(updated), reading);
      Success([updated] + rest)
  }

  ghost function Prepend(done: seq<Tracked>, rest: Result<seq<Tracked>, TrackingFault>):
    Result<seq<Tracked>, TrackingFault>
  {
    if rest.Success? then Success(done + rest.value) else rest
  }

  method AdvanceAllExistingTracking(order: seq<string>, loaded: Store, reading: Reading)
    returns (r: Result<seq<Tracked>, TrackingFault>)
    requires forall id :: id in order ==> id in loaded
    ensures r == AdvanceSeq(order, loaded, ClaimedOf(loaded), reading)
  {
    var claimed := ClaimedOf(loaded);
    var results: seq<Tracked> := [];
    ghost var whole := AdvanceSeq(order, loaded, claimed, reading);
    assert order[0..] == order;
    assert whole.Success? ==> [] + whole.value == whole.value;
    for i := 0 to |order|
      invariant whole == Prepend(results, AdvanceSeq(order[i..], loaded, claimed, reading))
    {
      var tracked := loaded[order[i]];
      assert order[i..][0] == order[i] && order[i..][1..] == order[i + 1..];
      var updated := AdvanceTrackedRecommendation(tracked, reading, claimed - MatchedId(tracked));
      if updated.Failure? {
        return Failure(updated.error);
      }
      ghost var rest := AdvanceSeq(order[i + 1..], loaded, claimed + MatchedId(updated.value), reading);
      assert rest.Success? ==> results + ([updated.value] + rest.value) == results + [updated.value] + rest.value;
      claimed := claimed + MatchedId(updated.value);
      results := results + [updated.value];
    }
    assert results + [] == results;
    return Success(results);
  }

  // ---- writing back, guarding, issuing -------------------------------------

  function WriteBack(store: Store, order: seq<string>, updated: seq<Tracked>, written: set<string>): Store
    requires |order| == |updated|
  {
    if order == [] then store
    else
      var n := |order| - 1;
      var earlier := WriteBack(store, order[..n], updated[..n], written);
      if order[n] in written then earlier[order[n] := updated[n]] else earlier
  }

  function InMemory(order: seq<string>, updated: seq<Tracked>): Store
    requires |order| == |updated|
  {
    WriteBack(map[], order, updated, set id | id in order)
  }

  function AdvanceOutcomes(order: seq<string>, updated: seq<Tracked>, written: set<string>): seq<AdvanceOutcome>
    requires |order| == |updated|
  {
    seq(|order|, i requires 0 <= i < |order| == |updated| =>
      AdvanceOutcome(order[i], updated[i], order[i] in written))
  }

  predicate HasPosition(positions: seq<BrokerPosition>, symbol: string) {
    exists p :: p in positions && p.symbol == symbol
  }

  predicate HasUnresolved(store: Store, symbol: string) {
    exists id :: id in store && store[id].record.symbol == symbol && LockHolding(store[id])
  }

  function NettingGuard(input: CycleInput, advanced: Store, count: nat): GuardOutcome {
    if input.positionsOk && HasPosition(input.positions, input.target) then BlockedExistingBrokerPosition
    else if HasUnresolved(advanced, input.target) then BlockedExistingUnresolved
    else if count == 0 then NoActionable
    else if count == 1 then Allowed
    else BlockedMultipleActionable
  }

  function NewRecord(rec: Recommendation, positions: seq<BrokerPosition>): Tracked {
    Tracked(
      PositionRecord(rec.tradeId, rec.symbol, rec.direction, rec.signalTime, rec.validUntil, Pending,
                     rec.entryPrice, rec.stopLoss, None, None, None, None, None),
      rec.approvedVolume,
      set p | p in positions && p.symbol == rec.symbol :: p.ticket,
      None, None, None)
  }

  function IssuanceOf(rec: Recommendation, input: CycleInput): Issuance {
    if input.positionsOk then
      Issuance(rec.tradeId, Created, rec.tradeId in input.issueWrites, rec.tradeId in input.provenanceWrites)
    else Issuance(rec.tradeId, SnapshotUnavailable, false, false)
  }

  function IssueAll(store: Store, recs: seq<Recommendation>, input: CycleInput): Store {
    if recs == [] then store
    else
      var rec := recs[|recs| - 1];
      var earlier := IssueAll(store, recs[..|recs| - 1], input);
      if IssuanceOf(rec, input).trackingPersisted then earlier[rec.tradeId := NewRecord(rec, input.positions)]
      else earlier
  }

  function Issuances(recs: seq<Recommendation>, input: CycleInput): seq<Issuance> {
    Map(recs, rec => IssuanceOf(rec, input))
  }

  /** The guard's verdict, if consulted, and whether issuance may go ahead. */
  function Gate(input: CycleInput, advanced: Store): (Option<GuardOutcome>, bool)
    requires input.mode.Some? && input.actionable.Some?
  {
    var count := |input.actionable.value|;
    if input.mode.value.Hedging? then (None, count > 0)
    else
      var outcome := NettingGuard(input, advanced, count);
      (Some(outcome), outcome.Allowed?)
  }

  ghost function Cycle(store: Store, input: CycleInput): (Store, CycleResult) {
    if !input.connected then (store, NotConnected)
    else
      OrderListsLoaded(store, input);
      var order, loaded := Order(store, input), Loaded(store, input);
      var updated := AdvanceSeq(order, loaded, ClaimedOf(loaded), ReadingFor(store, input));
      if updated.Failure? then (store, Raised(updated.error))
      else
        AdvanceSeqLength(order, loaded, ClaimedOf(loaded), ReadingFor(store, input));
        ConcludeCycle(store, input, order, updated.value)
  }

  /** The part of a cycle after the pure advance: writes, guard, issuance. */
  function ConcludeCycle(store: Store, input: CycleInput, order: seq<string>, updated: seq<Tracked>): (Store, CycleResult)
    requires |order| == |updated|
  {
    var written := WriteBack(store, order, updated, input.advanceWrites);
    var outcomes := AdvanceOutcomes(order, updated, input.advanceWrites);
    if input.mode.None? || input.actionable.None? then (written, Completed(outcomes, None, []))
    else
      var (guard, allowed) := Gate(input, InMemory(order, updated));
      if !allowed then (written, Completed(outcomes, guard, []))
      else
        var recs := input.actionable.value;
        (IssueAll(written, recs, input), Completed(outcomes, guard, Issuances(recs, input)))
  }

  lemma {:induction false} AdvanceSeqLength(order: seq<string>, loaded: Store, claimed: set<nat>, reading: Reading)
    requires forall id :: id in order ==> id in loaded
    ensures var r := AdvanceSeq(order, loaded, claimed, reading); r.Success? ==> |r.value| == |order|
  {
    if order != [] {
      var t := loaded[order[0]];
      var u := Advance(t, reading, claimed - MatchedId(t));
      if u.Success? {
        AdvanceSeqLength(order[1..], loaded, claimed + MatchedId(u.value), reading);
      }
    }
  }

  /** The tracking directory. A failed write leaves the stored file untouched. */
  class RecommendationStore {
    var records: Store

    constructor ()
      ensures records == map[]
    {
      records := map[];
    }

    method Write(id: string, t: Tracked, succeeds: bool) returns (persisted: bool)
      modifies this
      ensures persisted == succeeds
      ensures records == if succeeds then old(records)[id := t] else old(records)
    {
      if succeeds {
        records := records[id := t];
      }
      persisted := succeeds;
    }

    method WriteAdvanced(order: seq<string>, updated: seq<Tracked>, written: set<string>)
      returns (outcomes: seq<AdvanceOutcome>)
      requires |order| == |updated|
      modifies this
      ensures records == WriteBack(old(records), order, updated, written)
      ensures outcomes == AdvanceOutcomes(order, updated, written)
    {
      outcomes := [];
      for i := 0 to |order|
        invariant records == WriteBack(old(records), order[..i], updated[..i], written)
        invariant outcomes == AdvanceOutcomes(order[..i], updated[..i], written)
      {
        assert order[..i + 1][..i] == order[..i] && updated[..i + 1][..i] == updated[..i];
        var persisted := Write(order[i], updated[i], order[i] in written);
        outcomes := outcomes + [AdvanceOutcome(order[i], updated[i], persisted)];
      }
      assert order[..|order|] == order && updated[..|order|] == updated;
    }

    method Issue(recs: seq<Recommendation>, input: CycleInput) returns (issuances: seq<Issuance>)
      modifies this
      ensures records == IssueAll(old(records), recs, input)
      ensures issuances == Issuances(recs, input)
    {
      issuances := [];
      for i := 0 to |recs|
        invariant records == IssueAll(old(records), recs[..i], input)
        invariant issuances == Issuances(recs[..i], input)
      {
        var rec := recs[i];
        assert recs[..i + 1][..i] == recs[..i];
        var tracking, provenance := false, false;
        if input.positionsOk {
          tracking := Write(rec.tradeId, NewRecord(rec, input.positions), rec.tradeId in input.issueWrites);
          provenance := rec.tradeId in input.provenanceWrites;
        }
        issuances := issuances +
          [Issuance(rec.tradeId, if input.positionsOk then Created else SnapshotUnavailable, tracking, provenance)];
      }
      assert recs[..|recs|] == recs;
    }

    method RunCycle(input: CycleInput) returns (r: CycleResult)
      modifies this
      ensures (records, r) == Cycle(old(records), input)
    {
      if !input.connected {
        return NotConnected;
      }
      OrderListsLoaded(records, input);
      var order, loaded := Order(records, input), Loaded(records, input);
      var updated := AdvanceAllExistingTracking(order, loaded, ReadingFor(records, input));
      if updated.Failure? {
        return Raised(updated.error);
      }
      AdvanceSeqLength(order, loaded, ClaimedOf(loaded), ReadingFor(records, input));
      var advanced := WriteAdvanced(order, updated.value, input.advanceWrites);
      if input.mode.None? || input.actionable.None? {
        return Completed(advanced, None, []);
      }
      var (guard, allowed) := Gate(input, InMemory(order, updated.value));
      if !allowed {
        return Completed(advanced, guard, []);
      }
      var issuances := Issue(input.actionable.value, input);
      return Completed(advanced, guard, issuances);
    }
  }
}
