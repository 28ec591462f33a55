/** The per-symbol lock of NETTING and UNKNOWN accounts over whole runs, and the
    finality of NOT_FILLED and closed records it rests on. */
module NettingLock {
  import opened Common
  import opened Deals
  import opened Matching
  import opened PositionLifecycle
  import opened Tracker
  import opened RuntimeCycle
  import opened Ownership
  import opened HistoryWindow

  ghost predicate OneUnresolvedPerSymbol(store: Store) {
    forall a, b :: a in store && b in store && a != b && LockHolding(store[a]) && LockHolding(store[b]) ==>
      store[a].record.symbol != store[b].record.symbol
  }

  ghost predicate ClosedIn(log: seq<Deal>, p: nat) {
    Lifecycle(p, log).Success? && Lifecycle(p, log).value.ClosedLifecycle?
  }

  /** Every position a NOT_FILLED record could own belongs to somebody else. */
  ghost predicate NothingLeft(t: Tracked, log: seq<Deal>, owned: set<nat>) {
    forall p :: Eligible(log, QueryFor(t, {}), p) ==> p in owned
  }

  /** What a stored record's status promises about the broker's log. */
  ghost predicate Grounded(t: Tracked, log: seq<Deal>, asOf: int, owned: set<nat>) {
    && ValidTracked(t)
    && (t.matched.Some? ==> Witnessed(log, t.matched.value, t.record.symbol, t.record.signalTime))
    && (t.matched.Some? && !t.record.status.Open? ==> ClosedIn(log, t.matched.value))
    && (t.record.status.NotFilled? ==> asOf >= t.record.validUntil && NothingLeft(t, log, owned))
  }

  ghost predicate Inv(store: Store, log: seq<Deal>, asOf: int) {
    && OneUnresolvedPerSymbol(store)
    && UpTo(log, asOf)
    && forall id :: id in store ==> Grounded(store[id], log, asOf, ClaimedOf(store))
  }

  /** How the broker's log may grow between cycles: by later deals only, and a
      fully closed position gets no more. */
  ghost predicate Grows(log: seq<Deal>, asOf: int, more: seq<Deal>, later: int) {
    && asOf <= later
    && (forall d :: d in more ==> asOf < d.time <= later)
    && (forall d :: d in more ==> !ClosedIn(log, d.positionId))
  }

  /** What one cycle may assume of its surroundings. */
  ghost predicate Environment(store: Store, input: CycleInput, log: seq<Deal>) {
    && Distinct(input.listing)
    && EveryRecordLoads(store, input)
    && (forall id :: id in store ==> id in input.advanceWrites)
    && (forall id :: id in store ==>
          SnapshotComplete(store[id].preExisting, store[id].record.symbol, store[id].record.signalTime, log))
    && (input.historyStatus.HistoryOk? ==>
          forall start :: multiset(input.history(start)) == multiset(Window(log, start, input.asOf)))
    && (input.mode.Some? ==> !input.mode.value.Hedging?)
    && (input.actionable.Some? ==>
          forall rec :: rec in input.actionable.value ==>
            && rec.tradeId !in store
            && rec.symbol == input.target
            && rec.approvedVolume > 0.0
            && rec.validUntil > rec.signalTime)
  }

  /** What the snapshot condition asks of the broker when a record is issued: that every
      position of the symbol already open is among the listed positions. Positions of
      other symbols are not asked about. */
  lemma SnapshotCompleteIff(rec: Recommendation, positions: seq<BrokerPosition>, log: seq<Deal>)
    ensures SnapshotComplete(NewRecord(rec, positions).preExisting, rec.symbol, rec.signalTime, log) <==>
            forall early, late | early in log && late in log && early.positionId == late.positionId ::
              early.time < rec.signalTime <= late.time && late.symbol == Some(rec.symbol) ==>
                BrokerPosition(early.positionId, rec.symbol) in positions
  {
    forall id: nat
      ensures id in NewRecord(rec, positions).preExisting <==> BrokerPosition(id, rec.symbol) in positions
    {
      if BrokerPosition(id, rec.symbol) in positions {
        assert BrokerPosition(id, rec.symbol).ticket == id;
      }
    }
  }

  // ---- the log grows ---------------------------------------------------------

  lemma ClosedStaysClosed(log: seq<Deal>, asOf: int, more: seq<Deal>, later: int, p: nat)
    requires Grows(log, asOf, more, later) && ClosedIn(log, p)
    ensures ClosedIn(log + more, p)
  {
    FilterAppend(log, more, AtPosition(p));
    FilterNothing(more, AtPosition(p));
    assert OfPosition(log + more, p) == OfPosition(log, p);
    LifecycleReadsOwnDeals(p, log + more, log);
  }

  /** Deals after the validity window make nothing new eligible. */
  lemma LateDealsAddNothing(q: Query, log: seq<Deal>, more: seq<Deal>, p: nat)
    requires forall d :: d in more ==> d.time > q.validUntil
    requires Eligible(log + more, q, p)
    ensures Eligible(log, q, p)
  {
    var f :| IsGenesis(f, log + more, q, p);
    assert f in log;
    assert IsGenesis(f, log, q, p);
  }

  lemma GroundedAfterGrowth(t: Tracked, log: seq<Deal>, asOf: int, more: seq<Deal>, later: int, owned: set<nat>)
    requires Grounded(t, log, asOf, owned) && Grows(log, asOf, more, later)
    ensures Grounded(t, log + more, later, owned)
  {
    if t.matched.Some? {
      var d :| d in log && d.positionId == t.matched.value && d.symbol == Some(t.record.symbol)
               && d.time >= t.record.signalTime;
      assert d in log + more;
      if !t.record.status.Open? {
        ClosedStaysClosed(log, asOf, more, later, t.matched.value);
      }
    }
    if t.record.status.NotFilled? {
      forall p | Eligible(log + more, QueryFor(t, {}), p)
        ensures p in owned
      {
        LateDealsAddNothing(QueryFor(t, {}), log, more, p);
      }
    }
  }

  lemma InvAfterGrowth(store: Store, log: seq<Deal>, asOf: int, more: seq<Deal>, later: int)
    requires Inv(store, log, asOf) && Grows(log, asOf, more, later)
    ensures Inv(store, log + more, later)
  {
    forall id | id in store
      ensures Grounded(store[id], log + more, later, ClaimedOf(store))
    {
      GroundedAfterGrowth(store[id], log, asOf, more, later, ClaimedOf(store));
    }
  }

  // ---- one record advances -----------------------------------------------------

  lemma UnclaimedEligibility(t: Tracked, log: seq<Deal>, claimed: set<nat>, p: nat)
    ensures Eligible(log, QueryFor(t, claimed), p) <==> Eligible(log, QueryFor(t, {}), p) && p !in claimed
  {
    var q, free := QueryFor(t, claimed), QueryFor(t, {});
    if f :| IsGenesis(f, log, q, p) {
      assert IsGenesis(f, log, free, p);
    }
    if f :| IsGenesis(f, log, free, p) && p !in claimed {
      assert IsGenesis(f, log, q, p);
    }
  }

  /** A resolved record stays resolved, and an unfilled one stays unfilled. */
  predicate Resolution(t: Tracked, u: Tracked) {
    && (!LockHolding(t) ==> !LockHolding(u))
    && (t.record.status.NotFilled? ==> u.record.status.NotFilled?)
  }

  lemma SettleGrounded(t: Tracked, reading: Reading, owned: set<nat>)
    requires t.matched.Some? && Settle(t, reading).Success?
    requires Grounded(t, reading.deals, reading.asOf, owned)
    ensures Grounded(Settle(t, reading).value, reading.deals, reading.asOf, owned)
    ensures !LockHolding(t) ==> !LockHolding(Settle(t, reading).value)
  {
    SettleKeeps(t, reading);
    if reading.status.HistoryOk? {
      SettledStatus(t, Lifecycle(t.matched.value, reading.deals).value, reading.asOf);
    }
  }

  lemma SettledStatus(t: Tracked, lifecycle: LifecycleAssessment, asOf: int)
    requires Settled(t, lifecycle, asOf).Success?
    ensures var u := Settled(t, lifecycle, asOf).value;
            && (lifecycle.LifecycleBlocked? ==> u.record.status == t.record.status)
            && (lifecycle.OpenLifecycle? ==> u.record.status.Open?)
            && (lifecycle.ClosedLifecycle? ==> u.record.status in {Win, Loss, Breakeven})
  {
  }

  lemma UnmatchedGrounded(t: Tracked, reading: Reading, claimed: set<nat>, owned: set<nat>)
    requires t.matched.None? && Advance(t, reading, claimed).Success? && reading.coversUntil == reading.asOf
    requires Grounded(t, reading.deals, reading.asOf, owned) && owned <= claimed
    ensures Grounded(Advance(t, reading, claimed).value, reading.deals, reading.asOf, claimed)
    ensures Resolution(t, Advance(t, reading, claimed).value)
  {
    var q := QueryFor(t, claimed);
    var outcome := Match(q, reading.deals, reading.status, reading.coversUntil).value;
    if outcome.Matched? {
      MatchedGrounded(t, reading, claimed, owned, outcome.positionId);
    } else if outcome.ExpiredConfirmedUnfilled? {
      ExpiredLeavesNothing(t, reading, claimed);
    }
  }

  lemma MatchedGrounded(t: Tracked, reading: Reading, claimed: set<nat>, owned: set<nat>, p: nat)
    requires t.matched.None? && Advance(t, reading, claimed).Success?
    requires Grounded(t, reading.deals, reading.asOf, owned) && owned <= claimed
    requires Match(QueryFor(t, claimed), reading.deals, reading.status, reading.coversUntil) == Success(Matched(p))
    ensures Grounded(Advance(t, reading, claimed).value, reading.deals, reading.asOf, claimed)
    ensures Resolution(t, Advance(t, reading, claimed).value)
  {
    MatchedIsJustified(t, p, reading, claimed);
    EligibleIsWitnessed(QueryFor(t, claimed), reading.deals, p);
    UnclaimedEligibility(t, reading.deals, claimed, p);
    assert !t.record.status.NotFilled?;
    SettleGrounded(WithMatch(t, p, reading.asOf), reading, claimed);
  }

  lemma ExpiredLeavesNothing(t: Tracked, reading: Reading, claimed: set<nat>)
    requires Match(QueryFor(t, claimed), reading.deals, reading.status, reading.coversUntil)
             == Success(ExpiredConfirmedUnfilled)
    ensures NothingLeft(t, reading.deals, claimed) && reading.coversUntil >= t.record.validUntil
  {
    NoCandidateIff(QueryFor(t, claimed), reading.deals, reading.status, reading.coversUntil);
    forall p | Eligible(reading.deals, QueryFor(t, {}), p)
      ensures p in claimed
    {
      UnclaimedEligibility(t, reading.deals, claimed, p);
    }
  }

  /** An advance keeps every promise, and a resolved record stays resolved: a
      closed one because its position gets no more deals, an unfilled one because
      nothing it could own is left. */
  lemma AdvanceGrounded(t: Tracked, reading: Reading, claimed: set<nat>, owned: set<nat>)
    requires Advance(t, reading, claimed).Success? && reading.coversUntil == reading.asOf
    requires Grounded(t, reading.deals, reading.asOf, owned) && owned <= claimed + MatchedId(t)
    ensures Grounded(Advance(t, reading, claimed).value, reading.deals, reading.asOf, claimed)
    ensures Resolution(t, Advance(t, reading, claimed).value)
  {
    if t.matched.Some? {
      SettleGrounded(t, reading, owned);
    } else {
      UnmatchedGrounded(t, reading, claimed, owned);
    }
  }

  // ---- the whole pass ------------------------------------------------------------

  lemma {:induction false} PassGrounded(order: seq<string>, loaded: Store, claimed: set<nat>, reading: Reading,
                                        owned: set<nat>, final: set<nat>)
    requires forall id :: id in order ==> id in loaded && Grounded(loaded[id], reading.deals, reading.asOf, owned)
    requires AdvanceSeq(order, loaded, claimed, reading).Success? && reading.coversUntil == reading.asOf
    requires owned <= claimed <= final
    requires forall u :: u in AdvanceSeq(order, loaded, claimed, reading).value ==> MatchedId(u) <= final
    ensures var updated := AdvanceSeq(order, loaded, claimed, reading).value;
            |updated| == |order| && forall i :: 0 <= i < |order| ==>
              && Grounded(updated[i], reading.deals, reading.asOf, final)
              && Resolution(loaded[order[i]], updated[i])
  {
    if order != [] {
      var t := loaded[order[0]];
      var first := Advance(t, reading, claimed - MatchedId(t)).value;
      AdvanceGrounded(t, reading, claimed - MatchedId(t), owned);
      var tail := order[1..];
      var rest := AdvanceSeq(tail, loaded, claimed + MatchedId(first), reading).value;
      var updated := AdvanceSeq(order, loaded, claimed, reading).value;
      assert updated == [first] + rest;
      assert updated[0] in updated;
      assert forall u :: u in rest ==> u in updated;
      PassGrounded(tail, loaded, claimed + MatchedId(first), reading, owned, final);
      GroundedMonotone(first, reading.deals, reading.asOf, claimed - MatchedId(t), final);
      ExtendGrounded(order, loaded, first, rest, reading, final);
    }
  }

  lemma GroundedMonotone(t: Tracked, log: seq<Deal>, asOf: int, some: set<nat>, more: set<nat>)
    requires Grounded(t, log, asOf, some) && some <= more
    ensures Grounded(t, log, asOf, more)
  {
  }

  lemma ExtendGrounded(order: seq<string>, loaded: Store, first: Tracked, rest: seq<Tracked>, reading: Reading,
                       final: set<nat>)
    requires order != [] && |rest| == |order| - 1 && forall id :: id in order ==> id in loaded
    requires Grounded(first, reading.deals, reading.asOf, final) && Resolution(loaded[order[0]], first)
    requires forall i :: 0 <= i < |rest| ==>
               && Grounded(rest[i], reading.deals, reading.asOf, final)
               && Resolution(loaded[order[1..][i]], rest[i])
    ensures var updated := [first] + rest;
            forall i :: 0 <= i < |order| ==>
              && Grounded(updated[i], reading.deals, reading.asOf, final)
              && Resolution(loaded[order[i]], updated[i])
  {
    var updated, tail := [first] + rest, order[1..];
    assert forall i :: 0 < i < |order| ==> order[i] == tail[i - 1] && updated[i] == rest[i - 1];
  }

  lemma {:induction false} PassSeesWholeLog(order: seq<string>, loaded: Store, claimed: set<nat>, reading: Reading,
                                            log: seq<Deal>, start: int)
    requires UpTo(log, reading.asOf)
    requires reading.status.HistoryOk? ==> multiset(reading.deals) == multiset(Window(log, start, reading.asOf))
    requires forall id :: id in order ==>
               && id in loaded
               && ValidTracked(loaded[id])
               && start <= loaded[id].record.signalTime
               && SnapshotComplete(loaded[id].preExisting, loaded[id].record.symbol, loaded[id].record.signalTime, log)
               && (loaded[id].matched.Some? ==>
                     Witnessed(log, loaded[id].matched.value, loaded[id].record.symbol, loaded[id].record.signalTime))
    ensures AdvanceSeq(order, loaded, claimed, reading) == AdvanceSeq(order, loaded, claimed, reading.(deals := log))
  {
    if order != [] {
      var t := loaded[order[0]];
      assert order[0] in order;
      if reading.status.HistoryOk? {
        AdvanceSeesWholeLog(t, reading, log, start, claimed - MatchedId(t));
      }
      var first := Advance(t, reading, claimed - MatchedId(t));
      if first.Success? {
        PassSeesWholeLog(order[1..], loaded, claimed + MatchedId(first.value), reading, log, start);
      }
    }
  }

  /** When every write succeeds the store holds exactly the pass's results. */
  lemma FullWriteBack(store: Store, order: seq<string>, updated: seq<Tracked>, written: set<string>)
    requires Distinct(order) && |order| == |updated|
    requires forall id :: id in order <==> id in store
    requires forall id :: id in store ==> id in written
    ensures WriteBack(store, order, updated, written) == InMemory(order, updated)
    ensures forall id :: id in WriteBack(store, order, updated, written) <==> id in store
    ensures forall i :: 0 <= i < |order| ==> WriteBack(store, order, updated, written)[order[i]] == updated[i]
  {
    WrittenInFull(store, order, updated, written);
    WrittenInFull(map[], order, updated, set id | id in order);
    var after, memory := WriteBack(store, order, updated, written), InMemory(order, updated);
    forall id | id in after
      ensures id in memory && after[id] == memory[id]
    {
      var i :| 0 <= i < |order| && order[i] == id;
    }
    assert after.Keys == memory.Keys;
  }

  lemma WrittenInFull(store: Store, order: seq<string>, updated: seq<Tracked>, written: set<string>)
    requires Distinct(order) && |order| == |updated|
    requires forall id :: id in order ==> id in written
    requires forall id :: id in store ==> id in order
    ensures forall id :: id in WriteBack(store, order, updated, written) <==> id in order
    ensures forall i :: 0 <= i < |order| ==> WriteBack(store, order, updated, written)[order[i]] == updated[i]
  {
    WriteBackAt(store, order, updated, written);
    forall id | id in order
      ensures id in WriteBack(store, order, updated, written)
    {
      var i :| 0 <= i < |order| && order[i] == id;
    }
  }

  lemma AdvancedInv(store: Store, order: seq<string>, updated: seq<Tracked>, log: seq<Deal>, asOf: int, after: Store)
    requires OneUnresolvedPerSymbol(store) && UpTo(log, asOf)
    requires |order| == |updated|
    requires forall id :: id in order <==> id in store
    requires forall id :: id in after <==> id in store
    requires forall i :: 0 <= i < |order| ==> after[order[i]] == updated[i]
    requires PassExclusive(order, store, ClaimedOf(store), updated)
    requires forall i :: 0 <= i < |order| ==>
               && Grounded(updated[i], log, asOf, ClaimedOf(after))
               && Resolution(store[order[i]], updated[i])
    ensures Inv(after, log, asOf)
    ensures forall id :: id in store ==> Resolution(store[id], after[id])
  {
    forall id | id in after
      ensures Grounded(after[id], log, asOf, ClaimedOf(after))
      ensures Resolution(store[id], after[id])
      ensures after[id].record.symbol == store[id].record.symbol
    {
      var i :| 0 <= i < |order| && order[i] == id;
    }
  }

  lemma ClaimsGrow(store: Store, order: seq<string>, updated: seq<Tracked>, after: Store)
    requires |order| == |updated|
    requires forall id :: id in order <==> id in store
    requires forall id :: id in after <==> id in store
    requires forall i :: 0 <= i < |order| ==> after[order[i]] == updated[i]
    requires PassExclusive(order, store, ClaimedOf(store), updated)
    ensures ClaimedOf(store) <= ClaimedOf(after)
    ensures forall u :: u in updated ==> MatchedId(u) <= ClaimedOf(after)
  {
    forall p | p in ClaimedOf(store)
      ensures p in ClaimedOf(after)
    {
      var id :| id in store && store[id].matched == Some(p);
      var i :| 0 <= i < |order| && order[i] == id;
      assert after[id].matched == Some(p);
    }
    forall u | u in updated
      ensures MatchedId(u) <= ClaimedOf(after)
    {
      var i :| 0 <= i < |updated| && updated[i] == u;
      assert order[i] in after && after[order[i]] == u;
    }
  }

  // ---- issuing ---------------------------------------------------------------------

  lemma IssueOneInv(store: Store, rec: Recommendation, input: CycleInput, log: seq<Deal>, asOf: int)
    requires Inv(store, log, asOf)
    requires rec.tradeId !in store && rec.approvedVolume > 0.0 && rec.validUntil > rec.signalTime
    requires !HasUnresolved(store, rec.symbol)
    ensures Inv(store[rec.tradeId := NewRecord(rec, input.positions)], log, asOf)
  {
    var after := store[rec.tradeId := NewRecord(rec, input.positions)];
    forall p | p in ClaimedOf(store)
      ensures p in ClaimedOf(after)
    {
      var id :| id in store && store[id].matched == Some(p);
      assert after[id].matched == Some(p);
    }
    forall id | id in after
      ensures Grounded(after[id], log, asOf, ClaimedOf(after))
    {
    }
  }

  /** The pass and its writes keep every promise. */
  lemma PassKeepsLock(store: Store, input: CycleInput, log: seq<Deal>)
    requires Inv(store, log, input.asOf) && Environment(store, input, log)
    requires Loaded(store, input) == store && forall id :: id in Order(store, input) <==> id in store
    requires AdvanceSeq(Order(store, input), store, ClaimedOf(store), ReadingFor(store, input)).Success?
    ensures var order := Order(store, input);
            var updated := AdvanceSeq(order, store, ClaimedOf(store), ReadingFor(store, input)).value;
            && |updated| == |order|
            && var after := WriteBack(store, order, updated, input.advanceWrites);
            && after == InMemory(order, updated)
            && Inv(after, log, input.asOf)
            && (forall id :: id in after <==> id in store)
            && (forall id :: id in store ==> Resolution(store[id], after[id]))
  {
    OrderListsLoaded(store, input);
    var order, claimed, reading := Order(store, input), ClaimedOf(store), ReadingFor(store, input);
    var start := HistoryStart(input.dayStart, order, store);
    HistoryReachesBack(input.dayStart, order, store);
    PassSeesWholeLog(order, store, claimed, reading, log, start);
    var updated := AdvanceSeq(order, store, claimed, reading).value;
    PassKeepsOwnership(order, store, claimed, reading);
    var after := WriteBack(store, order, updated, input.advanceWrites);
    FullWriteBack(store, order, updated, input.advanceWrites);
    ClaimsGrow(store, order, updated, after);
    PassGrounded(order, store, claimed, reading.(deals := log), claimed, ClaimedOf(after));
    AdvancedInv(store, order, updated, log, input.asOf, after);
  }

  /** One cycle on a NETTING or UNKNOWN account keeps the lock and every promise. */
  lemma CycleKeepsLock(store: Store, input: CycleInput, log: seq<Deal>)
    requires Inv(store, log, input.asOf) && Environment(store, input, log)
    ensures Inv(Cycle(store, input).0, log, input.asOf)
    ensures forall id :: id in store ==> id in Cycle(store, input).0 && Resolution(store[id], Cycle(store, input).0[id])
  {
    OrderListsLoaded(store, input);
    assert Loaded(store, input) == store;
    var pass := AdvanceSeq(Order(store, input), store, ClaimedOf(store), ReadingFor(store, input));
    if input.connected && pass.Success? {
      PassKeepsLock(store, input, log);
      ConclusionKeepsLock(store, input, log, Order(store, input), pass.value);
    }
  }

  lemma ConclusionKeepsLock(store: Store, input: CycleInput, log: seq<Deal>, order: seq<string>, updated: seq<Tracked>)
    requires |order| == |updated| && Environment(store, input, log)
    requires var after := WriteBack(store, order, updated, input.advanceWrites);
             && after == InMemory(order, updated)
             && Inv(after, log, input.asOf)
             && (forall id :: id in after <==> id in store)
             && (forall id :: id in store ==> Resolution(store[id], after[id]))
    ensures var after := ConcludeCycle(store, input, order, updated).0;
            && Inv(after, log, input.asOf)
            && forall id :: id in store ==> id in after && Resolution(store[id], after[id])
  {
    var after := WriteBack(store, order, updated, input.advanceWrites);
    if input.mode.Some? && input.actionable.Some? && Gate(input, after).1 {
      GuardedIssue(after, input, log);
    }
  }

  /** The guard lets through a single recommendation, and only where nothing on the
      symbol is unresolved. */
  lemma GuardAdmitsOne(store: Store, input: CycleInput)
    requires input.mode.Some? && !input.mode.value.Hedging? && input.actionable.Some?
    requires Gate(input, store).1
    ensures |input.actionable.value| == 1 && !HasUnresolved(store, input.target)
    ensures var rec := input.actionable.value[0];
            IssueAll(store, input.actionable.value, input) ==
            if IssuanceOf(rec, input).trackingPersisted then store[rec.tradeId := NewRecord(rec, input.positions)]
            else store
  {
    var recs := input.actionable.value;
    assert recs[..0] == [];
  }

  lemma GuardedIssue(store: Store, input: CycleInput, log: seq<Deal>)
    requires Inv(store, log, input.asOf)
    requires input.mode.Some? && !input.mode.value.Hedging? && input.actionable.Some?
    requires forall rec :: rec in input.actionable.value ==>
               && rec.tradeId !in store && rec.symbol == input.target
               && rec.approvedVolume > 0.0 && rec.validUntil > rec.signalTime
    requires Gate(input, store).1
    ensures Inv(IssueAll(store, input.actionable.value, input), log, input.asOf)
    ensures forall id :: id in store ==>
              && id in IssueAll(store, input.actionable.value, input)
              && IssueAll(store, input.actionable.value, input)[id] == store[id]
  {
    GuardAdmitsOne(store, input);
    var rec := input.actionable.value[0];
    assert rec in input.actionable.value;
    IssueOneInv(store, rec, input, log, input.asOf);
  }

  // ---- runs ------------------------------------------------------------------------

  /** A run against one broker log that is append-only in time. `logs[k]` is the log
      as it stands when cycle `k` runs. */
  ghost predicate HonestRun(inputs: seq<CycleInput>, logs: seq<seq<Deal>>) {
    && |logs| == |inputs|
    && (inputs != [] ==>
          var n := |inputs| - 1;
          && HonestRun(inputs[..n], logs[..n])
          && Environment(Run(map[], inputs[..n]), inputs[n], logs[n])
          && (if n == 0 then UpTo(logs[0], inputs[0].asOf)
              else logs[n - 1] <= logs[n]
                   && Grows(logs[n - 1], inputs[n - 1].asOf, logs[n][|logs[n - 1]|..], inputs[n].asOf)))
  }

  lemma LogGrowth(store: Store, inputs: seq<CycleInput>, logs: seq<seq<Deal>>)
    requires HonestRun(inputs, logs) && inputs != []
    requires |inputs| == 1 ==> store == map[]
    requires |inputs| > 1 ==> Inv(store, logs[|inputs| - 2], inputs[|inputs| - 2].asOf)
    ensures Inv(store, logs[|inputs| - 1], inputs[|inputs| - 1].asOf)
  {
    var n := |inputs| - 1;
    if n > 0 {
      var more := logs[n][|logs[n - 1]|..];
      assert logs[n - 1] + more == logs[n];
      InvAfterGrowth(store, logs[n - 1], inputs[n - 1].asOf, more, inputs[n].asOf);
    }
  }

  lemma {:induction false} LockInvariant(inputs: seq<CycleInput>, logs: seq<seq<Deal>>)
    requires HonestRun(inputs, logs) && inputs != []
    ensures Inv(Run(map[], inputs), logs[|inputs| - 1], inputs[|inputs| - 1].asOf)
  {
    var n := |inputs| - 1;
    var before := Run(map[], inputs[..n]);
    if n > 0 {
      LockInvariant(inputs[..n], logs[..n]);
    }
    LogGrowth(before, inputs, logs);
    CycleKeepsLock(before, inputs[n], logs[n]);
  }

  /** In every reachable state at most one stored recommendation per symbol is
      PENDING or OPEN. */
  lemma AtMostOneUnresolvedPerSymbol(inputs: seq<CycleInput>, logs: seq<seq<Deal>>)
    requires HonestRun(inputs, logs)
    ensures OneUnresolvedPerSymbol(Run(map[], inputs))
  {
    if inputs != [] {
      LockInvariant(inputs, logs);
    }
  }

  /** The last cycle of a run keeps every stored record and every resolution. */
  lemma LastCycleResolves(inputs: seq<CycleInput>, logs: seq<seq<Deal>>, id: string)
    requires HonestRun(inputs, logs) && inputs != []
    requires id in Run(map[], inputs[..|inputs| - 1])
    ensures id in Run(map[], inputs)
    ensures Resolution(Run(map[], inputs[..|inputs| - 1])[id], Run(map[], inputs)[id])
  {
    var n := |inputs| - 1;
    var before := Run(map[], inputs[..n]);
    if n > 0 {
      LockInvariant(inputs[..n], logs[..n]);
    }
    LogGrowth(before, inputs, logs);
    CycleKeepsLock(before, inputs[n], logs[n]);
  }

  /** Once a record is resolved it stays so for the rest of the run, and an unfilled
      record is never matched afterwards. */
  lemma {:induction false} ResolutionIsFinal(inputs: seq<CycleInput>, logs: seq<seq<Deal>>, k: nat, id: string)
    requires HonestRun(inputs, logs) && k <= |inputs|
    requires id in Run(map[], inputs[..k])
    ensures id in Run(map[], inputs)
    ensures Resolution(Run(map[], inputs[..k])[id], Run(map[], inputs)[id])
  {
    var n := |inputs| - 1;
    if k == |inputs| {
      assert inputs[..k] == inputs;
    } else {
      assert inputs[..n][..k] == inputs[..k];
      ResolutionIsFinal(inputs[..n], logs[..n], k, id);
      LastCycleResolves(inputs, logs, id);
    }
  }

  // ---- where NOT_FILLED is not terminal ------------------------------------------------

  ghost predicate HasExactSoleOwner(t: Tracked, reading: Reading, claimed: set<nat>) {
    && reading.status.HistoryOk?
    && exists p ::
         && SoleEligible(reading.deals, QueryFor(t, claimed), p)
         && OpeningVolume(reading.deals, QueryFor(t, claimed), p) == t.approvedVolume
  }

  lemma ExactSoleOwnerMatches(t: Tracked, reading: Reading, claimed: set<nat>)
    requires HasExactSoleOwner(t, reading, claimed)
    ensures var outcome := Match(QueryFor(t, claimed), reading.deals, reading.status, reading.coversUntil);
            outcome.Success? ==> outcome.value.Matched?
  {
    var q := QueryFor(t, claimed);
    var p :| SoleEligible(reading.deals, q, p) && OpeningVolume(reading.deals, q, p) == t.approvedVolume;
    MatchedIff(q, reading.deals, reading.status, reading.coversUntil, p);
    RaisesIff(q, reading.deals, reading.status, reading.coversUntil);
  }

  /** Without those conditions NOT_FILLED is not terminal: matching runs again for
      every unmatched record. A record leaves NOT_FILLED exactly when the reading
      shows a sole eligible position of exactly the approved volume. */
  lemma UnfilledRevivesIff(t: Tracked, reading: Reading, claimed: set<nat>)
    requires ValidTracked(t) && t.record.status.NotFilled? && Advance(t, reading, claimed).Success?
    ensures !Advance(t, reading, claimed).value.record.status.NotFilled? <==> HasExactSoleOwner(t, reading, claimed)
  {
    var outcome := Match(QueryFor(t, claimed), reading.deals, reading.status, reading.coversUntil);
    if outcome.value.Matched? {
      var p := outcome.value.positionId;
      MatchedIsJustified(t, p, reading, claimed);
      SettleKeeps(WithMatch(t, p, reading.asOf), reading);
    } else if HasExactSoleOwner(t, reading, claimed) {
      ExactSoleOwnerMatches(t, reading, claimed);
    }
  }

  /** One more advance of the same record. */
  datatype Step = Step(reading: Reading, claimed: set<nat>)

  ghost function AdvanceRun(t: Tracked, steps: seq<Step>): Result<Tracked, TrackingFault> {
    if steps == [] then Success(t)
    else
      var before :- AdvanceRun(t, steps[..|steps| - 1]);
      var last := steps[|steps| - 1];
      Advance(before, last.reading, last.claimed)
  }

  /** The history, where it could be read, has gained only deals after the validity
      window, and no claim was given up. */
  ghost predicate AddsOnlyLateDeals(step: Step, base: seq<Deal>, owned: set<nat>, validUntil: int) {
    && (step.reading.status.HistoryOk? ==>
          && base <= step.reading.deals
          && forall d :: d in step.reading.deals[|base|..] ==> d.time > validUntil)
    && owned <= step.claimed
  }

  /** For a single record, over any sequence of advances: unfilled with nothing left to
      own, it stays unfilled while the histories that can be read only gain deals after its
      validity window and the claimed set only grows. */
  lemma {:induction false} UnfilledStaysUnfilled(t: Tracked, base: seq<Deal>, owned: set<nat>, steps: seq<Step>)
    requires t.record.status.NotFilled? && t.matched.None? && NothingLeft(t, base, owned)
    requires forall step :: step in steps ==> AddsOnlyLateDeals(step, base, owned, t.record.validUntil)
    ensures AdvanceRun(t, steps).Success?
    ensures var u := AdvanceRun(t, steps).value;
            u.record.status.NotFilled? && u.matched.None? && SameIssue(t, u)
  {
    if steps != [] {
      var init, last := steps[..|steps| - 1], steps[|steps| - 1];
      assert last in steps && forall step :: step in init ==> step in steps;
      UnfilledStaysUnfilled(t, base, owned, init);
      var u := AdvanceRun(t, init).value;
      NothingToMatch(u, base, owned, last);
    }
  }

  lemma NothingToMatch(t: Tracked, base: seq<Deal>, owned: set<nat>, step: Step)
    requires t.record.status.NotFilled? && t.matched.None? && NothingLeft(t, base, owned)
    requires AddsOnlyLateDeals(step, base, owned, t.record.validUntil)
    ensures Advance(t, step.reading, step.claimed).Success?
    ensures var u := Advance(t, step.reading, step.claimed).value;
            u.record.status.NotFilled? && u.matched.None? && SameIssue(t, u)
  {
    var q, deals := QueryFor(t, step.claimed), step.reading.deals;
    if step.reading.status.HistoryOk? {
      var more := deals[|base|..];
      assert deals == base + more;
      forall p: nat
        ensures !Eligible(deals, q, p)
      {
        if Eligible(deals, q, p) {
          UnclaimedEligibility(t, deals, step.claimed, p);
          LateDealsAddNothing(QueryFor(t, {}), base, more, p);
        }
      }
      NoCandidateIff(q, deals, step.reading.status, step.reading.coversUntil);
    }
  }

  /** A record that an advance expired, because its window closed on a covered history
      with nothing eligible, stays unfilled over any further advances while the
      histories that can be read only gain deals after the window and the claimed set only
      grows. */
  lemma ExpiredStaysUnfilled(t: Tracked, first: Step, steps: seq<Step>)
    requires t.matched.None?
    requires Match(QueryFor(t, first.claimed), first.reading.deals, first.reading.status, first.reading.coversUntil)
             == Success(ExpiredConfirmedUnfilled)
    requires forall step :: step in steps ==>
               AddsOnlyLateDeals(step, first.reading.deals, first.claimed, t.record.validUntil)
    ensures Advance(t, first.reading, first.claimed).Success?
    ensures var expired := Advance(t, first.reading, first.claimed).value;
            && expired.record.status.NotFilled?
            && AdvanceRun(expired, steps).Success?
            && var u := AdvanceRun(expired, steps).value;
            u.record.status.NotFilled? && u.matched.None? && SameIssue(t, u)
  {
    ExpiredLeavesNothing(t, first.reading, first.claimed);
    var expired := Advance(t, first.reading, first.claimed).value;
    assert QueryFor(expired, {}) == QueryFor(t, {});
    UnfilledStaysUnfilled(expired, first.reading.deals, first.claimed, steps);
  }

  /** A revival, for any waiting record: its window closes on an empty covered history,
      and then the broker reports a fill of exactly the approved volume from inside the
      window. The documented terminal status is left. */
  lemma LateReportRevives(t: Tracked, fill: Deal, closing: int, later: int)
    requires ValidTracked(t) && t.record.status.Pending? && t.record.exitTime.None?
    requires closing >= t.record.validUntil
    requires Qualifies(fill, QueryFor(t, {})) && fill.volume == t.approvedVolume
    requires fill.positionId > 0 && fill.time > EPOCH
    ensures var empty, reported := Reading(closing, HistoryOk, [], closing), Reading(later, HistoryOk, [fill], later);
            && Advance(t, empty, {}).Success?
            && var unfilled := Advance(t, empty, {}).value;
            && unfilled.record.status.NotFilled?
            && Advance(unfilled, reported, {}).Success?
            && Advance(unfilled, reported, {}).value.matched == Some(fill.positionId)
            && !Advance(unfilled, reported, {}).value.record.status.NotFilled?
  {
    var empty, reported := Reading(closing, HistoryOk, [], closing), Reading(later, HistoryOk, [fill], later);
    var q := QueryFor(t, {});
    NoCandidateIff(q, [], HistoryOk, closing);
    var unfilled := Advance(t, empty, {}).value;
    assert QueryFor(unfilled, {}) == q;
    SoleFillMatches(q, fill, later);
    var matched := WithMatch(unfilled, fill.positionId, later);
    FillSettles(matched, q, fill, reported);
    SettleKeeps(matched, reported);
    assert ValidTracked(matched);
  }

  /** There is such a record and such a fill. */
  lemma SomeUnfilledRevives()
    ensures exists t: Tracked, first: Reading, later: Reading ::
              && ValidTracked(t) && t.record.status.Pending?
              && Advance(t, first, {}).Success? && Advance(t, first, {}).value.record.status.NotFilled?
              && Advance(Advance(t, first, {}).value, later, {}).Success?
              && !Advance(Advance(t, first, {}).value, later, {}).value.record.status.NotFilled?
  {
    LateReportRevives(EXAMPLE_WAITING, EXAMPLE_FILL, 25, 30);
    var first, later := Reading(25, HistoryOk, [], 25), Reading(30, HistoryOk, [EXAMPLE_FILL], 30);
    assert Advance(Advance(EXAMPLE_WAITING, first, {}).value, later, {}).value.matched == Some(7);
  }

  // ---- why records must load and advance writes must succeed ---------------------------

  /** A lock holder of the symbol that stays on disk as it was: it was not read, or its
      update was not written. */
  ghost predicate StaleLock(store: Store, order: seq<string>, written: set<string>, symbol: string) {
    exists id ::
      id in store && LockHolding(store[id]) && store[id].record.symbol == symbol && (id !in order || id !in written)
  }

  lemma AdmittedIsStored(store: Store, input: CycleInput, order: seq<string>, updated: seq<Tracked>)
    requires |order| == |updated|
    requires input.mode.Some? && !input.mode.value.Hedging? && input.actionable.Some?
    requires Gate(input, InMemory(order, updated)).1
    requires |input.actionable.value| == 1 && IssuanceOf(input.actionable.value[0], input).trackingPersisted
    ensures var rec := input.actionable.value[0];
            ConcludeCycle(store, input, order, updated).0
            == WriteBack(store, order, updated, input.advanceWrites)[rec.tradeId := NewRecord(rec, input.positions)]
  {
    var recs := input.actionable.value;
    var written := WriteBack(store, order, updated, input.advanceWrites);
    assert recs[..|recs| - 1] == [];
    assert IssueAll(written, [], input) == written;
  }

  /** The guard judges the records that were read, as they are in memory. When it admits
      a recommendation that is then stored, the lock survives on disk exactly if no lock
      holder of the symbol was unread or failed to be written. */
  lemma LockSurvivesIff(store: Store, input: CycleInput, order: seq<string>, updated: seq<Tracked>)
    requires Distinct(order) && |order| == |updated| && OneUnresolvedPerSymbol(store)
    requires forall id :: id in order ==> id in store
    requires forall i :: 0 <= i < |order| ==>
               && Resolution(store[order[i]], updated[i])
               && updated[i].record.symbol == store[order[i]].record.symbol
    requires input.mode.Some? && !input.mode.value.Hedging? && input.actionable.Some?
    requires Gate(input, InMemory(order, updated)).1
    requires var rec := input.actionable.value[0];
             rec.symbol == input.target && rec.tradeId !in store && IssuanceOf(rec, input).trackingPersisted
    ensures OneUnresolvedPerSymbol(ConcludeCycle(store, input, order, updated).0) <==>
            !StaleLock(store, order, input.advanceWrites, input.target)
  {
    var rec := input.actionable.value[0];
    var memory := InMemory(order, updated);
    GuardAdmitsOne(memory, input);
    AdmittedIsStored(store, input, order, updated);
    PartialWriteLocks(store, order, updated, input.advanceWrites, input.target);
    var after := ConcludeCycle(store, input, order, updated).0;
    if StaleLock(store, order, input.advanceWrites, input.target) {
      var id :| id in store && LockHolding(store[id]) && store[id].record.symbol == input.target
                && (id !in order || id !in input.advanceWrites);
      assert id in after && LockHolding(after[id]) && LockHolding(after[rec.tradeId]);
    }
  }

  /** After a partial write-back, whoever holds a lock held it before, and on a symbol
      free in memory only records left unread or unwritten still do. */
  lemma PartialWriteLocks(store: Store, order: seq<string>, updated: seq<Tracked>, written: set<string>, symbol: string)
    requires Distinct(order) && |order| == |updated|
    requires forall id :: id in order ==> id in store
    requires forall i :: 0 <= i < |order| ==>
               && Resolution(store[order[i]], updated[i])
               && updated[i].record.symbol == store[order[i]].record.symbol
    requires !HasUnresolved(InMemory(order, updated), symbol)
    ensures forall id :: id in WriteBack(store, order, updated, written) <==> id in store
    ensures forall id :: id in store ==>
              var u := WriteBack(store, order, updated, written)[id];
              && u.record.symbol == store[id].record.symbol
              && (LockHolding(u) ==> LockHolding(store[id]))
              && (id in order && id in written && u.record.symbol == symbol ==> !LockHolding(u))
              && (id !in order || id !in written ==> u == store[id])
  {
    var after, memory := WriteBack(store, order, updated, written), InMemory(order, updated);
    WriteBackAt(store, order, updated, written);
    WrittenInFull(map[], order, updated, set id | id in order);
    forall id | id in store
      ensures id in after && after[id].record.symbol == store[id].record.symbol
      ensures LockHolding(after[id]) ==> LockHolding(store[id])
      ensures id in order && id in written && after[id].record.symbol == symbol ==> !LockHolding(after[id])
      ensures id !in order || id !in written ==> after[id] == store[id]
    {
      if id in order {
        var i :| 0 <= i < |order| && order[i] == id;
        assert memory[id] == updated[i];
      }
    }
  }

  /** The cycle breaks a lock that held before it. */
  ghost predicate LosesLock(store: Store, input: CycleInput) {
    OneUnresolvedPerSymbol(store) && !OneUnresolvedPerSymbol(Cycle(store, input).0)
  }

  ghost predicate EveryUpdateWritten(store: Store, input: CycleInput) {
    forall id :: id in store ==> id in input.advanceWrites
  }

  /** One cycle over one stored record whose update resolves it but is not written:
      the guard sees the symbol free and a second unresolved record is stored. */
  lemma LostWriteCycle(store: Store, input: CycleInput, id: string, updated: Tracked, rec: Recommendation)
    requires store.Keys == {id} && input.listing == [id] && input.unreadable == {} && input.connected
    requires LockHolding(store[id]) && store[id].record.symbol == input.target && store[id].matched.None?
    requires Advance(store[id], ReadingFor(store, input), {}) == Success(updated)
    requires !LockHolding(updated) && SameIssue(store[id], updated)
    requires !store[id].record.status.NotFilled?
    requires input.advanceWrites == {} && input.mode == Some(Netting) && input.positionsOk && input.positions == []
    requires input.actionable == Some([rec]) && rec.symbol == input.target
    requires rec.tradeId != id && rec.tradeId in input.issueWrites
    ensures LosesLock(store, input) && EveryRecordLoads(store, input)
  {
    SingleRecordCycle(store, input, id, updated);
    FreeInMemory(id, updated, input.target);
    assert [rec][0] == rec && [id][0] == id && [updated][0] == updated;
    LockSurvivesIff(store, input, [id], [updated]);
    assert StaleLock(store, [id], input.advanceWrites, input.target);
  }

  lemma SingleRecordCycle(store: Store, input: CycleInput, id: string, updated: Tracked)
    requires store.Keys == {id} && input.listing == [id] && input.unreadable == {} && input.connected
    requires store[id].matched.None?
    requires Advance(store[id], ReadingFor(store, input), {}) == Success(updated)
    ensures Cycle(store, input) == ConcludeCycle(store, input, [id], [updated])
  {
    var loaded := Loaded(store, input);
    assert loaded == store;
    FilterOne(id, InStore(loaded));
    assert Order(store, input) == [id];
    var none: set<nat> := {};
    assert ClaimedOf(store) == none && none - MatchedId(store[id]) == none;
    SingleRecordPass(id, store, none, ReadingFor(store, input), updated);
  }

  lemma FreeInMemory(id: string, updated: Tracked, symbol: string)
    requires !LockHolding(updated)
    ensures InMemory([id], [updated]) == map[id := updated] && !HasUnresolved(InMemory([id], [updated]), symbol)
  {
    WrittenInFull(map[], [id], [updated], set i | i in [id]);
    var memory := InMemory([id], [updated]);
    assert [id][0] == id && [updated][0] == updated && id in [id];
    assert memory.Keys == {id} && memory[id] == updated;
  }

  /** One cycle over one unresolved record that cannot be read: the guard sees the symbol
      free and a second unresolved record is stored. */
  lemma UnreadableCycle(store: Store, input: CycleInput, id: string, rec: Recommendation)
    requires store.Keys == {id} && input.listing == [id] && input.unreadable == {id} && input.connected
    requires LockHolding(store[id]) && store[id].record.symbol == input.target
    requires input.mode == Some(Netting) && input.positionsOk && input.positions == []
    requires input.actionable == Some([rec]) && rec.symbol == input.target
    requires rec.tradeId != id && rec.tradeId in input.issueWrites
    ensures LosesLock(store, input)
  {
    var loaded := Loaded(store, input);
    FilterOne(id, InStore(loaded));
    assert Order(store, input) == [] && loaded == map[];
    assert [rec][0] == rec;
    LockSurvivesIff(store, input, [], []);
    assert StaleLock(store, [], input.advanceWrites, input.target);
    assert Cycle(store, input) == ConcludeCycle(store, input, [], []);
  }

  const EXAMPLE_NEXT: Recommendation := Recommendation("c", "X", Long, 1.0, 0.5, 1.0, 25, 40)

  const EXAMPLE_EXPIRY: CycleInput :=
    CycleInput(true, Some(Netting), ["b"], {}, 25, 0, HistoryOk, (start: int) => [], {}, true, [], "X",
               Some([EXAMPLE_NEXT]), {"c"}, {"c"})

  /** A lost write loses the lock: a waiting record expires, the write that says so
      fails, and the next recommendation on its symbol is issued beside it. */
  lemma LostWriteBreaksLock()
    ensures exists store: Store, input: CycleInput :: LosesLock(store, input) && EveryRecordLoads(store, input)
  {
    var store: Store := map["b" := EXAMPLE_WAITING];
    var reading := ReadingFor(store, EXAMPLE_EXPIRY);
    NoCandidateIff(QueryFor(EXAMPLE_WAITING, {}), [], HistoryOk, 25);
    var updated := Advance(EXAMPLE_WAITING, reading, {}).value;
    LostWriteCycle(store, EXAMPLE_EXPIRY, "b", updated, EXAMPLE_NEXT);
  }

  /** So does an unreadable record: a waiting record whose file reads CORRUPT is not
      counted, and the next recommendation on its symbol is issued beside it. */
  lemma UnreadableHolderBreaksLock()
    ensures exists store: Store, input: CycleInput :: LosesLock(store, input) && EveryUpdateWritten(store, input)
  {
    var store: Store := map["b" := EXAMPLE_WAITING];
    var input := EXAMPLE_EXPIRY.(unreadable := {"b"}, advanceWrites := {"b"});
    UnreadableCycle(store, input, "b", EXAMPLE_NEXT);
    assert EveryUpdateWritten(store, input);
  }
}
