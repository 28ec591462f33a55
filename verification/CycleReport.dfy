/** What one cycle reports and leaves behind, read off its inputs and the records it
    advanced: who passes the netting guard, what is issued, and what a new record
    says. */
module CycleReport {
  import opened Common
  import opened Tracker
  import opened RuntimeCycle
  import opened Ownership
  import opened NettingLock

  /** The broker lists an open position on the target symbol. */
  predicate PositionOnTarget(input: CycleInput) {
    input.positionsOk && exists p :: p in input.positions && p.symbol == input.target
  }

  /** A record advanced in this cycle is still PENDING or OPEN on the target symbol. */
  predicate HeldOnTarget(input: CycleInput, advanced: seq<AdvanceOutcome>) {
    exists o :: o in advanced && o.tracked.record.symbol == input.target &&
      (o.tracked.record.status.Pending? || o.tracked.record.status.Open?)
  }

  // ---- which records a cycle advances ----------------------------------------------------

  /** A record the cycle lists, holds and can read. */
  predicate Reads(store: Store, input: CycleInput, id: string) {
    id in input.listing && id in store && id !in input.unreadable
  }

  /** One outcome per record of the pass, each its own record's. */
  ghost predicate ReportsPass(advanced: seq<AdvanceOutcome>, loaded: Store, written: set<string>) {
    && (forall i, j :: 0 <= i < j < |advanced| ==> advanced[i].tradeId != advanced[j].tradeId)
    && (forall o :: o in advanced ==>
          && o.tradeId in loaded
          && SameIssue(loaded[o.tradeId], o.tracked)
          && (o.persisted <==> o.tradeId in written))
    && (forall id :: id in loaded ==> exists o :: o in advanced && o.tradeId == id)
  }

  lemma OutcomesReportPass(loaded: Store, order: seq<string>, updated: seq<Tracked>, written: set<string>)
    requires Distinct(order) && |order| == |updated| && forall id :: id in order <==> id in loaded
    requires forall i :: 0 <= i < |order| ==> SameIssue(loaded[order[i]], updated[i])
    ensures ReportsPass(AdvanceOutcomes(order, updated, written), loaded, written)
  {
    var advanced := AdvanceOutcomes(order, updated, written);
    forall o | o in advanced
      ensures o.tradeId in loaded && SameIssue(loaded[o.tradeId], o.tracked) && (o.persisted <==> o.tradeId in written)
    {
      var i :| 0 <= i < |order| && advanced[i] == o;
      assert order[i] in order;
    }
    forall id | id in loaded
      ensures exists o :: o in advanced && o.tradeId == id
    {
      var i :| 0 <= i < |order| && order[i] == id;
      assert advanced[i] in advanced;
    }
  }

  lemma LoadedAreRead(store: Store, input: CycleInput)
    ensures forall id :: id in Loaded(store, input) <==> Reads(store, input, id)
    ensures forall id :: Reads(store, input, id) ==> Loaded(store, input)[id] == store[id]
  {
  }

  /** A completed cycle reports an outcome for exactly the records it can read, each its
      own record, and says which were persisted. */
  lemma AdvancedAreRead(store: Store, input: CycleInput)
    requires Distinct(input.listing) && Cycle(store, input).1.Completed?
    ensures var advanced := Cycle(store, input).1.advanced;
            && (forall i, j :: 0 <= i < j < |advanced| ==> advanced[i].tradeId != advanced[j].tradeId)
            && (forall o :: o in advanced ==>
                  && Reads(store, input, o.tradeId)
                  && SameIssue(store[o.tradeId], o.tracked)
                  && (o.persisted <==> o.tradeId in input.advanceWrites))
            && (forall id :: Reads(store, input, id) ==> exists o :: o in advanced && o.tradeId == id)
  {
    var order, updated := CompletedPass(store, input);
    OutcomesReportPass(Loaded(store, input), order, updated, input.advanceWrites);
    LoadedAreRead(store, input);
  }

  /** The pass behind a completed cycle. */
  lemma CompletedPass(store: Store, input: CycleInput) returns (order: seq<string>, updated: seq<Tracked>)
    requires Distinct(input.listing) && Cycle(store, input).1.Completed?
    ensures input.connected && order == Order(store, input) && Distinct(order) && |updated| == |order|
    ensures forall id :: id in order <==> id in Loaded(store, input)
    ensures forall i :: 0 <= i < |order| ==> SameIssue(Loaded(store, input)[order[i]], updated[i])
    ensures Cycle(store, input) == ConcludeCycle(store, input, order, updated)
    ensures Cycle(store, input).1.advanced == AdvanceOutcomes(order, updated, input.advanceWrites)
  {
    OrderListsLoaded(store, input);
    order := Order(store, input);
    var loaded, reading := Loaded(store, input), ReadingFor(store, input);
    updated := AdvanceSeq(order, loaded, ClaimedOf(loaded), reading).value;
    PassKeepsOwnership(order, loaded, ClaimedOf(loaded), reading);
    ConcludedAdvance(store, input, order, updated);
  }

  lemma ConcludedAdvance(store: Store, input: CycleInput, order: seq<string>, updated: seq<Tracked>)
    requires |order| == |updated|
    ensures ConcludeCycle(store, input, order, updated).1.Completed?
    ensures ConcludeCycle(store, input, order, updated).1.advanced == AdvanceOutcomes(order, updated, input.advanceWrites)
  {
  }

  /** A cycle that does not connect, or raises, leaves the store as it was; it completes
      exactly when it connects and no record raises. */
  lemma CompletesIff(store: Store, input: CycleInput)
    ensures Cycle(store, input).1.NotConnected? <==> !input.connected
    ensures Cycle(store, input).1.Completed? <==> input.connected && PassSucceeds(store, input)
    ensures !Cycle(store, input).1.Completed? ==> Cycle(store, input).0 == store
  {
    OrderListsLoaded(store, input);
    var order, loaded := Order(store, input), Loaded(store, input);
    var pass := AdvanceSeq(order, loaded, ClaimedOf(loaded), ReadingFor(store, input));
    if input.connected && pass.Success? {
      AdvanceSeqLength(order, loaded, ClaimedOf(loaded), ReadingFor(store, input));
      ConcludedAdvance(store, input, order, pass.value);
    }
  }

  // ---- the guard ---------------------------------------------------------------------------

  lemma HeldInMemory(input: CycleInput, order: seq<string>, updated: seq<Tracked>)
    requires Distinct(order) && |order| == |updated|
    ensures HasUnresolved(InMemory(order, updated), input.target) <==>
            HeldOnTarget(input, AdvanceOutcomes(order, updated, input.advanceWrites))
  {
    var memory, advanced := InMemory(order, updated), AdvanceOutcomes(order, updated, input.advanceWrites);
    WrittenInFull(map[], order, updated, set id | id in order);
    if HasUnresolved(memory, input.target) {
      var id :| id in memory && memory[id].record.symbol == input.target && LockHolding(memory[id]);
      var i :| 0 <= i < |order| && order[i] == id;
      assert advanced[i] in advanced && advanced[i].tracked == memory[id];
    }
    if HeldOnTarget(input, advanced) {
      var o :| o in advanced && o.tracked.record.symbol == input.target &&
        (o.tracked.record.status.Pending? || o.tracked.record.status.Open?);
      var i :| 0 <= i < |order| && advanced[i] == o;
      assert order[i] in order && memory[order[i]] == o.tracked;
    }
  }

  /** On a NETTING or UNKNOWN account the guard's verdict is read off the listed
      positions, the advanced records and the number of ACTIONABLE families, in that
      order. */
  lemma GuardVerdicts(store: Store, input: CycleInput)
    requires Distinct(input.listing) && Cycle(store, input).1.Completed?
    requires input.mode.Some? && !input.mode.value.Hedging? && input.actionable.Some?
    ensures var r, count := Cycle(store, input).1, |input.actionable.value|;
            var occupied, held := PositionOnTarget(input), HeldOnTarget(input, r.advanced);
            && r.guard.Some?
            && (r.guard.value.BlockedExistingBrokerPosition? <==> occupied)
            && (r.guard.value.BlockedExistingUnresolved? <==> !occupied && held)
            && (r.guard.value.NoActionable? <==> !occupied && !held && count == 0)
            && (r.guard.value.Allowed? <==> !occupied && !held && count == 1)
            && (r.guard.value.BlockedMultipleActionable? <==> !occupied && !held && count > 1)
  {
    var order, updated := CompletedPass(store, input);
    HeldInMemory(input, order, updated);
  }

  /** A cycle issues exactly when final construction took place on a known account and
      either the account hedges, or there is one ACTIONABLE family, no listed position on
      the symbol and no advanced record of it that is PENDING or OPEN. Then it issues
      every ACTIONABLE recommendation, in order, and nothing else. */
  lemma IssuesIff(store: Store, input: CycleInput)
    requires Distinct(input.listing) && Cycle(store, input).1.Completed?
    ensures var r := Cycle(store, input).1;
            var open := && input.mode.Some? && input.actionable.Some?
                        && (|| input.mode.value.Hedging?
                            || (&& |input.actionable.value| == 1
                                && !PositionOnTarget(input) && !HeldOnTarget(input, r.advanced)));
            && r.issuances == (if open then Issuances(input.actionable.value, input) else [])
            && (input.mode.None? || input.actionable.None? || input.mode.value.Hedging? ==> r.guard.None?)
  {
    var order, updated := CompletedPass(store, input);
    HeldInMemory(input, order, updated);
  }

  // ---- what is issued -------------------------------------------------------------------------

  /** Each issuance is of its own recommendation; a record is created exactly when the
      positions could be listed, and stored exactly when it was created and written. */
  lemma IssuanceReports(recs: seq<Recommendation>, input: CycleInput, k: nat)
    requires k < |recs|
    ensures var issued := Issuances(recs, input);
            && |issued| == |recs| && issued[k].tradeId == recs[k].tradeId
            && (issued[k].creation.Created? <==> input.positionsOk)
            && (issued[k].trackingPersisted <==> input.positionsOk && recs[k].tradeId in input.issueWrites)
            && (issued[k].provenancePersisted <==> input.positionsOk && recs[k].tradeId in input.provenanceWrites)
  {
  }

  /** A record that starts its life: all the recommendation said, what was open on its
      symbol, and nothing yet of its fate. */
  ghost predicate Starts(t: Tracked, rec: Recommendation, positions: seq<BrokerPosition>) {
    && t.record.tradeId == rec.tradeId && t.record.symbol == rec.symbol && t.record.direction == rec.direction
    && t.record.signalTime == rec.signalTime && t.record.validUntil == rec.validUntil
    && t.record.plannedEntry == rec.entryPrice && t.record.stopLoss == rec.stopLoss
    && t.approvedVolume == rec.approvedVolume
    && t.record.status.Pending? && t.matched.None? && t.lastOutcome.None? && t.lastReadAt.None?
    && t.record.actualEntry.None? && t.record.actualEntryTime.None?
    && t.record.exitPrice.None? && t.record.exitTime.None? && t.record.pnl.None?
    && forall id :: id in t.preExisting <==> exists p :: p in positions && p.symbol == rec.symbol && p.ticket == id
  }

  /** The store gains a record exactly under the trade id of an issuance that was stored,
      and the record is the recommendation's. */
  lemma NewRecordsAreIssued(store: Store, input: CycleInput, id: string)
    requires Distinct(input.listing) && Cycle(store, input).1.Completed? && id !in store
    requires input.actionable.Some? ==> forall i, j :: 0 <= i < j < |input.actionable.value| ==>
               input.actionable.value[i].tradeId != input.actionable.value[j].tradeId
    ensures var (after, r) := Cycle(store, input);
            && (id in after <==> exists i :: i in r.issuances && i.tradeId == id && i.trackingPersisted)
            && (id in after ==>
                  exists rec :: rec in input.actionable.value && rec.tradeId == id && Starts(after[id], rec, input.positions))
  {
    var order, updated := CompletedPass(store, input);
    var written := WriteBack(store, order, updated, input.advanceWrites);
    WriteBackAt(store, order, updated, input.advanceWrites);
    assert id !in written;
    IssuesIff(store, input);
    if Cycle(store, input).1.issuances != [] {
      IssuedAre(written, input.actionable.value, input, id);
    }
  }

  lemma {:induction false} IssuedAre(store: Store, recs: seq<Recommendation>, input: CycleInput, id: string)
    requires id !in store
    requires forall i, j :: 0 <= i < j < |recs| ==> recs[i].tradeId != recs[j].tradeId
    ensures id in IssueAll(store, recs, input) <==>
            exists i :: i in Issuances(recs, input) && i.tradeId == id && i.trackingPersisted
    ensures id in IssueAll(store, recs, input) ==>
              exists rec :: rec in recs && rec.tradeId == id
                            && Starts(IssueAll(store, recs, input)[id], rec, input.positions)
  {
    if recs != [] {
      var n := |recs| - 1;
      var init, rec := recs[..n], recs[n];
      IssuedAre(store, init, input, id);
      assert Issuances(recs, input) == Issuances(init, input) + [IssuanceOf(rec, input)];
      NewRecordStarts(rec, input.positions);
      assert rec in recs && forall r :: r in init ==> r in recs;
    }
  }

  lemma NewRecordStarts(rec: Recommendation, positions: seq<BrokerPosition>)
    ensures Starts(NewRecord(rec, positions), rec, positions)
  {
  }

  /** Stored records change only by being advanced and written. */
  lemma OldRecordsAdvance(store: Store, input: CycleInput, id: string)
    requires Distinct(input.listing) && Cycle(store, input).1.Completed? && id in store && !Issues(input, id)
    ensures var (after, r) := Cycle(store, input);
            && id in after
            && (id !in input.advanceWrites || !Reads(store, input, id) ==> after[id] == store[id])
            && (forall o :: o in r.advanced && o.tradeId == id && o.persisted ==> after[id] == o.tracked)
  {
    var order, updated := CompletedPass(store, input);
    var written := WriteBack(store, order, updated, input.advanceWrites);
    WriteBackAt(store, order, updated, input.advanceWrites);
    ConclusionStages(store, input, order, updated);
    if input.actionable.Some? {
      IssueAt(written, input.actionable.value, input);
    }
    var advanced := Cycle(store, input).1.advanced;
    forall o | o in advanced && o.tradeId == id && o.persisted
      ensures written[id] == o.tracked
    {
      var i :| 0 <= i < |order| && advanced[i] == o;
    }
  }
}
