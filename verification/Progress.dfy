/** A cycle that raises leaves the store as it was, so a record that always raises
    would stop tracking for good. Against a well-formed broker log no cycle of an
    honest run raises. */
module Progress {
  import opened Common
  import opened FailClosed
  import opened Deals
  import opened Matching
  import opened PositionLifecycle
  import opened Tracker
  import opened RuntimeCycle
  import opened Ownership
  import opened HistoryWindow
  import opened NettingLock

  /** The log's tickets are distinct and every opening trade names a position. */
  ghost predicate WellFormed(log: seq<Deal>) {
    && Distinct(Map(log, TicketOf))
    && forall d :: d in log && d.entry.In? && (d.dealType.Buy? || d.dealType.Sell?) ==> d.positionId > 0
  }

  /** The fill that makes `p` the record's own position is its first deal on record, some
      fill of it has volume, and no exit has been recorded before it. */
  ghost predicate OpenedBy(t: Tracked, p: nat, f: Deal, log: seq<Deal>) {
    && IsGenesis(f, log, QueryFor(t, {}), p)
    && (t.record.exitTime.Some? ==> f.time <= t.record.exitTime.value)
    && exists fill :: fill in log && FillOf(QueryFor(t, {}), p)(fill) && fill.volume > 0.0
  }

  /** What a record's match rests on in the log. */
  ghost predicate Anchored(t: Tracked, log: seq<Deal>) {
    && (t.matched.None? ==> t.record.exitTime.None?)
    && (t.matched.Some? ==> exists f :: OpenedBy(t, t.matched.value, f, log))
  }

  ghost predicate AllAnchored(store: Store, log: seq<Deal>) {
    forall id :: id in store ==> Anchored(store[id], log)
  }

  // ---- tickets ----------------------------------------------------------------

  lemma {:induction false} FilterKeepsTicketsDistinct(deals: seq<Deal>, keep: Deal -> bool)
    requires Distinct(Map(deals, TicketOf))
    ensures Distinct(Map(Filter(deals, keep), TicketOf))
  {
    if deals != [] {
      var init, d := deals[..|deals| - 1], deals[|deals| - 1];
      var tickets, before := Map(deals, TicketOf), Map(init, TicketOf);
      assert tickets == before + [d.ticket];
      assert forall i :: 0 <= i < |before| ==> tickets[i] == before[i];
      FilterKeepsTicketsDistinct(init, keep);
      FilterMembers(init, keep);
      var kept := Filter(init, keep);
      if keep(d) {
        forall i | 0 <= i < |kept|
          ensures kept[i].ticket != d.ticket
        {
          assert kept[i] in kept;
          var j :| 0 <= j < |init| && init[j] == kept[i];
          assert tickets[j] == kept[i].ticket && tickets[|init|] == d.ticket;
        }
      }
    }
  }

  lemma UnsafeTicketsDistinct(log: seq<Deal>, p: nat)
    requires Distinct(Map(log, TicketOf))
    ensures OwnAssessment(log, p).Blocked? ==> Distinct(OwnAssessment(log, p).tickets)
  {
    FilterKeepsTicketsDistinct(log, AtPosition(p));
    FilterKeepsTicketsDistinct(OfPosition(log, p), IsUnsafe(LifecycleVerdict));
  }

  // ---- one record ---------------------------------------------------------------

  /** An anchored position reconstructs, with its genesis as entry and no exit before
      it. */
  lemma AnchoredReconstructs(t: Tracked, p: nat, f: Deal, log: seq<Deal>)
    requires WellFormed(log) && p > 0 && OpenedBy(t, p, f, log)
    ensures Lifecycle(p, log).Success?
    ensures var r := Lifecycle(p, log).value;
            && (!r.LifecycleBlocked? ==> r.actualEntryTime == f.time)
            && (r.ClosedLifecycle? ==> f.time <= r.exitTime)
  {
    var q := QueryFor(t, {});
    UnsafeTicketsDistinct(log, p);
    FaultsExactly(p, log);
    if OwnAssessment(log, p).Ready? {
      var fill :| fill in log && FillOf(q, p)(fill) && fill.volume > 0.0;
      FillIsOpening(q, p, fill, log);
      VolumesNonnegative(Openings(log, p));
      GenesisOpens(q, p, f, log);
      if Lifecycle(p, log).value.ClosedLifecycle? {
        ExitNeverBeforeGenesis(q, p, f, log);
      }
      ReadyConclusion(OwnAssessment(log, p), SideOf(Openings(log, p)), SideOf(Closings(log, p)), PositionPnl(log, p));
    }
  }

  /** Settling an anchored record on the whole log never raises and keeps its anchor. */
  lemma SettleAnchored(t: Tracked, reading: Reading)
    requires ValidTracked(t) && t.matched.Some? && Anchored(t, reading.deals)
    requires reading.status.HistoryOk? ==> WellFormed(reading.deals)
    ensures Settle(t, reading).Success? && Anchored(Settle(t, reading).value, reading.deals)
  {
    var p := t.matched.value;
    var f :| OpenedBy(t, p, f, reading.deals);
    if reading.status.HistoryOk? {
      AnchoredReconstructs(t, p, f, reading.deals);
      SettledKeepsEntryFirst(t, Lifecycle(p, reading.deals).value, reading.asOf, f.time);
    }
    SettleKeeps(t, reading);
    assert QueryFor(Settle(t, reading).value, {}) == QueryFor(t, {});
    assert OpenedBy(Settle(t, reading).value, p, f, reading.deals);
  }

  lemma SettledKeepsEntryFirst(t: Tracked, lifecycle: LifecycleAssessment, asOf: int, entry: int)
    requires TimelineValid(t.record) && (t.record.exitTime.Some? ==> entry <= t.record.exitTime.value)
    requires !lifecycle.LifecycleBlocked? ==> lifecycle.actualEntryTime == entry
    requires lifecycle.ClosedLifecycle? ==> entry <= lifecycle.exitTime
    ensures Settled(t, lifecycle, asOf).Success?
    ensures var r := Settled(t, lifecycle, asOf).value.record;
            r.exitTime.Some? ==> entry <= r.exitTime.value
  {
  }

  lemma MatchAnchors(t: Tracked, p: nat, reading: Reading, claimed: set<nat>)
    requires ValidTracked(t) && t.matched.None? && Anchored(t, reading.deals)
    requires MatchJustified(t, p, reading, claimed)
    ensures ValidTracked(WithMatch(t, p, reading.asOf)) && Anchored(WithMatch(t, p, reading.asOf), reading.deals)
  {
    var log, q := reading.deals, QueryFor(t, claimed);
    var f :| IsGenesis(f, log, q, p);
    var fill := PositiveFill(Fills(log, q, p));
    FilterMembers(log, FillOf(q, p));
    var u := WithMatch(t, p, reading.asOf);
    assert FillOf(QueryFor(u, {}), p)(fill) && fill in log;
    assert OpenedBy(u, p, f, log);
  }

  lemma PositionZeroNotEligible(q: Query, log: seq<Deal>)
    requires WellFormed(log)
    ensures !Eligible(log, q, 0)
  {
    forall f | f in log
      ensures !FillOf(q, 0)(f)
    {
    }
  }

  lemma MatchNeverRaises(q: Query, log: seq<Deal>, status: HistoryStatus, coversUntil: int)
    requires status.HistoryOk? ==> WellFormed(log)
    ensures Match(q, log, status, coversUntil).Success?
  {
    if status.HistoryOk? {
      PositionZeroNotEligible(q, log);
      RaisesIff(q, log, status, coversUntil);
    }
  }

  lemma AdvanceAnchored(t: Tracked, reading: Reading, claimed: set<nat>)
    requires ValidTracked(t) && Anchored(t, reading.deals)
    requires reading.status.HistoryOk? ==> WellFormed(reading.deals)
    ensures Advance(t, reading, claimed).Success? && Anchored(Advance(t, reading, claimed).value, reading.deals)
  {
    if t.matched.Some? {
      SettleAnchored(t, reading);
    } else {
      var q := QueryFor(t, claimed);
      MatchNeverRaises(q, reading.deals, reading.status, reading.coversUntil);
      var outcome := Match(q, reading.deals, reading.status, reading.coversUntil).value;
      if outcome.Matched? {
        MatchedIsJustified(t, outcome.positionId, reading, claimed);
        MatchAnchors(t, outcome.positionId, reading, claimed);
        SettleAnchored(WithMatch(t, outcome.positionId, reading.asOf), reading);
      }
    }
  }

  // ---- the log grows ------------------------------------------------------------

  lemma AnchoredAfterGrowth(t: Tracked, log: seq<Deal>, asOf: int, more: seq<Deal>)
    requires Anchored(t, log) && UpTo(log, asOf) && forall d :: d in more ==> asOf < d.time
    ensures Anchored(t, log + more)
  {
    if t.matched.Some? {
      var p := t.matched.value;
      var f :| OpenedBy(t, p, f, log);
      var fill :| fill in log && FillOf(QueryFor(t, {}), p)(fill) && fill.volume > 0.0;
      assert fill in log + more;
      assert OpenedBy(t, p, f, log + more);
    }
  }

  // ---- one cycle ------------------------------------------------------------------

  lemma {:induction false} PassAnchored(order: seq<string>, loaded: Store, claimed: set<nat>, reading: Reading)
    requires forall id :: id in order ==> id in loaded && ValidTracked(loaded[id]) && Anchored(loaded[id], reading.deals)
    requires reading.status.HistoryOk? ==> WellFormed(reading.deals)
    ensures AdvanceSeq(order, loaded, claimed, reading).Success?
    ensures forall u :: u in AdvanceSeq(order, loaded, claimed, reading).value ==> Anchored(u, reading.deals)
  {
    if order != [] {
      var t := loaded[order[0]];
      AdvanceAnchored(t, reading, claimed - MatchedId(t));
      var first := Advance(t, reading, claimed - MatchedId(t)).value;
      PassAnchored(order[1..], loaded, claimed + MatchedId(first), reading);
    }
  }

  lemma CycleNeverRaises(store: Store, input: CycleInput, log: seq<Deal>)
    requires Inv(store, log, input.asOf) && Environment(store, input, log)
    requires WellFormed(log) && AllAnchored(store, log)
    ensures !Cycle(store, input).1.Raised?
    ensures AllAnchored(Cycle(store, input).0, log)
  {
    OrderListsLoaded(store, input);
    assert Loaded(store, input) == store;
    var order, claimed, reading := Order(store, input), ClaimedOf(store), ReadingFor(store, input);
    var start := HistoryStart(input.dayStart, order, store);
    HistoryReachesBack(input.dayStart, order, store);
    PassSeesWholeLog(order, store, claimed, reading, log, start);
    PassAnchored(order, store, claimed, reading.(deals := log));
    if input.connected {
      var updated := AdvanceSeq(order, store, claimed, reading).value;
      AdvanceSeqLength(order, store, claimed, reading);
      assert Cycle(store, input) == ConcludeCycle(store, input, order, updated);
      ConclusionAnchored(store, input, log, order, updated);
    }
  }

  lemma ConclusionAnchored(store: Store, input: CycleInput, log: seq<Deal>, order: seq<string>, updated: seq<Tracked>)
    requires Distinct(order) && |order| == |updated| && AllAnchored(store, log)
    requires forall u :: u in updated ==> Anchored(u, log)
    ensures AllAnchored(ConcludeCycle(store, input, order, updated).0, log)
    ensures !ConcludeCycle(store, input, order, updated).1.Raised?
  {
    var written := WriteBack(store, order, updated, input.advanceWrites);
    WriteBackAt(store, order, updated, input.advanceWrites);
    forall id | id in written
      ensures Anchored(written[id], log)
    {
      if id in order && id in input.advanceWrites {
        var i :| 0 <= i < |order| && order[i] == id;
        assert written[id] == updated[i] && updated[i] in updated;
      }
    }
    ConclusionStages(store, input, order, updated);
    if input.actionable.Some? {
      IssueAt(written, input.actionable.value, input);
    }
  }

  // ---- runs -------------------------------------------------------------------------

  lemma AnchoredLogGrowth(store: Store, inputs: seq<CycleInput>, logs: seq<seq<Deal>>)
    requires HonestRun(inputs, logs) && inputs != []
    requires |inputs| == 1 ==> store == map[]
    requires var n := |inputs| - 1;
             n > 0 ==> Inv(store, logs[n - 1], inputs[n - 1].asOf) && AllAnchored(store, logs[n - 1])
    ensures AllAnchored(store, logs[|inputs| - 1])
  {
    var n := |inputs| - 1;
    if n > 0 {
      var more := logs[n][|logs[n - 1]|..];
      assert logs[n - 1] + more == logs[n];
      forall id | id in store
        ensures Anchored(store[id], logs[n])
      {
        AnchoredAfterGrowth(store[id], logs[n - 1], inputs[n - 1].asOf, more);
      }
    }
  }

  lemma LastCycleAnchored(inputs: seq<CycleInput>, logs: seq<seq<Deal>>, before: Store)
    requires HonestRun(inputs, logs) && inputs != [] && WellFormed(logs[|inputs| - 1])
    requires before == Run(map[], inputs[..|inputs| - 1])
    requires var n := |inputs| - 1;
             n > 0 ==> Inv(before, logs[n - 1], inputs[n - 1].asOf) && AllAnchored(before, logs[n - 1])
    ensures var n := |inputs| - 1;
            AllAnchored(Cycle(before, inputs[n]).0, logs[n]) && !Cycle(before, inputs[n]).1.Raised?
  {
    var n := |inputs| - 1;
    LogGrowth(before, inputs, logs);
    AnchoredLogGrowth(before, inputs, logs);
    CycleNeverRaises(before, inputs[n], logs[n]);
  }

  ghost predicate AllWellFormed(logs: seq<seq<Deal>>) {
    forall log :: log in logs ==> WellFormed(log)
  }

  lemma {:induction false} RunStaysAnchored(inputs: seq<CycleInput>, logs: seq<seq<Deal>>)
    requires HonestRun(inputs, logs) && inputs != [] && AllWellFormed(logs)
    ensures AllAnchored(Run(map[], inputs), logs[|inputs| - 1])
    ensures !Cycle(Run(map[], inputs[..|inputs| - 1]), inputs[|inputs| - 1]).1.Raised?
  {
    var n := |inputs| - 1;
    assert logs[n] in logs;
    if n > 0 {
      assert AllWellFormed(logs[..n]);
      RunStaysAnchored(inputs[..n], logs[..n]);
      LockInvariant(inputs[..n], logs[..n]);
    }
    LastCycleAnchored(inputs, logs, Run(map[], inputs[..n]));
  }

  lemma {:induction false} HonestPrefix(inputs: seq<CycleInput>, logs: seq<seq<Deal>>, k: nat)
    requires HonestRun(inputs, logs) && k <= |inputs|
    ensures HonestRun(inputs[..k], logs[..k])
  {
    var n := |inputs| - 1;
    if k == |inputs| {
      assert inputs[..k] == inputs && logs[..k] == logs;
    } else {
      assert inputs[..n][..k] == inputs[..k] && logs[..n][..k] == logs[..k];
      HonestPrefix(inputs[..n], logs[..n], k);
    }
  }

  /** No cycle of an honest run raises while tickets are distinct and opening trades
      name their positions: every record is advanced in every connected cycle. */
  lemma NoCycleRaises(inputs: seq<CycleInput>, logs: seq<seq<Deal>>, k: nat)
    requires HonestRun(inputs, logs) && k < |inputs| && AllWellFormed(logs)
    ensures !Cycle(Run(map[], inputs[..k]), inputs[k]).1.Raised?
  {
    var prefix := inputs[..k + 1];
    HonestPrefix(inputs, logs, k + 1);
    assert prefix[..k] == inputs[..k] && prefix[k] == inputs[k];
    RunStaysAnchored(prefix, logs[..k + 1]);
  }
}
