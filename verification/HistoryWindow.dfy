/** The history query starts at the earlier of the trading day and the oldest
    loaded signal, so its start moves while the broker's log grows. Where a record
    is judged, the trimmed reading and the whole log agree. */
module HistoryWindow {
  import opened Common
  import opened Deals
  import opened Matching
  import opened PositionLifecycle
  import opened Tracker

  function InWindow(start: int, end: int): Deal -> bool {
    (d: Deal) => start <= d.time <= end
  }

  function Window(log: seq<Deal>, start: int, end: int): seq<Deal> {
    Filter(log, InWindow(start, end))
  }

  /** A position of the record's symbol with deals on both sides of the signal was open
      when the signal was issued, so the positions snapshot taken then names it. */
  ghost predicate SnapshotComplete(preExisting: set<nat>, symbol: string, signalTime: int, log: seq<Deal>) {
    forall early, late | early in log && late in log && early.positionId == late.positionId ::
      early.time < signalTime <= late.time && late.symbol == Some(symbol) ==> early.positionId in preExisting
  }

  ghost predicate UpTo(log: seq<Deal>, end: int) {
    forall d :: d in log ==> d.time <= end
  }

  /** Some deal of `p` on the symbol happened at or after `signalTime`. */
  ghost predicate Witnessed(log: seq<Deal>, p: nat, symbol: string, signalTime: int) {
    exists d :: d in log && d.positionId == p && d.symbol == Some(symbol) && d.time >= signalTime
  }

  /** No deal of a position that was not yet open at the signal is trimmed away. */
  lemma OwnDealsSurvive(log: seq<Deal>, start: int, end: int, p: nat, preExisting: set<nat>, symbol: string,
                        signalTime: int)
    requires start <= signalTime && UpTo(log, end) && SnapshotComplete(preExisting, symbol, signalTime, log)
    requires p !in preExisting && Witnessed(log, p, symbol, signalTime)
    ensures OfPosition(Window(log, start, end), p) == OfPosition(log, p)
  {
    var late :| late in log && late.positionId == p && late.symbol == Some(symbol) && late.time >= signalTime;
    forall d | d in log && AtPosition(p)(d)
      ensures InWindow(start, end)(d)
    {
      assert d.time < signalTime ==> d.positionId in preExisting;
    }
    FilterFilter(log, InWindow(start, end), AtPosition(p));
  }

  lemma EligibilitySurvives(q: Query, log: seq<Deal>, start: int, end: int, p: nat)
    requires start <= q.signalTime && UpTo(log, end) && SnapshotComplete(q.preExisting, q.symbol, q.signalTime, log)
    ensures Eligible(Window(log, start, end), q, p) <==> Eligible(log, q, p)
    ensures OpeningVolume(Window(log, start, end), q, p) == OpeningVolume(log, q, p)
  {
    var read := Window(log, start, end);
    FilterMembers(log, InWindow(start, end));
    forall d | d in log && FillOf(q, p)(d)
      ensures InWindow(start, end)(d)
    {
    }
    FilterFilter(log, InWindow(start, end), FillOf(q, p));
    if f :| IsGenesis(f, log, q, p) {
      assert IsGenesis(f, read, q, p);
    }
    if f :| IsGenesis(f, read, q, p) {
      assert Witnessed(log, p, q.symbol, q.signalTime) by {
        assert f in log && f.positionId == p && f.symbol == Some(q.symbol) && f.time >= q.signalTime;
      }
      OwnDealsSurvive(log, start, end, p, q.preExisting, q.symbol, q.signalTime);
      OwnDeals(log, p);
      OwnDeals(read, p);
      forall d | d in log && d.positionId == p
        ensures f.time <= d.time
      {
        assert d in OfPosition(read, p);
      }
      assert IsGenesis(f, log, q, p);
    }
  }

  lemma MatchIgnoresTrimming(q: Query, log: seq<Deal>, start: int, end: int, status: HistoryStatus, coversUntil: int)
    requires start <= q.signalTime && UpTo(log, end) && SnapshotComplete(q.preExisting, q.symbol, q.signalTime, log)
    ensures Match(q, Window(log, start, end), status, coversUntil) == Match(q, log, status, coversUntil)
  {
    forall p: nat
      ensures Eligible(Window(log, start, end), q, p) <==> Eligible(log, q, p)
      ensures OpeningVolume(Window(log, start, end), q, p) == OpeningVolume(log, q, p)
    {
      EligibilitySurvives(q, log, start, end, p);
    }
    assert EligibleIds(Window(log, start, end), q) == EligibleIds(log, q);
  }

  lemma EligibleIsWitnessed(q: Query, log: seq<Deal>, p: nat)
    requires Eligible(log, q, p)
    ensures Witnessed(log, p, q.symbol, q.signalTime) && p !in q.preExisting && p !in q.claimed
  {
    var f :| IsGenesis(f, log, q, p);
    assert f in log && f.positionId == p && f.symbol == Some(q.symbol) && f.time >= q.signalTime;
  }

  /** An advance over any reordering of the trimmed log is the advance over the
      whole log. */
  lemma AdvanceSeesWholeLog(t: Tracked, reading: Reading, log: seq<Deal>, start: int, claimed: set<nat>)
    requires ValidTracked(t) && start <= t.record.signalTime
    requires UpTo(log, reading.asOf) && SnapshotComplete(t.preExisting, t.record.symbol, t.record.signalTime, log)
    requires multiset(reading.deals) == multiset(Window(log, start, reading.asOf))
    requires t.matched.Some? ==> Witnessed(log, t.matched.value, t.record.symbol, t.record.signalTime)
    ensures Advance(t, reading, claimed) == Advance(t, reading.(deals := log), claimed)
  {
    var trimmed := reading.(deals := Window(log, start, reading.asOf));
    var whole := reading.(deals := log);
    AdvanceOrderIrrelevant(t, reading, trimmed, claimed);
    if t.matched.Some? {
      OwnDealsSurvive(log, start, reading.asOf, t.matched.value, t.preExisting, t.record.symbol, t.record.signalTime);
      LifecycleReadsOwnDeals(t.matched.value, trimmed.deals, log);
    } else {
      var q := QueryFor(t, claimed);
      MatchIgnoresTrimming(q, log, start, reading.asOf, reading.status, reading.coversUntil);
      var outcome := Match(q, log, reading.status, reading.coversUntil);
      if outcome.Success? && outcome.value.Matched? {
        var p := outcome.value.positionId;
        MatchedIff(q, log, reading.status, reading.coversUntil, p);
        EligibleIsWitnessed(q, log, p);
        OwnDealsSurvive(log, start, reading.asOf, p, t.preExisting, t.record.symbol, t.record.signalTime);
        LifecycleReadsOwnDeals(p, trimmed.deals, log);
      }
    }
  }
}
