/** Completed epoch-aligned analytics windows, and what a bounded history can and
    cannot say about one. All instants and durations count microseconds. */
module FlowWindows {
  import opened Common
  import opened BoundedBuffers

  datatype Side = BuySide | SellSide

  datatype ContractKind = Spot | Perpetual | OtherContract

  /** A taker trade or a forced liquidation. */
  datatype FlowEvent = FlowEvent(symbol: string, contract: ContractKind, time: int, side: Side, quantity: Amount)

  datatype AnalyticsWindow = AnalyticsWindow(name: string, duration: int)

  predicate ValidWindow(w: AnalyticsWindow) { w.name != "" && w.duration > 0 }

  datatype FlowFault = LabelReused

  // ---- bounds ------------------------------------------------------------------

  function EpochBucketStart(timestamp: int, duration: int): int
    requires duration > 0
  {
    (timestamp / duration) * duration
  }

  function WindowEnd(observation: int, w: AnalyticsWindow): int
    requires ValidWindow(w)
  {
    EpochBucketStart(observation, w.duration)
  }

  function WindowStart(observation: int, w: AnalyticsWindow): int
    requires ValidWindow(w)
  {
    WindowEnd(observation, w) - w.duration
  }

  lemma Distribute(lower: int, gap: int, duration: int)
    ensures (lower + 1 + gap) * duration == lower * duration + duration + gap * duration
  {
  }

  lemma BucketsApart(lower: int, upper: int, duration: int)
    requires duration > 0 && lower < upper
    ensures lower * duration + duration <= upper * duration
  {
    var gap := upper - lower - 1;
    assert gap * duration >= 0;
    assert upper == lower + 1 + gap;
    Distribute(lower, gap, duration);
  }

  /** The window is complete, aligned, and the latest such: its end is the only
      multiple of the duration in the last `duration` instants up to the
      observation. So all observations of one bucket get the same window. */
  lemma LatestCompleteWindow(observation: int, w: AnalyticsWindow, index: int)
    requires ValidWindow(w)
    ensures WindowEnd(observation, w) <= observation < WindowEnd(observation, w) + w.duration
    ensures index * w.duration <= observation < index * w.duration + w.duration <==>
            index * w.duration == WindowEnd(observation, w)
  {
    var bucket := observation / w.duration;
    assert observation == bucket * w.duration + observation % w.duration;
    if index < bucket {
      BucketsApart(index, bucket, w.duration);
    } else if bucket < index {
      BucketsApart(bucket, index, w.duration);
    }
  }

  // ---- selection ---------------------------------------------------------------

  function QuantityOf(e: FlowEvent): real { e.quantity }

  function InWindow(start: int, end: int): FlowEvent -> bool {
    (e: FlowEvent) => start < e.time <= end
  }

  function OnSide(side: Side): FlowEvent -> bool {
    (e: FlowEvent) => e.side == side
  }

  function SeenBy(observation: int): FlowEvent -> bool {
    (e: FlowEvent) => e.time <= observation
  }

  function SelectWindow(events: seq<FlowEvent>, observation: int, w: AnalyticsWindow): seq<FlowEvent>
    requires ValidWindow(w)
  {
    Filter(events, InWindow(WindowStart(observation, w), WindowEnd(observation, w)))
  }

  function EarliestTime(events: seq<FlowEvent>): Option<int> {
    if events == [] then None
    else
      var last := events[|events| - 1].time;
      match EarliestTime(events[..|events| - 1])
      case None => Some(last)
      case Some(t) => Some(if last < t then last else t)
  }

  lemma {:induction false} EarliestIsLeast(events: seq<FlowEvent>)
    ensures EarliestTime(events).None? <==> events == []
    ensures events != [] ==>
              && (exists e :: e in events && e.time == EarliestTime(events).value)
              && forall e :: e in events ==> EarliestTime(events).value <= e.time
  {
    if events != [] {
      var init, last := events[..|events| - 1], events[|events| - 1];
      EarliestIsLeast(init);
      assert last in events;
    }
  }

  /** Python's `max` over the candidates: the first of the latest. */
  function LatestAtOrBefore(events: seq<FlowEvent>, cutoff: int): Option<FlowEvent> {
    if events == [] then None
    else
      var last, best := events[|events| - 1], LatestAtOrBefore(events[..|events| - 1], cutoff);
      if last.time <= cutoff && (best.None? || last.time > best.value.time) then Some(last) else best
  }

  /** It is an observed event no later than the cutoff, no such event is later, and
      earlier arrivals of the same time win; there is none only when none qualifies. */
  lemma {:induction false} LatestAtOrBeforeIsLatest(events: seq<FlowEvent>, cutoff: int) returns (i: nat)
    ensures LatestAtOrBefore(events, cutoff).None? <==> forall e :: e in events ==> e.time > cutoff
    ensures LatestAtOrBefore(events, cutoff).Some? ==>
              && i < |events| && events[i] == LatestAtOrBefore(events, cutoff).value && events[i].time <= cutoff
              && (forall j :: 0 <= j < |events| && events[j].time <= cutoff ==> events[j].time <= events[i].time)
              && (forall j :: 0 <= j < i && events[j].time <= cutoff ==> events[j].time < events[i].time)
  {
    i := 0;
    if events != [] {
      var n := |events| - 1;
      assert events == events[..n] + [events[n]];
      var k := LatestAtOrBeforeIsLatest(events[..n], cutoff);
      i := if LatestAtOrBefore(events, cutoff) == LatestAtOrBefore(events[..n], cutoff) then k else n;
    }
  }

  /** Narrowing to what the observation has seen never narrows a completed window. */
  lemma SeenSuffices(events: seq<FlowEvent>, observation: int, w: AnalyticsWindow)
    requires ValidWindow(w)
    ensures SelectWindow(Filter(events, SeenBy(observation)), observation, w) == SelectWindow(events, observation, w)
  {
    LatestCompleteWindow(observation, w, 0);
    FilterFilter(events, SeenBy(observation), InWindow(WindowStart(observation, w), WindowEnd(observation, w)));
  }

  // ---- truncation --------------------------------------------------------------

  predicate Truncated(windowStart: int, earliest: Option<int>, dropped: int) {
    dropped > 0 && earliest.Some? && earliest.value > windowStart
  }

  ghost predicate TimeOrdered(stream: seq<FlowEvent>) {
    forall i, j :: 0 <= i < j < |stream| ==> stream[i].time <= stream[j].time
  }

  /** The retained events of a window are all of them exactly when no evicted event
      falls into it, in whatever order the events arrived. */
  lemma CompleteIffNothingEvicted(stream: seq<FlowEvent>, dropped: nat, observation: int, w: AnalyticsWindow)
    requires ValidWindow(w) && dropped <= |stream|
    ensures SelectWindow(stream[dropped..], observation, w) == SelectWindow(stream, observation, w) <==>
            forall e :: e in stream[..dropped] ==> !InWindow(WindowStart(observation, w), WindowEnd(observation, w))(e)
  {
    var keep := InWindow(WindowStart(observation, w), WindowEnd(observation, w));
    assert stream == stream[..dropped] + stream[dropped..];
    FilterAppend(stream[..dropped], stream[dropped..], keep);
    FilterMembers(stream[..dropped], keep);
    var evicted := Filter(stream[..dropped], keep);
    if evicted == [] {
      assert evicted + Filter(stream[dropped..], keep) == Filter(stream[dropped..], keep);
      forall e | e in stream[..dropped]
        ensures !keep(e)
      {
        assert keep(e) ==> e in evicted;
      }
    } else {
      assert evicted[0] in evicted;
    }
  }

  /** Events recorded in time order: unless truncation is reported, the retained
      window is the whole window. */
  lemma UntruncatedIsComplete(stream: seq<FlowEvent>, dropped: nat, observation: int, w: AnalyticsWindow)
    requires ValidWindow(w) && dropped <= |stream| && TimeOrdered(stream)
    requires dropped > 0 ==> dropped < |stream|
    requires !Truncated(WindowStart(observation, w), EarliestTime(stream[dropped..]), dropped)
    ensures SelectWindow(stream[dropped..], observation, w) == SelectWindow(stream, observation, w)
  {
    var retained, start := stream[dropped..], WindowStart(observation, w);
    EarliestIsLeast(retained);
    forall e | e in stream[..dropped]
      ensures !InWindow(start, WindowEnd(observation, w))(e)
    {
      var first :| first in retained && first.time == EarliestTime(retained).value;
      var i :| 0 <= i < dropped && stream[i] == e;
      var j :| dropped <= j < |stream| && stream[j] == first;
      assert e.time <= first.time <= start;
    }
    CompleteIffNothingEvicted(stream, dropped, observation, w);
  }

  // ---- labels ------------------------------------------------------------------

  predicate LabelsAgree(windows: seq<AnalyticsWindow>) {
    forall i, j :: 0 <= i < j < |windows| && windows[i].name == windows[j].name ==>
      windows[i].duration == windows[j].duration
  }

  method ValidateUniqueLabels(windows: seq<AnalyticsWindow>) returns (r: Result<(), FlowFault>)
    ensures r.Success? <==> LabelsAgree(windows)
  {
    var seen: map<string, int> := map[];
    for i := 0 to |windows|
      invariant LabelsAgree(windows[..i])
      invariant forall j :: 0 <= j < i ==> windows[j].name in seen && seen[windows[j].name] == windows[j].duration
      invariant forall name :: name in seen ==> exists j :: 0 <= j < i && windows[j].name == name
    {
      var w := windows[i];
      if w.name in seen && seen[w.name] != w.duration {
        ghost var j :| 0 <= j < i && windows[j].name == w.name;
        return Failure(LabelReused);
      }
      seen := seen[w.name := w.duration];
    }
    assert windows[..|windows|] == windows;
    return Success(());
  }
}
