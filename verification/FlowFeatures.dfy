/** Taker-flow and liquidation figures per analytics window, computed from bounded
    history, and when they equal the figures of the full, never-evicted stream. */
module FlowFeatures {
  import opened Common
  import opened BoundedBuffers
  import opened FlowWindows

  /** The verdicts a window of these two domains can get, with the sample count. */
  datatype Quality = ValidFigures(samples: nat) | PartialFigures(samples: nat) | Unavailable

  datatype TakerFigures = TakerFigures(
    buyVolume: real,
    sellVolume: real,
    totalVolume: real,
    delta: real,
    buyRatio: Option<real>,
    sellRatio: Option<real>,
    deltaRate: real,
    count: nat)

  datatype TakerFeatures = TakerFeatures(
    window: AnalyticsWindow,
    start: int,
    end: int,
    figures: TakerFigures,
    cumulativeDelta: real,
    cumulativeSince: Option<int>,
    quality: Quality)

  datatype LiquidationFigures = LiquidationFigures(
    longVolume: real,
    shortVolume: real,
    totalVolume: real,
    imbalance: real,
    count: nat,
    countLong: nat,
    countShort: nat,
    average: Option<real>,
    largest: Option<real>)

  datatype LiquidationFeatures = LiquidationFeatures(
    window: AnalyticsWindow,
    start: int,
    end: int,
    figures: LiquidationFigures,
    quality: Quality)

  // ---- figures of one selection ---------------------------------------------------

  function SideVolume(events: seq<FlowEvent>, side: Side): real {
    Sum(Filter(events, OnSide(side)), QuantityOf)
  }

  function Seconds(w: AnalyticsWindow): real { w.duration as real / 1_000_000.0 }

  function TakerFiguresOf(selected: seq<FlowEvent>, w: AnalyticsWindow): TakerFigures
    requires ValidWindow(w)
  {
    var buy, sell := SideVolume(selected, BuySide), SideVolume(selected, SellSide);
    var buyRatio := if buy + sell > 0.0 then Some(buy / (buy + sell)) else None;
    TakerFigures(buy, sell, buy + sell, buy - sell, buyRatio,
                 if buyRatio.Some? then Some(1.0 - buyRatio.value) else None,
                 (buy - sell) / Seconds(w), |selected|)
  }

  function Largest(events: seq<FlowEvent>): Option<real> {
    if events == [] then None
    else
      var last := events[|events| - 1].quantity;
      match Largest(events[..|events| - 1])
      case None => Some(last)
      case Some(q) => Some(Max(q, last))
  }

  /** A forced SELL closes a long position, a forced BUY a short one. */
  function LiquidationFiguresOf(selected: seq<FlowEvent>): LiquidationFigures {
    var long, short := SideVolume(selected, SellSide), SideVolume(selected, BuySide);
    LiquidationFigures(long, short, long + short, long - short, |selected|,
                       |Filter(selected, OnSide(SellSide))|, |Filter(selected, OnSide(BuySide))|,
                       if selected != [] then Some((long + short) / |selected| as real) else None,
                       Largest(selected))
  }

  function SignedQuantity(e: FlowEvent): real {
    if e.side.BuySide? then e.quantity else 0.0 - e.quantity
  }

  // ---- what the two calculators report -----------------------------------------------

  function TakerQuality(count: nat, truncated: bool): Quality {
    if count == 0 then Unavailable
    else if truncated then PartialFigures(count)
    else ValidFigures(count)
  }

  /** A sparse stream: an empty window is a valid zero. */
  function LiquidationQuality(count: nat, truncated: bool): Quality {
    if truncated then PartialFigures(count) else ValidFigures(count)
  }

  function TakerReport(trades: seq<FlowEvent>, observation: int, w: AnalyticsWindow, dropped: nat): TakerFeatures
    requires ValidWindow(w)
  {
    var selected := SelectWindow(trades, observation, w);
    var seen := Filter(trades, SeenBy(observation));
    TakerFeatures(w, WindowStart(observation, w), WindowEnd(observation, w), TakerFiguresOf(selected, w),
                  Sum(seen, SignedQuantity), EarliestTime(seen),
                  TakerQuality(|selected|, Truncated(WindowStart(observation, w), EarliestTime(trades), dropped)))
  }

  function LiquidationReport(events: seq<FlowEvent>, observation: int, w: AnalyticsWindow, dropped: nat):
    LiquidationFeatures
    requires ValidWindow(w)
  {
    var selected := SelectWindow(events, observation, w);
    LiquidationFeatures(w, WindowStart(observation, w), WindowEnd(observation, w), LiquidationFiguresOf(selected),
                        LiquidationQuality(|selected|,
                                           Truncated(WindowStart(observation, w), EarliestTime(events), dropped)))
  }

  /** One report per label; equal labels carry equal windows. */
  ghost predicate Reports<F>(reports: map<string, F>, windows: seq<AnalyticsWindow>, report: AnalyticsWindow -> F) {
    && (forall i :: 0 <= i < |windows| ==> windows[i].name in reports && reports[windows[i].name] == report(windows[i]))
    && (forall name :: name in reports ==> exists w :: w in windows && w.name == name)
  }

  lemma MoreReports<F>(reports: map<string, F>, windows: seq<AnalyticsWindow>, report: AnalyticsWindow -> F, i: nat)
    requires i < |windows| && LabelsAgree(windows) && Reports(reports, windows[..i], report)
    ensures Reports(reports[windows[i].name := report(windows[i])], windows[..i + 1], report)
  {
    var more, w := reports[windows[i].name := report(windows[i])], windows[i];
    forall j | 0 <= j < i + 1
      ensures windows[j].name in more && more[windows[j].name] == report(windows[j])
    {
      if j < i {
        assert windows[..i][j] == windows[j];
        if windows[j].name == w.name {
          assert windows[j] == w;
        }
      }
    }
    forall name | name in more
      ensures exists o :: o in windows[..i + 1] && o.name == name
    {
      if name == w.name {
        assert w in windows[..i + 1];
      } else {
        var o :| o in windows[..i] && o.name == name;
        assert o in windows[..i + 1];
      }
    }
  }

  ghost function TakerReporter(trades: seq<FlowEvent>, observation: int, dropped: nat): AnalyticsWindow -> TakerFeatures {
    (w: AnalyticsWindow) =>
      if ValidWindow(w) then TakerReport(trades, observation, w, dropped)
      else TakerFeatures(w, 0, 0, TakerFigures(0.0, 0.0, 0.0, 0.0, None, None, 0.0, 0), 0.0, None, Unavailable)
  }

  ghost function LiquidationReporter(events: seq<FlowEvent>, observation: int, dropped: nat):
    AnalyticsWindow -> LiquidationFeatures
  {
    (w: AnalyticsWindow) =>
      if ValidWindow(w) then LiquidationReport(events, observation, w, dropped)
      else LiquidationFeatures(w, 0, 0, LiquidationFigures(0.0, 0.0, 0.0, 0.0, 0, 0, 0, None, None), Unavailable)
  }

  method ComputeTakerFlowFeatures(trades: seq<FlowEvent>, windows: seq<AnalyticsWindow>, observation: int, dropped: nat)
    returns (r: Result<map<string, TakerFeatures>, FlowFault>)
    requires forall w :: w in windows ==> ValidWindow(w)
    ensures r.Success? <==> LabelsAgree(windows)
    ensures r.Success? ==> Reports(r.value, windows, TakerReporter(trades, observation, dropped))
  {
    var labels := ValidateUniqueLabels(windows);
    if labels.Failure? {
      return Failure(labels.error);
    }
    var relevant := Filter(trades, SeenBy(observation));
    var earliest := EarliestTime(trades);
    var cumulative := Sum(relevant, SignedQuantity);
    var since := EarliestTime(relevant);
    var result: map<string, TakerFeatures> := map[];
    for i := 0 to |windows|
      invariant Reports(result, windows[..i], TakerReporter(trades, observation, dropped))
    {
      var w := windows[i];
      assert w in windows;
      SeenSuffices(trades, observation, w);
      var selected := SelectWindow(relevant, observation, w);
      var start := WindowStart(observation, w);
      var features := TakerFeatures(w, start, WindowEnd(observation, w), TakerFiguresOf(selected, w), cumulative, since,
                                    TakerQuality(|selected|, Truncated(start, earliest, dropped)));
      MoreReports(result, windows, TakerReporter(trades, observation, dropped), i);
      result := result[w.name := features];
    }
    assert windows[..|windows|] == windows;
    return Success(result);
  }

  method ComputeLiquidationFeatures(events: seq<FlowEvent>, windows: seq<AnalyticsWindow>, observation: int, dropped: nat)
    returns (r: Result<map<string, LiquidationFeatures>, FlowFault>)
    requires forall w :: w in windows ==> ValidWindow(w)
    ensures r.Success? <==> LabelsAgree(windows)
    ensures r.Success? ==> Reports(r.value, windows, LiquidationReporter(events, observation, dropped))
  {
    var labels := ValidateUniqueLabels(windows);
    if labels.Failure? {
      return Failure(labels.error);
    }
    var relevant := Filter(events, SeenBy(observation));
    var earliest := EarliestTime(events);
    var result: map<string, LiquidationFeatures> := map[];
    for i := 0 to |windows|
      invariant Reports(result, windows[..i], LiquidationReporter(events, observation, dropped))
    {
      var w := windows[i];
      assert w in windows;
      SeenSuffices(events, observation, w);
      var selected := SelectWindow(relevant, observation, w);
      var start := WindowStart(observation, w);
      var features := LiquidationFeatures(w, start, WindowEnd(observation, w), LiquidationFiguresOf(selected),
                                          LiquidationQuality(|selected|, Truncated(start, earliest, dropped)));
      MoreReports(result, windows, LiquidationReporter(events, observation, dropped), i);
      result := result[w.name := features];
    }
    assert windows[..|windows|] == windows;
    return Success(result);
  }

  // ---- agreement with the full stream ----------------------------------------------------

  /** Recorded in time order, a window reported VALID carries exactly the figures of
      the full stream. */
  lemma ValidMeansExact(stream: seq<FlowEvent>, dropped: nat, maxlen: nat, observation: int, w: AnalyticsWindow)
    requires ValidWindow(w) && maxlen >= 1 && dropped <= |stream|
    requires Retains(stream[dropped..], dropped, maxlen, stream) && TimeOrdered(stream)
    ensures var r := TakerReport(stream[dropped..], observation, w, dropped);
            r.quality.ValidFigures? ==> r.figures == TakerFiguresOf(SelectWindow(stream, observation, w), w)
    ensures var r := LiquidationReport(stream[dropped..], observation, w, dropped);
            r.quality.ValidFigures? ==> r.figures == LiquidationFiguresOf(SelectWindow(stream, observation, w))
  {
    if !Truncated(WindowStart(observation, w), EarliestTime(stream[dropped..]), dropped) {
      UntruncatedIsComplete(stream, dropped, observation, w);
    }
  }

  /** In any arrival order the counts alone decide: a reported count equals the full
      stream's exactly when no evicted event belongs to the window. */
  lemma CountExactIffNothingEvicted(stream: seq<FlowEvent>, dropped: nat, observation: int, w: AnalyticsWindow)
    requires ValidWindow(w) && dropped <= |stream|
    ensures TakerReport(stream[dropped..], observation, w, dropped).figures.count
            == |SelectWindow(stream, observation, w)| <==>
            forall e :: e in stream[..dropped] ==> !InWindow(WindowStart(observation, w), WindowEnd(observation, w))(e)
  {
    var keep := InWindow(WindowStart(observation, w), WindowEnd(observation, w));
    CompleteIffNothingEvicted(stream, dropped, observation, w);
    assert stream == stream[..dropped] + stream[dropped..];
    FilterAppend(stream[..dropped], stream[dropped..], keep);
    if |Filter(stream[..dropped], keep)| == 0 {
      assert [] + Filter(stream[dropped..], keep) == Filter(stream[dropped..], keep);
    }
  }

  lemma SelectThree(first: FlowEvent, second: FlowEvent, late: FlowEvent, keep: FlowEvent -> bool)
    requires keep(first) && keep(second) && !keep(late)
    ensures Filter([second, late], keep) == [second]
    ensures Filter([first, second, late], keep) == [first, second]
  {
    var retained := [second, late];
    assert retained == [second] + [late] && [first, second, late] == [first] + retained;
    FilterAppend([second], [late], keep);
    FilterAppend([first], retained, keep);
    FilterOne(second, keep);
    FilterOne(late, keep);
    FilterOne(first, keep);
  }

  /** Time order matters. A two-item buffer fed two events of the window and then one
      from before it evicts the first, still holds an item older than the window, and
      so calls the window VALID. */
  lemma LateArrivalHidesEviction(first: FlowEvent, second: FlowEvent, late: FlowEvent, observation: int, w: AnalyticsWindow)
    requires ValidWindow(w)
    requires var inside := InWindow(WindowStart(observation, w), WindowEnd(observation, w)); inside(first) && inside(second)
    requires late.time <= WindowStart(observation, w)
    ensures var stream := [first, second, late];
            && Retains([second, late], 1, 2, stream)
            && TakerReport([second, late], observation, w, 1).quality == ValidFigures(1)
            && |SelectWindow(stream, observation, w)| == 2
  {
    var retained := [second, late];
    assert [first, second, late][1..] == retained;
    SelectThree(first, second, late, InWindow(WindowStart(observation, w), WindowEnd(observation, w)));
    EarliestIsLeast(retained);
    assert late in retained;
  }

  // ---- what the figures mean ------------------------------------------------------------

  lemma {:induction false} VolumeNonnegative(events: seq<FlowEvent>)
    ensures Sum(events, QuantityOf) >= 0.0
    ensures Largest(events).None? <==> events == []
    ensures events != [] ==>
              && (exists e :: e in events && e.quantity == Largest(events).value)
              && (forall e :: e in events ==> e.quantity <= Largest(events).value)
  {
    if events != [] {
      var init, last := events[..|events| - 1], events[|events| - 1];
      VolumeNonnegative(init);
      assert last in events;
    }
  }

  lemma {:induction false} SidesAddUp(events: seq<FlowEvent>)
    ensures SideVolume(events, BuySide) + SideVolume(events, SellSide) == Sum(events, QuantityOf)
    ensures SideVolume(events, BuySide) - SideVolume(events, SellSide) == Sum(events, SignedQuantity)
    ensures |Filter(events, OnSide(BuySide))| + |Filter(events, OnSide(SellSide))| == |events|
  {
    if events != [] {
      var init, last := events[..|events| - 1], events[|events| - 1];
      SidesAddUp(init);
      AppendedVolume(init, last, BuySide);
      AppendedVolume(init, last, SellSide);
      assert events == init + [last];
    }
  }

  lemma AppendedVolume(init: seq<FlowEvent>, last: FlowEvent, side: Side)
    ensures SideVolume(init + [last], side) == SideVolume(init, side) + if last.side == side then last.quantity else 0.0
    ensures |Filter(init + [last], OnSide(side))| == |Filter(init, OnSide(side))| + if last.side == side then 1 else 0
  {
    var kept := Filter(init, OnSide(side));
    FilterAppend(init, [last], OnSide(side));
    FilterOne(last, OnSide(side));
    if last.side == side {
      assert (kept + [last])[..|kept|] == kept;
    } else {
      assert kept + [] == kept;
    }
  }

  /** Volume is conserved between sides, the delta is the signed sum, and the ratios
      are shares, present exactly when there is volume. */
  lemma TakerFiguresAddUp(selected: seq<FlowEvent>, w: AnalyticsWindow)
    requires ValidWindow(w)
    ensures var f := TakerFiguresOf(selected, w);
            && f.totalVolume == Sum(selected, QuantityOf)
            && f.delta == Sum(selected, SignedQuantity)
            && -f.totalVolume <= f.delta <= f.totalVolume
            && (f.buyRatio.Some? <==> f.sellRatio.Some?) && (f.buyRatio.Some? <==> f.totalVolume > 0.0)
            && (f.buyRatio.Some? ==> 0.0 <= f.buyRatio.value <= 1.0 && 0.0 <= f.sellRatio.value <= 1.0)
  {
    SidesAddUp(selected);
    VolumeNonnegative(Filter(selected, OnSide(BuySide)));
    VolumeNonnegative(Filter(selected, OnSide(SellSide)));
    var buy, sell := SideVolume(selected, BuySide), SideVolume(selected, SellSide);
    var f := TakerFiguresOf(selected, w);
    assert f.buyVolume == buy && f.sellVolume == sell && f.totalVolume == buy + sell && f.delta == buy - sell;
    if f.buyRatio.Some? {
      ShareWithin(buy, f.totalVolume, f.buyRatio.value);
    }
  }

  lemma ShareWithin(part: real, total: real, share: real)
    requires 0.0 <= part <= total && total > 0.0 && share == part / total
    ensures 0.0 <= share <= 1.0
  {
    QuotientAtLeast(part, total, 0.0, 0.0);
    QuotientAtMost(part, total, 1.0, total);
  }

  /** Every liquidation is on exactly one side, and the average lies between zero and
      the largest. */
  lemma LiquidationFiguresAddUp(selected: seq<FlowEvent>)
    ensures var f := LiquidationFiguresOf(selected);
            && f.totalVolume == Sum(selected, QuantityOf)
            && f.countLong + f.countShort == f.count
            && (f.average.Some? <==> f.count > 0)
            && (f.average.Some? ==> f.largest.Some? && 0.0 <= f.average.value <= f.largest.value)
  {
    SidesAddUp(selected);
    VolumeNonnegative(selected);
    var f := LiquidationFiguresOf(selected);
    assert f.totalVolume == f.longVolume + f.shortVolume == Sum(selected, QuantityOf);
    if selected != [] {
      AverageWithin(selected, f.totalVolume, f.average.value, f.largest.value);
    }
  }

  lemma AverageWithin(events: seq<FlowEvent>, total: real, average: real, most: real)
    requires events != [] && total == Sum(events, QuantityOf) && average == total / |events| as real
    requires forall e :: e in events ==> e.quantity <= most
    ensures 0.0 <= average <= most
  {
    VolumeNonnegative(events);
    var count := |events| as real;
    var bound := VolumeBound(events, most, count);
    QuotientAtLeast(total, count, 0.0, 0.0);
    QuotientAtMost(total, count, most, bound);
  }

  lemma {:induction false} VolumeBound(events: seq<FlowEvent>, most: real, count: real) returns (bound: real)
    requires forall e :: e in events ==> e.quantity <= most
    requires count == |events| as real
    ensures bound == most * count && Sum(events, QuantityOf) <= bound
  {
    bound := most * count;
    if events != [] {
      var n := |events| - 1;
      assert events[n] in events;
      var earlier := VolumeBound(events[..n], most, count - 1.0);
      OneMore(most, count, bound, earlier);
    }
  }

  lemma OneMore(most: real, count: real, bound: real, earlier: real)
    requires bound == most * count && earlier == most * (count - 1.0)
    ensures bound == earlier + most
  {
  }

  // ---- by the events' own fields --------------------------------------------------------

  function QuantityIf(forced: Side): FlowEvent -> real {
    (e: FlowEvent) => if e.side == forced then e.quantity else 0.0
  }

  lemma SideVolumeIs(events: seq<FlowEvent>, side: Side)
    ensures SideVolume(events, side) == Sum(events, QuantityIf(side))
  {
    SumFilter(events, OnSide(side), QuantityOf, QuantityIf(side));
  }

  /** A forced SELL is a long being liquidated, a forced BUY a short: each volume and
      count is of the events of that side, and the imbalance is long less short. */
  lemma LiquidationsBySide(selected: seq<FlowEvent>)
    ensures var f := LiquidationFiguresOf(selected);
            && f.longVolume == Sum(selected, QuantityIf(SellSide)) && f.shortVolume == Sum(selected, QuantityIf(BuySide))
            && f.countLong == |Filter(selected, OnSide(SellSide))| && f.countShort == |Filter(selected, OnSide(BuySide))|
            && f.count == |selected|
            && f.imbalance == f.longVolume - f.shortVolume
            && (f.largest.Some? <==> selected != [])
            && (f.largest.Some? ==>
                  && (exists e :: e in selected && e.quantity == f.largest.value)
                  && forall e :: e in selected ==> e.quantity <= f.largest.value)
  {
    SideVolumeIs(selected, SellSide);
    SideVolumeIs(selected, BuySide);
    VolumeNonnegative(selected);
  }

  /** The average spreads the total over all events. */
  lemma AverageSpreads(selected: seq<FlowEvent>, count: real, average: real, product: real)
    requires selected != [] && count == |selected| as real && LiquidationFiguresOf(selected).average == Some(average)
    requires product == average * count
    ensures product == Sum(selected, QuantityOf)
  {
    SidesAddUp(selected);
    var total := SideVolume(selected, SellSide) + SideVolume(selected, BuySide);
    assert average == total / count;
    SpreadOver(total, count, average, product);
  }

  lemma SpreadOver(total: real, count: real, average: real, product: real)
    requires count > 0.0 && average == total / count && product == average * count
    ensures product == total
  {
  }

  /** Taker figures by side. */
  lemma TakersBySide(selected: seq<FlowEvent>, w: AnalyticsWindow)
    requires ValidWindow(w)
    ensures var f := TakerFiguresOf(selected, w);
            && f.buyVolume == Sum(selected, QuantityIf(BuySide)) && f.sellVolume == Sum(selected, QuantityIf(SellSide))
            && f.totalVolume == f.buyVolume + f.sellVolume && f.delta == f.buyVolume - f.sellVolume
            && f.count == |selected|
  {
    SideVolumeIs(selected, SellSide);
    SideVolumeIs(selected, BuySide);
  }

  /** The buy share is of the total, the sell share the rest. */
  lemma TakerShares(selected: seq<FlowEvent>, w: AnalyticsWindow, share: real, rest: real)
    requires ValidWindow(w)
    requires var f := TakerFiguresOf(selected, w); f.buyRatio == Some(share) && f.sellRatio == Some(rest)
    ensures share * TakerFiguresOf(selected, w).totalVolume == TakerFiguresOf(selected, w).buyVolume
    ensures share + rest == 1.0
  {
    var buy, total := TakerFiguresOf(selected, w).buyVolume, TakerFiguresOf(selected, w).totalVolume;
    assert share == buy / total;
    QuotientTimes(buy, total);
  }

  /** The rate is the delta per second of the window. */
  lemma TakerRate(selected: seq<FlowEvent>, w: AnalyticsWindow, rate: real, delta: real, duration: real)
    requires ValidWindow(w) && duration == w.duration as real
    requires var f := TakerFiguresOf(selected, w); rate == f.deltaRate && delta == f.delta
    ensures rate * duration == delta * 1_000_000.0
  {
    var seconds := Seconds(w);
    assert rate == delta / seconds;
    PerSecond(delta, duration, seconds, rate);
  }

  lemma PerSecond(delta: real, duration: real, seconds: real, rate: real)
    requires duration > 0.0 && seconds == duration / 1_000_000.0 && rate == delta / seconds
    ensures rate * duration == delta * 1_000_000.0
  {
    assert duration == seconds * 1_000_000.0;
    QuotientTimes(delta, seconds);
    assert rate * duration == (rate * seconds) * 1_000_000.0;
  }

  /** Something was evicted, and nothing retained reaches back to the window's start. */
  ghost predicate MayMissEvents(retained: seq<FlowEvent>, start: int, dropped: nat) {
    dropped > 0 && retained != [] && forall e :: e in retained ==> e.time > start
  }

  /** What a window is called: PARTIAL exactly when it may miss events, VALID otherwise,
      except that without a trade a taker window is UNAVAILABLE. With nothing evicted no
      window is PARTIAL. */
  lemma QualityIff(events: seq<FlowEvent>, observation: int, w: AnalyticsWindow, dropped: nat)
    requires ValidWindow(w)
    ensures var count, missing := |SelectWindow(events, observation, w)|,
                                  MayMissEvents(events, WindowStart(observation, w), dropped);
            && TakerReport(events, observation, w, dropped).quality
               == (if count == 0 then Unavailable else if missing then PartialFigures(count) else ValidFigures(count))
            && LiquidationReport(events, observation, w, dropped).quality
               == (if missing then PartialFigures(count) else ValidFigures(count))
            && (dropped == 0 ==> !missing)
  {
    EarliestIsLeast(events);
  }

  /** The running figures of a taker report: the signed sum of what was seen by the
      observation, since the earliest of it. */
  lemma CumulativeIs(trades: seq<FlowEvent>, observation: int, w: AnalyticsWindow, dropped: nat)
    requires ValidWindow(w)
    ensures var r, seen := TakerReport(trades, observation, w, dropped), Filter(trades, SeenBy(observation));
            && r.cumulativeDelta == Sum(seen, QuantityIf(BuySide)) - Sum(seen, QuantityIf(SellSide))
            && (r.cumulativeSince.None? <==> forall e :: e in trades ==> e.time > observation)
            && (r.cumulativeSince.Some? ==>
                  && (exists e :: e in trades && e.time == r.cumulativeSince.value <= observation)
                  && forall e :: e in trades && e.time <= observation ==> r.cumulativeSince.value <= e.time)
            && r.window == w && r.start == r.end - w.duration
  {
    var seen := Filter(trades, SeenBy(observation));
    FilterMembers(trades, SeenBy(observation));
    EarliestIsLeast(seen);
    SidesAddUp(seen);
    SideVolumeIs(seen, BuySide);
    SideVolumeIs(seen, SellSide);
    if seen != [] {
      assert seen[0] in seen;
    }
  }

  /** What a window selects: the events after its start up to and including its end, in
      order. */
  lemma SelectedAre(events: seq<FlowEvent>, observation: int, w: AnalyticsWindow)
    requires ValidWindow(w)
    ensures forall e :: e in SelectWindow(events, observation, w) <==>
              e in events && WindowEnd(observation, w) - w.duration < e.time && e.time <= WindowEnd(observation, w)
  {
    FilterMembers(events, InWindow(WindowStart(observation, w), WindowEnd(observation, w)));
  }
}
