/** The stateful front of the flow features: one bounded history per feed, symbol and
    contract, and snapshots whose VALID windows are exact. */
module FlowEngines {
  import opened Common
  import opened BoundedBuffers
  import opened FlowWindows
  import opened FlowFeatures

  datatype Feed = TakerTrades | ForcedLiquidations

  datatype Key = Key(feed: Feed, symbol: string, contract: ContractKind)

  const RAW_CAPACITY: nat := 5000

  function UpperChar(c: char): char {
    if 'a' <= c <= 'z' then (c as int - 32) as char else c
  }

  /** ASCII upper case; symbols are exchange tickers. */
  function Upper(s: string): (r: string)
    ensures |r| == |s|
    ensures forall i :: 0 <= i < |s| ==> r[i] == UpperChar(s[i])
  {
    Map(s, UpperChar)
  }

  lemma UpperIdempotent(s: string)
    ensures Upper(Upper(s)) == Upper(s)
  {
  }

  /** The same letter, in either case. */
  predicate SameLetter(c: char, d: char) {
    || c == d
    || ('a' <= c <= 'z' && 'A' <= d <= 'Z' && c as int - 'a' as int == d as int - 'A' as int)
    || ('A' <= c <= 'Z' && 'a' <= d <= 'z' && c as int - 'A' as int == d as int - 'a' as int)
  }

  /** Two symbols share a feed exactly when they differ in case at most. */
  lemma KeysIgnoreCase(feed: Feed, a: string, b: string, contract: ContractKind)
    ensures KeyFor(feed, a, contract) == KeyFor(feed, b, contract) <==>
            |a| == |b| && forall i :: 0 <= i < |a| ==> SameLetter(a[i], b[i])
  {
    var upperA, upperB := Upper(a), Upper(b);
    forall c: char, d: char
      ensures UpperChar(c) == UpperChar(d) <==> SameLetter(c, d)
    {
    }
    if |a| == |b| && forall i :: 0 <= i < |a| ==> SameLetter(a[i], b[i]) {
      assert forall i :: 0 <= i < |a| ==> upperA[i] == upperB[i];
      assert upperA == upperB;
    }
    if upperA == upperB {
      forall i | 0 <= i < |a|
        ensures SameLetter(a[i], b[i])
      {
        assert upperA[i] == upperB[i];
      }
    }
  }

  function KeyFor(feed: Feed, symbol: string, contract: ContractKind): Key {
    Key(feed, Upper(symbol), contract)
  }

  /** What a snapshot promises in terms of everything ever recorded. */
  ghost predicate TakerExact(stream: seq<FlowEvent>, windows: seq<AnalyticsWindow>, observation: int,
                             taker: map<string, TakerFeatures>)
    requires forall w :: w in windows ==> ValidWindow(w)
  {
    && (forall w :: w in windows ==> w.name in taker)
    && (TimeOrdered(stream) ==>
          forall w :: w in windows && taker[w.name].quality.ValidFigures? ==>
            taker[w.name].figures == TakerFiguresOf(SelectWindow(stream, observation, w), w))
  }

  ghost predicate LiquidationExact(stream: seq<FlowEvent>, windows: seq<AnalyticsWindow>, observation: int,
                                   liquidation: map<string, LiquidationFeatures>)
    requires forall w :: w in windows ==> ValidWindow(w)
  {
    && (forall w :: w in windows ==> w.name in liquidation)
    && (TimeOrdered(stream) ==>
          forall w :: w in windows && liquidation[w.name].quality.ValidFigures? ==>
            liquidation[w.name].figures == LiquidationFiguresOf(SelectWindow(stream, observation, w)))
  }

  class FlowFeatureEngine {
    const windows: seq<AnalyticsWindow>
    var buffers: map<Key, BoundedBuffer<FlowEvent>>
    ghost var Repr: set<object>

    ghost predicate Valid()
      reads this, Repr
    {
      && this in Repr
      && (forall w :: w in windows ==> ValidWindow(w))
      && LabelsAgree(windows)
      && (forall k :: k in buffers ==> buffers[k] in Repr && buffers[k].Valid() && buffers[k].maxlen == RAW_CAPACITY)
      && (forall j, k :: j in buffers && k in buffers && j != k ==> buffers[j] != buffers[k])
    }

    /** Everything ever recorded under a key. */
    ghost function Recorded(key: Key): seq<FlowEvent>
      requires Valid()
      reads this, Repr
    {
      if key in buffers then buffers[key].stream else []
    }

    /** How many of them have been evicted: all but the last `RAW_CAPACITY`. */
    ghost function Evicted(key: Key): (n: nat)
      requires Valid()
      reads this, Repr
      ensures n == if |Recorded(key)| > RAW_CAPACITY then |Recorded(key)| - RAW_CAPACITY else 0
    {
      if key in buffers then buffers[key].dropped else 0
    }

    constructor (windows: seq<AnalyticsWindow>)
      requires (forall w :: w in windows ==> ValidWindow(w)) && LabelsAgree(windows)
      ensures Valid() && fresh(Repr) && this.windows == windows
      ensures forall k :: Recorded(k) == []
    {
      this.windows := windows;
      buffers := map[];
      Repr := {this};
    }

    static method Create(windows: seq<AnalyticsWindow>) returns (r: Result<FlowFeatureEngine, FlowFault>)
      requires forall w :: w in windows ==> ValidWindow(w)
      ensures r.Success? <==> LabelsAgree(windows)
      ensures r.Success? ==> fresh(r.value) && r.value.Valid() && fresh(r.value.Repr) && r.value.windows == windows
      ensures r.Success? ==> forall k :: r.value.Recorded(k) == []
    {
      var labels := ValidateUniqueLabels(windows);
      if labels.Failure? {
        return Failure(labels.error);
      }
      var engine := new FlowFeatureEngine(windows);
      return Success(engine);
    }

    /** An unseen key gets an empty history of its own. */
    method HistoryFor(key: Key) returns (buffer: BoundedBuffer<FlowEvent>)
      requires Valid()
      modifies this
      ensures Valid() && fresh(Repr - old(Repr)) && old(Repr) <= Repr
      ensures key in buffers && buffers[key] == buffer && buffer.maxlen == 5000
      ensures forall k :: Recorded(k) == old(Recorded(k))
    {
      if key in buffers {
        return buffers[key];
      }
      buffer := new BoundedBuffer(RAW_CAPACITY);
      buffers := buffers[key := buffer];
      Repr := Repr + {buffer};
    }

    method Record(feed: Feed, e: FlowEvent)
      requires Valid()
      modifies this, Repr
      ensures Valid() && fresh(Repr - old(Repr))
      ensures forall k :: Recorded(k) == old(Recorded(k)) + if k == KeyFor(feed, e.symbol, e.contract) then [e] else []
    {
      var buffer := HistoryFor(KeyFor(feed, e.symbol, e.contract));
      buffer.Append(e);
    }

    method RecordTrade(trade: FlowEvent)
      requires Valid()
      modifies this, Repr
      ensures Valid() && fresh(Repr - old(Repr))
      ensures forall k :: Recorded(k) == old(Recorded(k)) +
                          if k == KeyFor(TakerTrades, trade.symbol, trade.contract) then [trade] else []
    {
      Record(TakerTrades, trade);
    }

    method RecordLiquidation(event: FlowEvent)
      requires Valid()
      modifies this, Repr
      ensures Valid() && fresh(Repr - old(Repr))
      ensures forall k :: Recorded(k) == old(Recorded(k)) +
                          if k == KeyFor(ForcedLiquidations, event.symbol, event.contract) then [event] else []
    {
      Record(ForcedLiquidations, event);
    }

    /** A snapshot loses and records nothing; it reports on what is retained, and whenever a feed was recorded in time
        order its VALID windows carry the figures of everything ever recorded. */
    method BuildSnapshot(symbol: string, contract: ContractKind, observation: int)
      returns (taker: map<string, TakerFeatures>, liquidation: map<string, LiquidationFeatures>)
      requires Valid()
      modifies this
      ensures Valid() && fresh(Repr - old(Repr))
      ensures forall k :: Recorded(k) == old(Recorded(k))
      ensures var key := KeyFor(TakerTrades, symbol, contract);
              Reports(taker, windows, TakerReporter(Recorded(key)[Evicted(key)..], observation, Evicted(key)))
      ensures var key := KeyFor(ForcedLiquidations, symbol, contract);
              Reports(liquidation, windows, LiquidationReporter(Recorded(key)[Evicted(key)..], observation, Evicted(key)))
      ensures TakerExact(Recorded(KeyFor(TakerTrades, symbol, contract)), windows, observation, taker)
      ensures LiquidationExact(Recorded(KeyFor(ForcedLiquidations, symbol, contract)), windows, observation, liquidation)
    {
      var upper := Upper(symbol);
      UpperIdempotent(symbol);
      var trades := HistoryFor(KeyFor(TakerTrades, upper, contract));
      var liquidations := HistoryFor(KeyFor(ForcedLiquidations, upper, contract));
      var takerResult := ComputeTakerFlowFeatures(trades.items, windows, observation, trades.dropped);
      var liquidationResult := ComputeLiquidationFeatures(liquidations.items, windows, observation, liquidations.dropped);
      taker, liquidation := takerResult.value, liquidationResult.value;
      TakerSnapshotExact(trades.stream, trades.dropped, trades.maxlen, windows, observation, taker);
      LiquidationSnapshotExact(liquidations.stream, liquidations.dropped, liquidations.maxlen, windows, observation,
                               liquidation);
    }
  }

  lemma TakerSnapshotExact(stream: seq<FlowEvent>, dropped: nat, maxlen: nat, windows: seq<AnalyticsWindow>,
                           observation: int, taker: map<string, TakerFeatures>)
    requires maxlen >= 1 && dropped <= |stream| && Retains(stream[dropped..], dropped, maxlen, stream)
    requires forall w :: w in windows ==> ValidWindow(w)
    requires Reports(taker, windows, TakerReporter(stream[dropped..], observation, dropped))
    ensures TakerExact(stream, windows, observation, taker)
  {
    forall w | w in windows
      ensures w.name in taker && taker[w.name] == TakerReport(stream[dropped..], observation, w, dropped)
    {
      var i :| 0 <= i < |windows| && windows[i] == w;
    }
    if TimeOrdered(stream) {
      forall w | w in windows
        ensures taker[w.name].quality.ValidFigures? ==>
                  taker[w.name].figures == TakerFiguresOf(SelectWindow(stream, observation, w), w)
      {
        ValidMeansExact(stream, dropped, maxlen, observation, w);
      }
    }
  }

  lemma LiquidationSnapshotExact(stream: seq<FlowEvent>, dropped: nat, maxlen: nat, windows: seq<AnalyticsWindow>,
                                 observation: int, liquidation: map<string, LiquidationFeatures>)
    requires maxlen >= 1 && dropped <= |stream| && Retains(stream[dropped..], dropped, maxlen, stream)
    requires forall w :: w in windows ==> ValidWindow(w)
    requires Reports(liquidation, windows, LiquidationReporter(stream[dropped..], observation, dropped))
    ensures LiquidationExact(stream, windows, observation, liquidation)
  {
    forall w | w in windows
      ensures w.name in liquidation &&
              liquidation[w.name] == LiquidationReport(stream[dropped..], observation, w, dropped)
    {
      var i :| 0 <= i < |windows| && windows[i] == w;
    }
    if TimeOrdered(stream) {
      forall w | w in windows
        ensures liquidation[w.name].quality.ValidFigures? ==>
                  liquidation[w.name].figures == LiquidationFiguresOf(SelectWindow(stream, observation, w))
      {
        ValidMeansExact(stream, dropped, maxlen, observation, w);
      }
    }
  }
}
