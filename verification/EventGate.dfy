/** The high-impact event gate: how scheduled events block or warn a setup, when a
    blocked setup becomes safe, and what a block does to the risk gate. */
module EventGate {
  import opened Common
  import opened SetupConstruction
  import opened Strategies
  import RiskBudget

  datatype Importance = NoImportance | LowImportance | Moderate | High

  /** Canonical codes: hard-block, warn-only, and any other text. */
  datatype EventCode =
    | Fomc | UsCpi | UsCoreCpi | UsPce | UsCorePce | UsNfp | UsUnemployment
    | EcbRateDecision | EurozoneCpi | BoeRateDecision | UkCpi | BojRateDecision
    | EiaCrudeInventories
    | UsGdp | UsIsm | UsMajorPmi
    | OtherCode(text: string)

  datatype ScopeTag = Usd | Eur | Gbp | Jpy

  datatype EventRecord = EventRecord(code: EventCode, importance: Importance, time: int, providerId: nat)

  datatype EventVerdict = Allowed | Warned | Blocked

  /** Whom an evaluation is for: the symbol, its scope tags, and the caller's symbol
      lists for the codes no tag covers. */
  datatype Instrument = Instrument(symbol: string, tags: set<ScopeTag>, overrides: Option<map<EventCode, set<string>>>)

  const MINUTE: int := 60_000_000
  const BLOCK_MARGIN: int := 5 * MINUTE
  const WARN_BEFORE: int := 15 * MINUTE
  const WARN_AFTER: int := 10 * MINUTE

  predicate HardBlockCode(code: EventCode) { !WarnOnlyCode(code) && !code.OtherCode? }

  predicate WarnOnlyCode(code: EventCode) { code.UsGdp? || code.UsIsm? || code.UsMajorPmi? }

  function ScopeOf(code: EventCode): Option<ScopeTag> {
    match code
    case EcbRateDecision => Some(Eur)
    case EurozoneCpi => Some(Eur)
    case BoeRateDecision => Some(Gbp)
    case UkCpi => Some(Gbp)
    case BojRateDecision => Some(Jpy)
    case EiaCrudeInventories => None
    case OtherCode(_) => None
    case _ => Some(Usd)
  }

  /** Tags from the typed context: the listed currencies, and USD for BTC and ETH. */
  function ScopeTags(currencies: set<string>, baseAsset: string): set<ScopeTag> {
    (if "USD" in currencies || baseAsset in {"BTC", "ETH"} then {Usd} else {}) +
    (if "EUR" in currencies then {Eur} else {}) +
    (if "GBP" in currencies then {Gbp} else {}) +
    (if "JPY" in currencies then {Jpy} else {})
  }

  predicate Relevant(e: EventRecord, to: Instrument) {
    && !e.importance.NoImportance? && !e.importance.LowImportance?
    && !e.code.OtherCode?
    && if e.code.EiaCrudeInventories? then
         to.overrides.Some? && e.code in to.overrides.value && to.symbol in to.overrides.value[e.code]
       else ScopeOf(e.code).Some? && ScopeOf(e.code).value in to.tags
  }

  function TagName(tag: ScopeTag): string {
    match tag case Usd => "USD" case Eur => "EUR" case Gbp => "GBP" case Jpy => "JPY"
  }

  function InstrumentFor(symbol: string, currencies: set<string>, baseAsset: string,
                         overrides: Option<map<EventCode, set<string>>>): Instrument
  {
    Instrument(symbol, ScopeTags(currencies, baseAsset), overrides)
  }

  /** The currency whose moves an event is about. */
  predicate IsAbout(code: EventCode, currency: string) {
    || (currency == "USD" && code in {Fomc, UsCpi, UsCoreCpi, UsPce, UsCorePce, UsNfp, UsUnemployment, UsGdp, UsIsm,
                                      UsMajorPmi})
    || (currency == "EUR" && code in {EcbRateDecision, EurozoneCpi})
    || (currency == "GBP" && code in {BoeRateDecision, UkCpi})
    || (currency == "JPY" && code in {BojRateDecision})
  }

  /** Relevance read off the evaluation's own facts: an important allow-listed event
      concerns an instrument exactly when its currency is among the exposures, when it
      is a dollar event and the asset is BTC or ETH, or, for the one code without a
      currency, when the caller lists the symbol. */
  lemma RelevanceByContext(e: EventRecord, symbol: string, currencies: set<string>, baseAsset: string,
                           overrides: Option<map<EventCode, set<string>>>)
    ensures Relevant(e, InstrumentFor(symbol, currencies, baseAsset, overrides)) <==>
              && (e.importance.Moderate? || e.importance.High?)
              && (|| (exists currency :: currency in currencies && IsAbout(e.code, currency))
                  || (IsAbout(e.code, "USD") && (baseAsset == "BTC" || baseAsset == "ETH"))
                  || (e.code.EiaCrudeInventories? && overrides.Some? && e.code in overrides.value
                      && symbol in overrides.value[e.code]))
  {
    ScopeIsCurrency(e.code);
    var scope := ScopeOf(e.code);
    if scope.Some? && TagName(scope.value) in currencies {
      assert IsAbout(e.code, TagName(scope.value));
    }
  }

  lemma ScopeIsCurrency(code: EventCode)
    ensures ScopeOf(code).None? ==> forall currency :: !IsAbout(code, currency)
    ensures ScopeOf(code).Some? ==> forall currency :: IsAbout(code, currency) <==> currency == TagName(ScopeOf(code).value)
  {
    assert "USD"[0] == 'U' && "EUR"[0] == 'E' && "GBP"[0] == 'G' && "JPY"[0] == 'J';
  }

  function Rank(i: Importance): nat {
    match i case NoImportance => 0 case LowImportance => 1 case Moderate => 2 case High => 3
  }

  predicate HardBlockEligible(e: EventRecord) {
    HardBlockCode(e.code) && Rank(e.importance) >= Rank(if e.code.Fomc? then Moderate else Importance.High)
  }

  /** A common stretch of positive length. */
  predicate Overlaps(signal: int, until: int, start: int, end: int) {
    signal < end && until > start
  }

  predicate Blocks(e: EventRecord, signal: int, until: int) {
    HardBlockEligible(e) && Overlaps(signal, until, e.time - BLOCK_MARGIN, BlockEnd(e))
  }

  function BlockEnd(e: EventRecord): int { e.time + BLOCK_MARGIN }

  predicate Warns(e: EventRecord, signal: int, until: int) {
    Overlaps(signal, until, e.time - WARN_BEFORE, e.time + WARN_AFTER)
  }

  function VerdictOn(e: EventRecord, signal: int, until: int): EventVerdict {
    if Blocks(e, signal, until) then Blocked
    else if Warns(e, signal, until) then Warned
    else Allowed
  }

  /** Blocking and warning by the event's own fields: a hard-block release of HIGH
      importance, or an FOMC statement of MODERATE, blocks whatever overlaps the five
      minutes around it; any relevant event warns from fifteen minutes before it to ten
      after. */
  lemma VerdictByFields(e: EventRecord, signal: int, until: int)
    ensures var minute := 60 * 1_000_000;
            var blocks := && (e.code in {Fomc, UsCpi, UsCoreCpi, UsPce, UsCorePce, UsNfp, UsUnemployment, EcbRateDecision,
                                         EurozoneCpi, BoeRateDecision, UkCpi, BojRateDecision, EiaCrudeInventories})
                          && (e.importance.High? || (e.code.Fomc? && e.importance.Moderate?))
                          && signal < e.time + 5 * minute && e.time - 5 * minute < until;
            && (VerdictOn(e, signal, until).Blocked? <==> blocks)
            && (VerdictOn(e, signal, until).Warned? <==>
                  !blocks && signal < e.time + 10 * minute && e.time - 15 * minute < until)
            && BlockEnd(e) == e.time + 5 * minute
  {
    assert WarnOnlyCode(e.code) <==> e.code in {UsGdp, UsIsm, UsMajorPmi};
    KnownOrOther(e.code);
  }

  lemma KnownOrOther(code: EventCode)
    ensures code.OtherCode? <==>
            code !in {Fomc, UsCpi, UsCoreCpi, UsPce, UsCorePce, UsNfp, UsUnemployment, EcbRateDecision, EurozoneCpi,
                      BoeRateDecision, UkCpi, BojRateDecision, EiaCrudeInventories, UsGdp, UsIsm, UsMajorPmi}
  {
    match code case OtherCode(_) => {} case _ => {}
  }

  function Severity(v: EventVerdict): nat {
    match v case Allowed => 0 case Warned => 1 case Blocked => 2
  }

  // ---- one family ------------------------------------------------------------------

  predicate NotAfter(a: EventRecord, b: EventRecord) {
    a.time < b.time || (a.time == b.time && a.providerId <= b.providerId)
  }

  function InsertEvent(sorted: seq<EventRecord>, e: EventRecord): (r: seq<EventRecord>)
    ensures multiset(r) == multiset(sorted) + multiset{e}
  {
    if sorted == [] || NotAfter(sorted[|sorted| - 1], e) then sorted + [e]
    else
      assert sorted == sorted[..|sorted| - 1] + [sorted[|sorted| - 1]];
      InsertEvent(sorted[..|sorted| - 1], e) + [sorted[|sorted| - 1]]
  }

  function SortEvents(events: seq<EventRecord>): (r: seq<EventRecord>)
    ensures multiset(r) == multiset(events)
  {
    if events == [] then []
    else
      assert events == events[..|events| - 1] + [events[|events| - 1]];
      InsertEvent(SortEvents(events[..|events| - 1]), events[|events| - 1])
  }

  /** Ascending by time, then by provider id. */
  ghost predicate InOrder(events: seq<EventRecord>) {
    forall i, j :: 0 <= i < j < |events| ==>
      events[i].time < events[j].time || (events[i].time == events[j].time && events[i].providerId <= events[j].providerId)
  }

  lemma InsertedMembers(sorted: seq<EventRecord>, e: EventRecord, o: EventRecord)
    ensures o in InsertEvent(sorted, e) <==> o in sorted || o == e
  {
    assert o in InsertEvent(sorted, e) <==> o in multiset(InsertEvent(sorted, e));
    assert o in sorted <==> o in multiset(sorted);
  }

  lemma {:induction false} InsertKeepsOrder(sorted: seq<EventRecord>, e: EventRecord)
    requires InOrder(sorted)
    ensures InOrder(InsertEvent(sorted, e))
  {
    if sorted != [] && !NotAfter(sorted[|sorted| - 1], e) {
      var init, last := sorted[..|sorted| - 1], sorted[|sorted| - 1];
      var inserted := InsertEvent(init, e);
      InsertKeepsOrder(init, e);
      forall k | 0 <= k < |inserted|
        ensures inserted[k].time < last.time || (inserted[k].time == last.time && inserted[k].providerId <= last.providerId)
      {
        InsertedMembers(init, e, inserted[k]);
        if inserted[k] != e {
          var i :| 0 <= i < |init| && init[i] == inserted[k];
          assert sorted[i] == init[i];
        }
      }
    }
  }

  /** The events a family's result lists are the relevant ones in order of time. */
  lemma {:induction false} SortOrders(events: seq<EventRecord>)
    ensures InOrder(SortEvents(events))
  {
    if events != [] {
      SortOrders(events[..|events| - 1]);
      InsertKeepsOrder(SortEvents(events[..|events| - 1]), events[|events| - 1]);
    }
  }

  function RelevantTo(to: Instrument): EventRecord -> bool {
    (e: EventRecord) => Relevant(e, to)
  }

  function RelevantEvents(events: seq<EventRecord>, to: Instrument): seq<EventRecord> {
    SortEvents(Filter(events, RelevantTo(to)))
  }

  lemma RelevantMembers(events: seq<EventRecord>, to: Instrument)
    ensures forall e :: e in RelevantEvents(events, to) <==> e in events && Relevant(e, to)
  {
    FilterMembers(events, RelevantTo(to));
    PermutationMembers(RelevantEvents(events, to), Filter(events, RelevantTo(to)));
  }

  datatype GateResult = GateResult(verdict: EventVerdict, nextSafe: Option<int>, relevant: seq<EventRecord>)

  /** The verdict is the greatest severity any of the events asks for. */
  ghost predicate IsWorst(v: EventVerdict, events: seq<EventRecord>, signal: int, until: int) {
    && (forall e :: e in events ==> Severity(VerdictOn(e, signal, until)) <= Severity(v))
    && (v.Allowed? || exists e :: e in events && VerdictOn(e, signal, until) == v)
  }

  /** The end of the last blocking window. */
  ghost predicate IsLastBlockEnd(t: int, events: seq<EventRecord>, signal: int, until: int) {
    && (forall e :: e in events && Blocks(e, signal, until) ==> BlockEnd(e) <= t)
    && (exists e :: e in events && Blocks(e, signal, until) && BlockEnd(e) == t)
  }

  ghost predicate GateSays(r: GateResult, events: seq<EventRecord>, to: Instrument, signal: int, until: int) {
    && r.relevant == RelevantEvents(events, to)
    && IsWorst(r.verdict, r.relevant, signal, until)
    && (r.verdict.Blocked? <==> r.nextSafe.Some?)
    && (r.nextSafe.Some? ==> IsLastBlockEnd(r.nextSafe.value, r.relevant, signal, until))
  }

  ghost predicate GateSoFar(worst: EventVerdict, last: Option<int>, events: seq<EventRecord>, signal: int, until: int) {
    && IsWorst(worst, events, signal, until)
    && (worst.Blocked? <==> last.Some?)
    && (last.Some? ==> IsLastBlockEnd(last.value, events, signal, until))
  }

  function Worse(worst: EventVerdict, verdict: EventVerdict): EventVerdict {
    if Severity(verdict) > Severity(worst) then verdict else worst
  }

  function LaterEnd(last: Option<int>, end: int): Option<int> {
    Some(if last.Some? && last.value >= end then last.value else end)
  }

  lemma OneMoreEvent(events: seq<EventRecord>, e: EventRecord, worst: EventVerdict, last: Option<int>, signal: int, until: int)
    requires GateSoFar(worst, last, events, signal, until)
    ensures var verdict := VerdictOn(e, signal, until);
            GateSoFar(Worse(worst, verdict), if verdict.Blocked? then LaterEnd(last, BlockEnd(e)) else last,
                      events + [e], signal, until)
  {
    var more := events + [e];
    assert e in more && forall o :: o in more <==> o in events || o == e;
    if last.None? {
      forall o | o in events
        ensures !Blocks(o, signal, until)
      {
        assert Severity(VerdictOn(o, signal, until)) <= Severity(worst);
      }
    }
  }

  method EvaluateFamily(events: seq<EventRecord>, to: Instrument, signal: int, until: int) returns (r: GateResult)
    ensures GateSays(r, events, to, signal, until)
  {
    var relevant := RelevantEvents(events, to);
    var worst := Allowed;
    var last: Option<int> := None;
    for i := 0 to |relevant|
      invariant GateSoFar(worst, last, relevant[..i], signal, until)
    {
      var e := relevant[i];
      ghost var done := relevant[..i];
      assert relevant[..i + 1] == done + [e];
      OneMoreEvent(done, e, worst, last, signal, until);
      var verdict := VerdictOn(e, signal, until);
      if Severity(verdict) > Severity(worst) {
        worst := verdict;
      }
      if verdict.Blocked? {
        last := LaterEnd(last, BlockEnd(e));
      }
    }
    assert relevant[..|relevant|] == relevant;
    r := GateResult(worst, last, relevant);
    GateConcludes(r, events, to, signal, until);
  }

  lemma GateConcludes(r: GateResult, events: seq<EventRecord>, to: Instrument, signal: int, until: int)
    requires r.relevant == RelevantEvents(events, to)
    requires GateSoFar(r.verdict, r.nextSafe, r.relevant, signal, until)
    ensures GateSays(r, events, to, signal, until)
  {
  }

  // ---- what the gate says ---------------------------------------------------------------

  /** More events never lower the verdict or bring the time of safety forward. */
  lemma MoreEventsNeverLower(a: GateResult, b: GateResult, events: seq<EventRecord>, more: seq<EventRecord>,
                             to: Instrument, signal: int, until: int)
    requires forall e :: e in events ==> e in more
    requires GateSays(a, events, to, signal, until) && GateSays(b, more, to, signal, until)
    ensures Severity(a.verdict) <= Severity(b.verdict)
    ensures a.nextSafe.Some? ==> b.nextSafe.Some? && a.nextSafe.value <= b.nextSafe.value
  {
    RelevantMembers(events, to);
    RelevantMembers(more, to);
  }

  /** Two results for the same events in any order agree on the verdict and on the time
      of safety. */
  lemma EventOrderIrrelevant(a: GateResult, b: GateResult, events: seq<EventRecord>, reordered: seq<EventRecord>,
                             to: Instrument, signal: int, until: int)
    requires multiset(events) == multiset(reordered)
    requires GateSays(a, events, to, signal, until) && GateSays(b, reordered, to, signal, until)
    ensures a.verdict == b.verdict && a.nextSafe == b.nextSafe && multiset(a.relevant) == multiset(b.relevant)
  {
    FilterPermutation(events, reordered, RelevantTo(to));
    PermutationMembers(events, reordered);
    MoreEventsNeverLower(a, b, events, reordered, to, signal, until);
    MoreEventsNeverLower(b, a, reordered, events, to, signal, until);
  }

  /** Blocked, warned and allowed, each exactly. */
  lemma GateVerdictIff(r: GateResult, events: seq<EventRecord>, to: Instrument, signal: int, until: int)
    requires GateSays(r, events, to, signal, until)
    ensures r.verdict.Blocked? <==> exists e :: e in events && Relevant(e, to) && Blocks(e, signal, until)
    ensures r.verdict.Allowed? <==>
            forall e :: e in events && Relevant(e, to) ==> !Blocks(e, signal, until) && !Warns(e, signal, until)
  {
    RelevantMembers(events, to);
    if e :| e in events && Relevant(e, to) && Blocks(e, signal, until) {
      assert e in r.relevant && VerdictOn(e, signal, until) == Blocked;
    }
    if !r.verdict.Allowed? {
      var e :| e in r.relevant && VerdictOn(e, signal, until) == r.verdict;
      assert e in events && Relevant(e, to);
    } else {
      forall e | e in events && Relevant(e, to)
        ensures !Blocks(e, signal, until) && !Warns(e, signal, until)
      {
        assert e in r.relevant && Severity(VerdictOn(e, signal, until)) <= 0;
      }
    }
  }

  /** Among starts that keep the expiry or move it later, `nextSafe` is the least that
      clears every event blocking now. */
  lemma NextSafeIsLeast(r: GateResult, events: seq<EventRecord>, to: Instrument, signal: int, until: int,
                        start: int, later: int)
    requires GateSays(r, events, to, signal, until) && r.verdict.Blocked? && later >= until
    ensures r.nextSafe.value > signal
    ensures start >= r.nextSafe.value <==>
            forall e :: e in events && Relevant(e, to) && Blocks(e, signal, until) ==> !Blocks(e, start, later)
  {
    RelevantMembers(events, to);
    var last :| last in r.relevant && Blocks(last, signal, until) && BlockEnd(last) == r.nextSafe.value;
    assert last in events && Relevant(last, to);
    if start >= r.nextSafe.value {
      forall e | e in events && Relevant(e, to) && Blocks(e, signal, until)
        ensures !Blocks(e, start, later)
      {
        assert e in r.relevant;
      }
    }
  }

  /** With the expiry kept, waiting until `nextSafe` is enough: nothing blocks then. */
  lemma NextSafeIsSafe(r: GateResult, waited: GateResult, events: seq<EventRecord>, to: Instrument, signal: int, until: int)
    requires GateSays(r, events, to, signal, until) && r.verdict.Blocked?
    requires GateSays(waited, events, to, r.nextSafe.value, until)
    ensures !waited.verdict.Blocked?
  {
    NextSafeIsLeast(r, events, to, signal, until, r.nextSafe.value, until);
    GateVerdictIff(waited, events, to, r.nextSafe.value, until);
  }

  /** Waiting until `nextSafe` with the expiry kept or moved later, as a setup built then
      would have it: it is blocked again exactly when a relevant hard-block event lies
      ahead whose window the old expiry had not reached and the new one enters. */
  lemma WaitingIsBlockedIff(r: GateResult, waited: GateResult, events: seq<EventRecord>, to: Instrument,
                            signal: int, until: int, later: int)
    requires GateSays(r, events, to, signal, until) && r.verdict.Blocked? && later >= until
    requires GateSays(waited, events, to, r.nextSafe.value, later)
    ensures waited.verdict.Blocked? <==> exists e :: e in events && NewlyReached(e, to, until, later, r.nextSafe.value)
  {
    var start := r.nextSafe.value;
    NextSafeIsLeast(r, events, to, signal, until, start, later);
    GateVerdictIff(waited, events, to, start, later);
    forall e | e in events && Relevant(e, to)
      ensures Blocks(e, start, later) <==> NewlyReached(e, to, until, later, start)
    {
    }
  }

  predicate NewlyReached(e: EventRecord, to: Instrument, until: int, later: int, start: int) {
    && Relevant(e, to) && HardBlockEligible(e)
    && until <= e.time - BLOCK_MARGIN < later
    && BlockEnd(e) > start
  }

  /** It does happen to setups of the usual five-minute validity: two CPI releases twelve
      minutes apart, and a setup built at the time of safety of the first. */
  lemma FreshSetupIsBlockedAgain(first: EventRecord, second: EventRecord, to: Instrument, r: GateResult, waited: GateResult)
    requires first == EventRecord(UsCpi, Importance.High, 0, 1)
    requires second == EventRecord(UsCpi, Importance.High, 12 * MINUTE, 2) && Usd in to.tags
    requires GateSays(r, [first, second], to, -MINUTE, SIGNAL_EXECUTION_WINDOW - MINUTE)
    requires r.nextSafe.Some? ==>
               GateSays(waited, [first, second], to, r.nextSafe.value, r.nextSafe.value + SIGNAL_EXECUTION_WINDOW)
    ensures r.verdict.Blocked? && waited.verdict.Blocked?
  {
    var events, until := [first, second], SIGNAL_EXECUTION_WINDOW - MINUTE;
    assert first in events && second in events && Relevant(first, to) && Blocks(first, -MINUTE, until);
    GateVerdictIff(r, events, to, -MINUTE, until);
    RelevantMembers(events, to);
    assert r.nextSafe.value == BlockEnd(first);
    var later := r.nextSafe.value + SIGNAL_EXECUTION_WINDOW;
    WaitingIsBlockedIff(r, waited, events, to, -MINUTE, until, later);
    assert NewlyReached(second, to, until, later, r.nextSafe.value);
  }

  // ---- the bridge to the risk gate ----------------------------------------------------------

  datatype RiskInput = RiskInput(family: Family, riskPerUnit: real)

  function Zeroed(blocked: set<Family>): RiskInput -> RiskInput {
    (c: RiskInput) => if c.family in blocked then RiskInput(c.family, 0.0) else c
  }

  /** `None` where the gate did not run. */
  function EventAdjustedInputs(base: seq<RiskInput>, verdicts: Option<seq<(Family, EventVerdict)>>): seq<RiskInput> {
    if verdicts.None? || BlockedFamilies(verdicts.value) == {} then base
    else Map(base, Zeroed(BlockedFamilies(verdicts.value)))
  }

  function BlockedFamilies(verdicts: seq<(Family, EventVerdict)>): set<Family> {
    set v | v in verdicts && v.1.Blocked? :: v.0
  }

  /** Order and coverage survive; a risk changes only by becoming zero, and becomes zero
      for exactly the blocked families (beside those that were zero). */
  lemma BridgeZeroesExactlyBlocked(base: seq<RiskInput>, verdicts: seq<(Family, EventVerdict)>, i: nat)
    requires i < |base|
    ensures var adjusted := EventAdjustedInputs(base, Some(verdicts));
            && |adjusted| == |base|
            && adjusted[i].family == base[i].family
            && (adjusted[i].riskPerUnit != base[i].riskPerUnit ==> adjusted[i].riskPerUnit == 0.0)
            && (adjusted[i].riskPerUnit == 0.0 <==>
                  base[i].riskPerUnit == 0.0 || (base[i].family, Blocked) in verdicts)
  {
    if base[i].family in BlockedFamilies(verdicts) {
      var v :| v in verdicts && v.1.Blocked? && v.0 == base[i].family;
      assert v == (base[i].family, Blocked);
    }
  }

  /** A family the gate blocks gets no money downstream, whatever the account. */
  lemma EventBlockedGetsNoRisk(base: seq<RiskInput>, verdicts: seq<(Family, EventVerdict)>, i: nat,
                               account: RiskBudget.AccountSnapshot, config: RiskBudget.CycleConfig, locked: bool)
    requires i < |base| && (base[i].family, Blocked) in verdicts
    requires RiskBudget.ValidAccount(account, config)
    ensures var adjusted := EventAdjustedInputs(base, Some(verdicts));
            var candidates := Map(adjusted, (c: RiskInput) => RiskBudget.Proposed(c.riskPerUnit));
            |candidates| == |base| &&
            RiskBudget.SessionVerdicts(candidates, account, config, locked)[i] == RiskBudget.PortfolioNotEligible
  {
    BridgeZeroesExactlyBlocked(base, verdicts, i);
    var adjusted := EventAdjustedInputs(base, Some(verdicts));
    var candidates := Map(adjusted, (c: RiskInput) => RiskBudget.Proposed(c.riskPerUnit));
    assert candidates[i] == RiskBudget.Proposed(0.0);
    RiskBudget.LaterStagesNeverBlockForDailyLoss(candidates, account, config, locked, i);
    RiskBudget.RiskEligibleIff(candidates[i], account, config);
  }
}
