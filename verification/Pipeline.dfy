/** One evaluation from router to final recommendation: what each stage says of each
    family, wired from one set of market, broker and account facts. */
module Pipeline {
  import opened Common
  import opened Strategies
  import opened Sizing
  import opened SetupConstruction
  import opened RiskBudget
  import opened FinalRecommendations
  import Matching
  import Judge
  import EventGate

  datatype Ineligibility = ContourMissing | ContourInsufficientEvidence | QualityUnavailable | ExternalScopeNotAligned

  datatype PolicyBlock = JudgeOutcomeMixed | JudgeOutcomeInsufficientEvidence | DisallowedEvidenceQuality

  /** What the stages before the risk gate make of a family. The event gate looks at
      constructed setups only. */
  datatype Upstream =
    | Ineligible(reasons: seq<Ineligibility>)
    | PolicyStopped(blocks: seq<PolicyBlock>)
    | SetUp(outcome: SetupOutcome, eventBlocked: bool)

  datatype Review = Review(risk: RiskVerdict, portfolio: PortfolioVerdict, session: SessionVerdict)

  /** One family's results in pipeline order. A stage that did not run for it left
      nothing. */
  datatype FamilyTrail = FamilyTrail(
    family: Family,
    upstream: Option<Upstream>,
    review: Option<Review>,
    final: Option<FinalFamily>)

  /** The facts of one evaluation. `ineligible` is the router's answer, `allowed` says
      which cited observations are of VALID or PARTIAL quality, `facts` are the broker's
      for the symbol if it gave any, and `account` is missing unless the account facts
      were READY. */
  datatype Evaluation = Evaluation(
    ineligible: Family -> seq<Ineligibility>,
    market: Judge.MarketEvaluation,
    allowed: Judge.EvidenceRef -> bool,
    symbol: string,
    asOf: int,
    facts: Option<SymbolFacts>,
    structure: Option<Structure>,
    events: seq<EventGate.EventRecord>,
    instrument: EventGate.Instrument,
    account: Option<AccountSnapshot>,
    config: CycleConfig,
    locked: bool,
    tradeIds: map<Family, string>)

  predicate Routed(e: Evaluation, f: Family) { e.ineligible(f) == [] }

  // ---- before the risk gate ---------------------------------------------------------

  function PolicyReasons(j: Judge.Judgement, allowed: Judge.EvidenceRef -> bool): seq<PolicyBlock> {
    if j.verdict.Mixed? then [JudgeOutcomeMixed]
    else if j.verdict.Insufficient? then [JudgeOutcomeInsufficientEvidence]
    else if exists ref :: ref in j.refs && !allowed(ref) then [DisallowedEvidenceQuality]
    else []
  }

  function TradeDirection(c: Judge.Candidate): Matching.Direction {
    match c case LongCandidate => Matching.Long case ShortCandidate => Matching.Short
  }

  function SetupFor(e: Evaluation, f: Family, c: Judge.Candidate): Result<SetupOutcome, SetupFault> {
    ConstructFamily(f, TradeDirection(c), e.symbol, e.asOf, e.facts, e.structure)
  }

  predicate EventBlocks(e: Evaluation, setup: Setup) {
    exists event :: event in e.events && EventGate.Relevant(event, e.instrument)
                    && EventGate.Blocks(event, setup.signalTime, setup.validUntil)
  }

  /** The models' own constraints on what an evaluation is given. */
  predicate SoundEvaluation(e: Evaluation) {
    Judge.SoundMarket(e.market) && (e.account.Some? ==> ValidAccount(e.account.value, e.config))
  }

  /** Neither the judge nor setup construction raises, so the evaluation returns. */
  ghost predicate Returns(e: Evaluation)
    requires SoundEvaluation(e)
  {
    forall f: Family :: Routed(e, f) ==> FamilyReturns(e, f)
  }

  predicate TradeIdsCover(tradeIds: map<Family, string>) {
    forall f :: f in FAMILIES ==> f in tradeIds
  }

  /** A well-formed evaluation that returns, with a trade id for every family. */
  ghost predicate Evaluates(e: Evaluation) {
    SoundEvaluation(e) && Returns(e) && TradeIdsCover(e.tradeIds)
  }

  ghost predicate FamilyReturns(e: Evaluation, f: Family)
    requires SoundEvaluation(e)
  {
    JudgedReturns(e, f, Judge.JudgeFamily(e.market, f))
  }

  predicate JudgedReturns(e: Evaluation, f: Family, j: Judge.Judgement) {
    && Judge.SoundJudgement(j)
    && (PolicyReasons(j, e.allowed) == [] ==> SetupFor(e, f, j.direction.value).Success?)
  }

  /** From the family's judgement to its setup and the event gate. */
  function AfterJudge(e: Evaluation, f: Family, j: Judge.Judgement): Upstream
    requires JudgedReturns(e, f, j)
  {
    var blocks := PolicyReasons(j, e.allowed);
    if blocks != [] then PolicyStopped(blocks)
    else
      var outcome := SetupFor(e, f, j.direction.value).value;
      SetUp(outcome, outcome.Constructed? && EventBlocks(e, outcome.setup))
  }

  function UpstreamOf(e: Evaluation, f: Family): Upstream
    requires Evaluates(e)
  {
    if !Routed(e, f) then Ineligible(e.ineligible(f))
    else
      assert FamilyReturns(e, f);
      AfterJudge(e, f, Judge.JudgeFamily(e.market, f))
  }

  /** A constructed setup trades the side the judge found, on the evaluation's symbol and
      from its instant, for one of the two families that have setups. */
  lemma SetupTradesJudgement(e: Evaluation, f: Family)
    requires Evaluates(e) && UpstreamOf(e, f).SetUp? && UpstreamOf(e, f).outcome.Constructed?
    ensures var setup, j := UpstreamOf(e, f).outcome.setup, Judge.JudgeFamily(e.market, f);
            && j.direction.Some? && e.facts.Some? && e.structure.Some?
            && setup.direction == (if j.direction.value == Judge.LongCandidate then Matching.Long else Matching.Short)
            && setup.entryPrice == (if j.direction.value == Judge.LongCandidate then e.facts.value.ask else e.facts.value.bid)
            && setup.family == f && setup.symbol == e.symbol
            && setup.signalTime == e.asOf && setup.validUntil == e.asOf + 5 * 60 * 1_000_000
            && (f.TrendFollowing? || f.Breakout?)
            && forall ref :: ref in j.refs ==> e.allowed(ref)
  {
    assert FamilyReturns(e, f);
    var j := Judge.JudgeFamily(e.market, f);
    SetupNeedsFacts(e, f, j.direction.value);
    ConstructedFromFacts(f, TradeDirection(j.direction.value), e.symbol, e.asOf, e.facts.value, e.structure.value,
                         UpstreamOf(e, f).outcome.setup);
  }

  /** A setup is stopped by events exactly when the event gate, asked about its validity,
      answers BLOCKED. */
  lemma EventStopsIff(e: Evaluation, f: Family, r: EventGate.GateResult)
    requires Evaluates(e) && UpstreamOf(e, f).SetUp? && UpstreamOf(e, f).outcome.Constructed?
    requires EventGate.GateSays(r, e.events, e.instrument, e.asOf, e.asOf + 5 * 60 * 1_000_000)
    ensures UpstreamOf(e, f).eventBlocked <==> r.verdict.Blocked?
  {
    SetupTradesJudgement(e, f);
    EventGate.GateVerdictIff(r, e.events, e.instrument, e.asOf, e.asOf + 5 * 60 * 1_000_000);
  }

  /** Nothing before the risk gate stops the family. */
  predicate Passes(u: Upstream) { u.SetUp? && u.outcome.Constructed? && !u.eventBlocked }

  // ---- from the risk gate on -----------------------------------------------------------

  /** What the risk gate is given: families the policy blocked come without a candidate,
      families without a usable setup with zero risk. Ineligible families are left out. */
  function CandidateOf(u: Upstream): Candidate {
    if !u.SetUp? then PolicyBlocked
    else if Passes(u) then Proposed(u.outcome.setup.riskPerUnit)
    else Proposed(0.0)
  }

  function IsRouted(e: Evaluation): Family -> bool {
    (f: Family) => Routed(e, f)
  }

  function RoutedFamilies(e: Evaluation): seq<Family> { Filter(FAMILIES, IsRouted(e)) }

  function CandidateFor(e: Evaluation): Family -> Candidate
    requires Evaluates(e)
  {
    (f: Family) => CandidateOf(UpstreamOf(e, f))
  }

  function Candidates(e: Evaluation): seq<Candidate>
    requires Evaluates(e)
  {
    Map(RoutedFamilies(e), CandidateFor(e))
  }

  function ReviewOf(e: Evaluation, f: Family): Review
    requires Evaluates(e) && e.account.Some?
  {
    var account := e.account.value;
    var daily, portfolio := DailyCapacity(account, e.config), PortfolioCapacity(account, e.config);
    var risk := ReviewRisk(CandidateFor(e)(f), account, e.config);
    var allocation := Allocate(risk, daily, portfolio, TotalRequested(RiskVerdicts(Candidates(e), account, e.config)));
    Review(risk, allocation, ReviewSession(allocation, Status(account, e.config, e.locked)))
  }

  function SetupsOf(e: Evaluation): map<Family, Setup>
    requires Evaluates(e)
  {
    map f | f in FAMILIES && UpstreamOf(e, f).SetUp? && UpstreamOf(e, f).outcome.Constructed? ::
      UpstreamOf(e, f).outcome.setup
  }

  function InputsFor(e: Evaluation): FinalInputs
    requires Evaluates(e) && e.facts.Some?
  {
    FinalInputs(SetupsOf(e), e.facts.value, e.tradeIds, e.asOf)
  }

  function SessionsOf(e: Evaluation): seq<SessionFamily>
    requires Evaluates(e) && e.account.Some?
  {
    SessionFamilies(RoutedFamilies(e), SessionVerdicts(Candidates(e), e.account.value, e.config, e.locked))
  }

  lemma EveryFamilyListed(f: Family)
    ensures f in FAMILIES
  {
    assert FAMILIES[0] == TrendFollowing && FAMILIES[1] == MeanReversion && FAMILIES[2] == Breakout
           && FAMILIES[3] == EventDriven;
  }

  /** A family's own review is what the three stages say of it among all the routed
      families. */
  lemma ReviewIsStages(e: Evaluation, i: nat)
    requires Evaluates(e) && e.account.Some? && i < |RoutedFamilies(e)|
    ensures ReviewOf(e, RoutedFamilies(e)[i]) ==
            Review(RiskVerdicts(Candidates(e), e.account.value, e.config)[i],
                   PortfolioVerdicts(Candidates(e), e.account.value, e.config)[i],
                   SessionVerdicts(Candidates(e), e.account.value, e.config, e.locked)[i])
  {
  }

  /** A family that proposes a positive risk has a setup on one side of the market. */
  lemma ProposalsAreSizable(e: Evaluation, f: Family)
    requires Evaluates(e) && e.facts.Some?
    ensures Sizable(f, CandidateFor(e)(f), InputsFor(e))
  {
    EveryFamilyListed(f);
    if Passes(UpstreamOf(e, f)) {
      assert FamilyReturns(e, f);
      var j := Judge.JudgeFamily(e.market, f);
      SetupNeedsFacts(e, f, j.direction.value);
      ConstructedFields(f, TradeDirection(j.direction.value), e.symbol, e.asOf, e.facts.value, e.structure.value,
                        UpstreamOf(e, f).outcome.setup);
    }
  }

  lemma SetupNeedsFacts(e: Evaluation, f: Family, c: Judge.Candidate)
    requires SetupFor(e, f, c).Success? && SetupFor(e, f, c).value.Constructed?
    ensures e.facts.Some? && e.structure.Some?
  {
  }

  /** What final construction gets for a family of the evaluation never makes it raise. */
  lemma FinalizeReturns(e: Evaluation, f: Family)
    requires Evaluates(e) && e.account.Some? && e.facts.Some?
    requires Routed(e, f)
    ensures Finalize(SessionFamily(f, ReviewOf(e, f).session), InputsFor(e)).Success?
  {
    EveryFamilyListed(f);
    FilterMembers(FAMILIES, IsRouted(e));
    var i :| 0 <= i < |RoutedFamilies(e)| && RoutedFamilies(e)[i] == f;
    ProposalsAreSizable(e, f);
    ReviewIsStages(e, i);
    SizableFinalizes(RoutedFamilies(e), Candidates(e), e.account.value, e.config, e.locked, InputsFor(e), i);
  }

  function TrailOf(e: Evaluation, f: Family): FamilyTrail
    requires Evaluates(e)
  {
    var u := UpstreamOf(e, f);
    if u.Ineligible? || e.account.None? then FamilyTrail(f, Some(u), None, None)
    else
      var review := ReviewOf(e, f);
      if e.facts.None? then FamilyTrail(f, Some(u), Some(review), None)
      else
        FinalizeReturns(e, f);
        FamilyTrail(f, Some(u), Some(review), Some(Finalize(SessionFamily(f, review.session), InputsFor(e)).value))
  }

  lemma SessionAt(e: Evaluation, i: nat)
    requires Evaluates(e) && e.account.Some? && i < |RoutedFamilies(e)|
    ensures var f := RoutedFamilies(e)[i];
            Routed(e, f) && SessionsOf(e)[i] == SessionFamily(f, ReviewOf(e, f).session)
  {
    FilterMembers(FAMILIES, IsRouted(e));
    assert RoutedFamilies(e)[i] in RoutedFamilies(e);
    ReviewIsStages(e, i);
  }

  lemma AllSizable(e: Evaluation)
    requires Evaluates(e) && e.account.Some? && e.facts.Some?
    ensures |RoutedFamilies(e)| == |Candidates(e)|
    ensures forall i :: 0 <= i < |RoutedFamilies(e)| ==>
              Sizable(RoutedFamilies(e)[i], Candidates(e)[i], InputsFor(e))
  {
    forall i | 0 <= i < |RoutedFamilies(e)|
      ensures Sizable(RoutedFamilies(e)[i], Candidates(e)[i], InputsFor(e))
    {
      ProposalsAreSizable(e, RoutedFamilies(e)[i]);
    }
  }

  /** End to end: whatever the market, setups and events, final construction returns,
      family by family what the trails say, and the risk of everything ACTIONABLE keeps
      within the day's and the portfolio's percentage of equity. */
  lemma EvaluationFitsBothLimits(e: Evaluation)
    requires Evaluates(e) && e.account.Some? && e.facts.Some?
    ensures ConstructFinal(SessionsOf(e), InputsFor(e)).Success?
    ensures var finals := ConstructFinal(SessionsOf(e), InputsFor(e)).value;
            && |finals| == |RoutedFamilies(e)|
            && (forall i :: 0 <= i < |finals| ==> TrailOf(e, RoutedFamilies(e)[i]).final == Some(finals[i]))
            && var risk := Sum(finals, ApprovedRisk);
            && ((exists f :: f in finals && f.ActionableFamily?) ==> WithinLimits(e.account.value, e.config, risk))
  {
    var families, candidates := RoutedFamilies(e), Candidates(e);
    AllSizable(e);
    ConstructionSucceeds(families, candidates, e.account.value, e.config, e.locked, InputsFor(e));
    ConstructsEach(SessionsOf(e), InputsFor(e));
    forall i | 0 <= i < |families|
      ensures TrailOf(e, families[i]).final == Some(ConstructFinal(SessionsOf(e), InputsFor(e)).value[i])
    {
      SessionAt(e, i);
    }
    RecommendedRiskFitsBothLimits(families, candidates, e.account.value, e.config, e.locked, InputsFor(e));
  }
}
