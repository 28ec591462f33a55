/** Why a family is not traded: the walk over its results, first genuine cause first,
    and the proof that it names the first stage whose own condition fails. */
module NoTradeWalk {
  import opened Common
  import opened Strategies
  import opened Sizing
  import opened SetupConstruction
  import opened RiskBudget
  import opened FinalRecommendations
  import opened Pipeline
  import EventGate
  import Judge
  import Matching
  import RuntimeCycle

  datatype Stage = EvaluationStage | JudgeStage | PolicyStage | SetupStage | EventStage
    | RiskStage | PortfolioStage | SessionStage | FinalStage | IssuanceStage

  datatype Cause =
    | EvaluationCause(reasons: seq<Ineligibility>)
    | PolicyCause(blocks: seq<PolicyBlock>)
    | SetupCause(setup: SetupBlock)
    | EventCause
    | RiskCause(risks: seq<RiskBlock>)
    | PortfolioCause(portfolio: PortfolioBlock)
    | SessionCause(status: SessionStatus)
    | FinalCause(final: FinalFamily)
    | GuardCause(guard: RuntimeCycle.GuardOutcome)
    | CreationCause(creation: RuntimeCycle.CreationOutcome)
    | TrackingPersistenceFailed

  datatype NoTrade = NoTrade(family: Family, stage: Stage, cause: Cause)

  datatype ApplicationFault = NoReasonForBlocked | NoIssuanceCause

  /** The policy reasons that say what the judge found. */
  const JUDGE_MIRRORED: set<PolicyBlock> := {JudgeOutcomeMixed, JudgeOutcomeInsufficientEvidence}

  /** What stopped a family before the risk gate. */
  function StoppedBy(u: Upstream): Option<(Stage, Cause)> {
    match u
    case Ineligible(reasons) => Some((EvaluationStage, EvaluationCause(reasons)))
    case PolicyStopped(blocks) =>
      Some((if blocks != [] && blocks[0] in JUDGE_MIRRORED then JudgeStage else PolicyStage, PolicyCause(blocks)))
    case SetUp(SetupBlocked(reason), _) => Some((SetupStage, SetupCause(reason)))
    case SetUp(Constructed(_), eventBlocked) => if eventBlocked then Some((EventStage, EventCause)) else None
  }

  /** The first genuine cause; a later stage's echo of an earlier block is skipped, and a
      stage that did not run ends the walk without one. */
  function DeriveNoTrade(t: FamilyTrail): Result<Option<NoTrade>, ApplicationFault> {
    if t.upstream.None? then Success(None)
    else if StoppedBy(t.upstream.value).Some? then
      var (stage, cause) := StoppedBy(t.upstream.value).value;
      Success(Some(NoTrade(t.family, stage, cause)))
    else if t.review.None? then Success(None)
    else DeriveFromReview(t.family, t.review.value, t.final)
  }

  function DeriveFromReview(family: Family, review: Review, final: Option<FinalFamily>):
    Result<Option<NoTrade>, ApplicationFault>
  {
    var (risk, portfolio, session) := (review.risk, review.portfolio, review.session);
    if risk.BlockedByRisk? && risk.reasons != [] && risk.reasons != [PolicyNotEligible] then
      Success(Some(NoTrade(family, RiskStage, RiskCause(risk.reasons))))
    else if portfolio.BlockedByPortfolio? && !portfolio.reason.RiskNotEligible? then
      Success(Some(NoTrade(family, PortfolioStage, PortfolioCause(portfolio.reason))))
    else if session.BlockedBySession? then Success(Some(NoTrade(family, SessionStage, SessionCause(session.status))))
    else if final.None? then Success(None)
    else if !final.value.ActionableFamily? && !final.value.SessionNotEligible? then
      Success(Some(NoTrade(family, FinalStage, FinalCause(final.value))))
    else if !final.value.ActionableFamily? then Failure(NoReasonForBlocked)
    else Success(None)
  }

  /** A stage's verdict that only repeats that the stage before blocked. */
  predicate Echoes(r: Review) {
    && (r.risk.BlockedByRisk? ==> r.risk.reasons == [] || r.risk.reasons == [PolicyNotEligible])
    && (r.portfolio.BlockedByPortfolio? ==> r.portfolio.reason.RiskNotEligible?)
    && !r.session.BlockedBySession?
  }

  /** On any trail, wired or not: an echo is never reported, what is reported is the
      verdict of the stage named, and the walk raises exactly when all that blocks is
      echoes up to a final entry. */
  lemma EchoesNeverReported(t: FamilyTrail)
    ensures DeriveNoTrade(t).Failure? <==>
              && t.upstream.Some? && StoppedBy(t.upstream.value).None? && t.review.Some? && Echoes(t.review.value)
              && t.final.Some? && t.final.value.SessionNotEligible?
    ensures DeriveNoTrade(t).Success? && DeriveNoTrade(t).value.Some? ==>
              var n := DeriveNoTrade(t).value.value;
              && n.family == t.family
              && (n.stage.RiskStage? ==>
                    && t.review.Some? && t.review.value.risk.BlockedByRisk?
                    && n.cause == RiskCause(t.review.value.risk.reasons)
                    && n.cause.risks != [] && n.cause.risks != [PolicyNotEligible])
              && (n.stage.PortfolioStage? ==>
                    && t.review.Some? && t.review.value.portfolio.BlockedByPortfolio?
                    && n.cause == PortfolioCause(t.review.value.portfolio.reason) && !n.cause.portfolio.RiskNotEligible?)
              && (n.stage.SessionStage? ==>
                    && t.review.Some? && t.review.value.session.BlockedBySession?
                    && n.cause == SessionCause(t.review.value.session.status))
              && (n.stage.FinalStage? ==>
                    && t.final.Some? && n.cause == FinalCause(t.final.value)
                    && !t.final.value.ActionableFamily? && !t.final.value.SessionNotEligible?)
  {
  }

  // ---- the stages by their own conditions ---------------------------------------------

  predicate IsActionable(t: FamilyTrail) { t.final.Some? && t.final.value.ActionableFamily? }

  function SoundDirection(e: Evaluation, f: Family): (c: Judge.Candidate)
    requires Evaluates(e) && Routed(e, f)
    requires PolicyReasons(Judge.JudgeFamily(e.market, f), e.allowed) == []
    ensures Judge.JudgeFamily(e.market, f).direction == Some(c)
    ensures SetupFor(e, f, c).Success?
  {
    assert FamilyReturns(e, f);
    Judge.JudgeFamily(e.market, f).direction.value
  }

  /** The stage before the risk gate that stops a family, read off the facts of the
      evaluation alone. */
  function EarlyStage(e: Evaluation, f: Family): Option<Stage>
    requires Evaluates(e)
  {
    if !Routed(e, f) then Some(EvaluationStage)
    else
      assert FamilyReturns(e, f);
      JudgedStage(e, f, Judge.JudgeFamily(e.market, f))
  }

  function JudgedStage(e: Evaluation, f: Family, j: Judge.Judgement): Option<Stage>
    requires JudgedReturns(e, f, j)
  {
    if !j.verdict.Directional? then Some(JudgeStage)
    else if CitesDisallowed(j, e.allowed) then Some(PolicyStage)
    else
      PolicyByConditions(j, e.allowed);
      var setup := SetupFor(e, f, j.direction.value).value;
      if setup.SetupBlocked? then Some(SetupStage)
      else if EventBlocks(e, setup.setup) then Some(EventStage)
      else None
  }

  predicate CitesDisallowed(j: Judge.Judgement, allowed: Judge.EvidenceRef -> bool) {
    exists ref :: ref in j.refs && !allowed(ref)
  }

  lemma PolicyByConditions(j: Judge.Judgement, allowed: Judge.EvidenceRef -> bool)
    ensures var blocks := PolicyReasons(j, allowed);
            && (blocks == [] <==> j.verdict.Directional? && !CitesDisallowed(j, allowed))
            && (blocks != [] ==> (blocks[0] in JUDGE_MIRRORED <==> !j.verdict.Directional?))
  {
  }

  function BlockingStage(e: Evaluation, f: Family): Option<Stage>
    requires Evaluates(e)
  {
    if EarlyStage(e, f).Some? then EarlyStage(e, f) else AccountStage(e, f)
  }

  /** The stage from the risk gate on that stops a family nothing stopped before. */
  function AccountStage(e: Evaluation, f: Family): Option<Stage>
    requires Evaluates(e)
  {
    if e.account.None? then None
    else if !DailyRoom(e.account.value, e.config) then Some(RiskStage)
    else if !PortfolioRoom(e.account.value, e.config) then Some(PortfolioStage)
    else if !SessionOpen(e.account.value, e.config, e.locked) then Some(SessionStage)
    else if !IsActionable(TrailOf(e, f)) then Some(FinalStage)
    else None
  }

  /** A family that gets past the stages before the risk gate proposes a positive risk. */
  lemma PassingProposesRisk(e: Evaluation, f: Family)
    requires Evaluates(e) && Passes(UpstreamOf(e, f))
    ensures e.facts.Some? && UpstreamOf(e, f).outcome.setup.riskPerUnit > 0.0
  {
    var c := SoundDirection(e, f);
    SetupNeedsFacts(e, f, c);
    ConstructedSetupSizes(f, TradeDirection(c), e.symbol, e.asOf, e.facts.value, e.structure.value, 1.0);
  }

  lemma JudgedByConditions(e: Evaluation, f: Family, j: Judge.Judgement)
    requires JudgedReturns(e, f, j)
    ensures Passes(AfterJudge(e, f, j)) <==> JudgedStage(e, f, j).None?
    ensures var stopped := StoppedBy(AfterJudge(e, f, j));
            && (stopped.None? <==> JudgedStage(e, f, j).None?)
            && (stopped.Some? ==> stopped.value.0 == JudgedStage(e, f, j).value)
  {
    PolicyByConditions(j, e.allowed);
  }

  /** The walk up to the event gate. */
  lemma UpstreamByConditions(e: Evaluation, f: Family)
    requires Evaluates(e)
    ensures Passes(UpstreamOf(e, f)) <==> EarlyStage(e, f).None?
    ensures var stopped := StoppedBy(UpstreamOf(e, f));
            && (stopped.None? <==> EarlyStage(e, f).None?)
            && (stopped.Some? ==> stopped.value.0 == EarlyStage(e, f).value)
  {
    if Routed(e, f) {
      assert FamilyReturns(e, f);
      JudgedByConditions(e, f, Judge.JudgeFamily(e.market, f));
    }
  }

  /** The walk past the event gate. */
  lemma AccountByConditions(e: Evaluation, f: Family)
    requires Evaluates(e) && e.account.Some? && Passes(UpstreamOf(e, f))
    ensures TrailOf(e, f).review == Some(ReviewOf(e, f))
    ensures Names(DeriveFromReview(f, ReviewOf(e, f), TrailOf(e, f).final), f, AccountStage(e, f))
  {
    PassingProposesRisk(e, f);
    StagesByConditions(CandidateFor(e)(f), e.account.value, e.config, e.locked,
                       TotalRequested(RiskVerdicts(Candidates(e), e.account.value, e.config)));
    ClearedIsFinalized(e, f);
  }

  /** The walk gave a reason exactly where a stage is named, and the reason names it. */
  predicate Names(reason: Result<Option<NoTrade>, ApplicationFault>, f: Family, stage: Option<Stage>) {
    && reason.Success?
    && (reason.value.Some? <==> stage.Some?)
    && (reason.value.Some? ==> reason.value.value.family == f && reason.value.value.stage == stage.value)
  }

  lemma StoppedWalk(t: FamilyTrail)
    requires t.upstream.Some? && StoppedBy(t.upstream.value).Some?
    ensures Names(DeriveNoTrade(t), t.family, Some(StoppedBy(t.upstream.value).value.0))
  {
  }

  /** The walk never runs off its end, and the cause it finds is of the first stage whose
      own condition fails: no verdict that only echoes an earlier stage is ever
      reported. */
  lemma WalkNamesFirstBlock(e: Evaluation, f: Family)
    requires Evaluates(e)
    ensures Names(DeriveNoTrade(TrailOf(e, f)), f, BlockingStage(e, f))
  {
    UpstreamByConditions(e, f);
    var t := TrailOf(e, f);
    if !Passes(UpstreamOf(e, f)) {
      StoppedWalk(t);
    } else if e.account.Some? {
      AccountByConditions(e, f);
    }
  }

  lemma ClearedIsFinalized(e: Evaluation, f: Family)
    requires Evaluates(e) && e.account.Some?
    requires Passes(UpstreamOf(e, f)) && e.facts.Some?
    ensures TrailOf(e, f).final.Some? && TrailOf(e, f).review == Some(ReviewOf(e, f))
    ensures TrailOf(e, f).final.value.SessionNotEligible? <==> !ReviewOf(e, f).session.Cleared?
  {
    FinalizeReturns(e, f);
  }

  /** A family without a reason is ACTIONABLE, or the account facts were not READY and
      nothing before the risk gate stopped it. */
  lemma WalkFindsReasonIffBlocked(e: Evaluation, f: Family)
    requires Evaluates(e)
    ensures var t := TrailOf(e, f);
            && DeriveNoTrade(t).Success?
            && (DeriveNoTrade(t).value.None? <==> IsActionable(t) || (e.account.None? && Passes(UpstreamOf(e, f))))
  {
    WalkNamesFirstBlock(e, f);
    UpstreamByConditions(e, f);
    if IsActionable(TrailOf(e, f)) {
      ActionableIsCleared(e, f);
    }
  }

  /** What comes out ACTIONABLE passed every stage. */
  lemma ActionableIsCleared(e: Evaluation, f: Family)
    requires Evaluates(e) && IsActionable(TrailOf(e, f))
    ensures Routed(e, f) && e.account.Some? && e.facts.Some? && Passes(UpstreamOf(e, f))
    ensures ReviewOf(e, f).session.Cleared? && AccountStage(e, f).None?
  {
    FinalizeReturns(e, f);
    RiskEligibleIff(CandidateFor(e)(f), e.account.value, e.config);
    StagesByConditions(CandidateFor(e)(f), e.account.value, e.config, e.locked,
                       TotalRequested(RiskVerdicts(Candidates(e), e.account.value, e.config)));
  }

  /** Whatever comes out ACTIONABLE is what the tracking store can take: under the
      family's own trade id, on the evaluation's symbol, of positive volume, and with its
      validity ahead of it. */
  lemma ActionableIsIssuable(e: Evaluation, f: Family)
    requires Evaluates(e) && IsActionable(TrailOf(e, f))
    ensures var recommendation := TrailOf(e, f).final.value.recommendation;
            && f in e.tradeIds && recommendation.rec.tradeId == e.tradeIds[f] && recommendation.family == f
            && recommendation.rec.symbol == e.symbol
            && recommendation.rec.approvedVolume > 0.0
            && recommendation.rec.signalTime == e.asOf < recommendation.rec.validUntil
  {
    EveryFamilyListed(f);
    ActionableIsCleared(e, f);
    FinalizeReturns(e, f);
    var i := PositionOf(e, f);
    ReviewIsStages(e, i);
    ClearedArePositive(Candidates(e), e.account.value, e.config, e.locked);
    ApprovalWithinAllocation(SessionFamily(f, ReviewOf(e, f).session), InputsFor(e));
    var c := SoundDirection(e, f);
    ConstructedFields(f, TradeDirection(c), e.symbol, e.asOf, e.facts.value, e.structure.value,
                      UpstreamOf(e, f).outcome.setup);
  }

  /** From evidence to recommendation: whatever comes out ACTIONABLE trades the side the
      judge found on evidence of allowed quality, at that side's price, while no relevant
      event blocks its five minutes, on an account with room for it. */
  lemma RecommendationFollowsEvidence(e: Evaluation, f: Family, r: EventGate.GateResult)
    requires Evaluates(e) && IsActionable(TrailOf(e, f))
    requires EventGate.GateSays(r, e.events, e.instrument, e.asOf, e.asOf + 5 * 60 * 1_000_000)
    ensures e.account.Some? && e.facts.Some?
    ensures var rec, j := TrailOf(e, f).final.value.recommendation.rec, Judge.JudgeFamily(e.market, f);
            && j.direction.Some?
            && rec.direction == (if j.direction.value == Judge.LongCandidate then Matching.Long else Matching.Short)
            && rec.entryPrice == (if j.direction.value == Judge.LongCandidate then e.facts.value.ask else e.facts.value.bid)
            && forall ref :: ref in j.refs ==> e.allowed(ref)
    ensures !r.verdict.Blocked?
    ensures DailyRoom(e.account.value, e.config) && PortfolioRoom(e.account.value, e.config)
            && SessionOpen(e.account.value, e.config, e.locked)
  {
    EveryFamilyListed(f);
    ActionableIsCleared(e, f);
    SetupTradesJudgement(e, f);
    EventStopsIff(e, f, r);
    FinalizeReturns(e, f);
    RecommendsSetup(SessionFamily(f, ReviewOf(e, f).session), InputsFor(e));
  }

  lemma PositionOf(e: Evaluation, f: Family) returns (i: nat)
    requires Routed(e, f)
    ensures i < |RoutedFamilies(e)| && RoutedFamilies(e)[i] == f
  {
    EveryFamilyListed(f);
    FilterMembers(FAMILIES, IsRouted(e));
    i :| 0 <= i < |RoutedFamilies(e)| && RoutedFamilies(e)[i] == f;
  }
}
