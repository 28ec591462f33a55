/** The last deterministic step before issuance: size every session-cleared family
    with the broker's facts, and the bound on everything that comes out ACTIONABLE. */
module FinalRecommendations {
  import opened Common
  import opened Matching
  import opened Sizing
  import opened SetupConstruction
  import opened Strategies
  import opened RiskBudget
  import RuntimeCycle

  datatype SessionFamily = SessionFamily(family: Family, verdict: SessionVerdict)

  datatype FinalRecommendation = FinalRecommendation(
    rec: RuntimeCycle.Recommendation,
    family: Family,
    approvedRisk: real)

  datatype FinalFamily =
    | SessionNotEligible
    | SymbolFactsMismatch
    | SetupExpired
    | SizingNotActionable(sizing: SizingResult)
    | ActionableFamily(recommendation: FinalRecommendation)

  /** What leaves the function as an exception: a failed assert about the setup, a
      request the sizing model rejects, a missing trade id. */
  datatype FinalFault = NoConstructedSetup | InvalidSizingRequest | MissingTradeId

  datatype FinalInputs = FinalInputs(
    setups: map<Family, Setup>,
    facts: SymbolFacts,
    tradeIds: map<Family, string>,
    asOf: int)

  function Finalize(session: SessionFamily, inputs: FinalInputs): Result<FinalFamily, FinalFault> {
    if !session.verdict.Cleared? then Success(SessionNotEligible)
    else if session.family !in inputs.setups then Failure(NoConstructedSetup)
    else
      var setup := inputs.setups[session.family];
      if setup.symbol != inputs.facts.symbol then Success(SymbolFactsMismatch)
      else if inputs.asOf > setup.validUntil then Success(SetupExpired)
      else
        var request := RequestFor(setup, session.verdict.risk);
        if !ValidRequest(request) then Failure(InvalidSizingRequest)
        else
          var sizing := ComputeBrokerSizing(request, inputs.facts);
          if !sizing.Actionable? then Success(SizingNotActionable(sizing))
          else if session.family !in inputs.tradeIds then Failure(MissingTradeId)
          else Success(ActionableFamily(Recommend(session.family, setup, inputs.tradeIds[session.family], sizing)))
  }

  function Recommend(family: Family, setup: Setup, tradeId: string, sizing: SizingResult): FinalRecommendation
    requires sizing.Actionable?
  {
    FinalRecommendation(
      RuntimeCycle.Recommendation(tradeId, setup.symbol, setup.direction, setup.entryPrice, setup.stopLoss,
                                  sizing.volume, setup.signalTime, setup.validUntil),
      family,
      sizing.risk)
  }

  /** The first family that raises ends the construction. */
  function ConstructFinal(sessions: seq<SessionFamily>, inputs: FinalInputs): Result<seq<FinalFamily>, FinalFault> {
    if sessions == [] then Success([])
    else
      var n := |sessions| - 1;
      var earlier :- ConstructFinal(sessions[..n], inputs);
      var last :- Finalize(sessions[n], inputs);
      Success(earlier + [last])
  }

  function ApprovedRisk(f: FinalFamily): real {
    if f.ActionableFamily? then f.recommendation.approvedRisk else 0.0
  }

  function AllowedRisk(s: SessionFamily): real { ClearedRisk(s.verdict) }

  /** One family's approval: within its own allocation, and the sizing behind it is
      the greatest affordable grid point. */
  lemma ApprovalWithinAllocation(session: SessionFamily, inputs: FinalInputs)
    requires Finalize(session, inputs).Success?
    requires session.verdict.Cleared? ==> session.verdict.risk > 0.0
    ensures 0.0 <= ApprovedRisk(Finalize(session, inputs).value) <= AllowedRisk(session)
    ensures var f := Finalize(session, inputs).value;
            f.ActionableFamily? ==>
              && session.verdict.Cleared?
              && session.family in inputs.setups
              && f.recommendation.approvedRisk > 0.0
              && f.recommendation.rec.approvedVolume > 0.0
              && f.recommendation.rec.symbol == inputs.facts.symbol
              && inputs.asOf <= f.recommendation.rec.validUntil
  {
    if session.verdict.Cleared? && session.family in inputs.setups {
      var request := RequestFor(inputs.setups[session.family], session.verdict.risk);
      if ValidRequest(request) {
        ActionableIsGreatest(request, inputs.facts);
        if ComputeBrokerSizing(request, inputs.facts).Actionable? {
          SizedVolumePositive(request, inputs.facts);
        }
      }
    }
  }

  lemma SizedVolumePositive(r: SizingRequest, facts: SymbolFacts)
    requires ValidRequest(r) && ComputeBrokerSizing(r, facts).Actionable?
    ensures ComputeBrokerSizing(r, facts).volume >= facts.volumeMin > 0.0
  {
    ActionableIff(r, facts);
    var perVolume := RiskPerVolume(ReferencePrice(r, facts), r.stopLoss, facts);
    RiskPerVolumePositive(ReferencePrice(r, facts), r.stopLoss, facts);
    FloorIsGreatest(r.allocatedRisk / perVolume, facts, 0);
  }

  lemma {:induction false} ApprovalsWithinAllocations(sessions: seq<SessionFamily>, inputs: FinalInputs)
    requires ConstructFinal(sessions, inputs).Success?
    requires forall s :: s in sessions && s.verdict.Cleared? ==> s.verdict.risk > 0.0
    ensures var families := ConstructFinal(sessions, inputs).value;
            && |families| == |sessions|
            && Sum(families, ApprovedRisk) <= Sum(sessions, AllowedRisk)
            && (forall f :: f in families && f.ActionableFamily? ==> Sum(families, ApprovedRisk) > 0.0)
            && Sum(families, ApprovedRisk) >= 0.0
  {
    if sessions != [] {
      var n := |sessions| - 1;
      ApprovalsWithinAllocations(sessions[..n], inputs);
      assert sessions[n] in sessions;
      ApprovalWithinAllocation(sessions[n], inputs);
      var families := ConstructFinal(sessions, inputs).value;
      assert families[..|families| - 1] == ConstructFinal(sessions[..n], inputs).value;
    }
  }

  // ---- end to end ------------------------------------------------------------------

  /** The session verdicts of the whole evaluation, labelled by family. */
  function SessionFamilies(families: seq<Family>, verdicts: seq<SessionVerdict>): seq<SessionFamily>
    requires |families| == |verdicts|
  {
    seq(|families|, i requires 0 <= i < |families| == |verdicts| => SessionFamily(families[i], verdicts[i]))
  }

  lemma {:induction false} LabelsKeepRisk(families: seq<Family>, verdicts: seq<SessionVerdict>)
    requires |families| == |verdicts|
    ensures Sum(SessionFamilies(families, verdicts), AllowedRisk) == Sum(verdicts, ClearedRisk)
  {
    if families != [] {
      var n := |families| - 1;
      LabelsKeepRisk(families[..n], verdicts[..n]);
      assert SessionFamilies(families, verdicts)[..n] == SessionFamilies(families[..n], verdicts[..n]);
    }
  }

  lemma ClearedArePositive(candidates: seq<Candidate>, account: AccountSnapshot, config: CycleConfig, locked: bool)
    requires ValidAccount(account, config)
    ensures forall v :: v in SessionVerdicts(candidates, account, config, locked) && v.Cleared? ==>
              0.0 < v.risk <= PerTradeBudget(account, config)
  {
    var risk := RiskVerdicts(candidates, account, config);
    var verdicts := SessionVerdicts(candidates, account, config, locked);
    RiskVerdictsSound(candidates, account, config);
    forall v | v in verdicts && v.Cleared?
      ensures 0.0 < v.risk <= PerTradeBudget(account, config)
    {
      var i :| 0 <= i < |verdicts| && verdicts[i] == v;
      Proportional(risk, DailyCapacity(account, config), PortfolioCapacity(account, config), i, i);
      RiskEligibleIff(candidates[i], account, config);
    }
  }

  /** From account facts to recommendations: whatever the candidates, setups, broker
      facts and lock, the risk of everything ACTIONABLE keeps within the day's and the
      portfolio's percentage of equity, beside the risk already open and, for the day, the
      loss already taken. */
  lemma RecommendedRiskFitsBothLimits(families: seq<Family>, candidates: seq<Candidate>, account: AccountSnapshot,
                                      config: CycleConfig, locked: bool, inputs: FinalInputs)
    requires ValidAccount(account, config) && |families| == |candidates|
    requires var verdicts := SessionVerdicts(candidates, account, config, locked);
             ConstructFinal(SessionFamilies(families, verdicts), inputs).Success?
    ensures var verdicts := SessionVerdicts(candidates, account, config, locked);
            var results := ConstructFinal(SessionFamilies(families, verdicts), inputs).value;
            var risk := Sum(results, ApprovedRisk);
            && risk <= DailyCapacity(account, config)
            && risk <= PortfolioCapacity(account, config)
            && ((exists f :: f in results && f.ActionableFamily?) ==>
                  && risk > 0.0 && WithinLimits(account, config, risk))
  {
    var verdicts := SessionVerdicts(candidates, account, config, locked);
    var sessions := SessionFamilies(families, verdicts);
    ClearedArePositive(candidates, account, config, locked);
    forall s | s in sessions && s.verdict.Cleared?
      ensures s.verdict.risk > 0.0
    {
      assert s.verdict in verdicts;
    }
    ApprovalsWithinAllocations(sessions, inputs);
    LabelsKeepRisk(families, verdicts);
    ClearedWithinCapacities(candidates, account, config, locked);
    var risk := Sum(ConstructFinal(sessions, inputs).value, ApprovedRisk);
    if risk > 0.0 {
      CapacitiesInPercent(account, config, risk);
    }
  }

  lemma {:induction false} ConstructsEach(sessions: seq<SessionFamily>, inputs: FinalInputs)
    ensures ConstructFinal(sessions, inputs).Success? <==>
            forall i :: 0 <= i < |sessions| ==> Finalize(sessions[i], inputs).Success?
    ensures ConstructFinal(sessions, inputs).Success? ==>
              && |ConstructFinal(sessions, inputs).value| == |sessions|
              && forall i :: 0 <= i < |sessions| ==>
                   ConstructFinal(sessions, inputs).value[i] == Finalize(sessions[i], inputs).value
  {
    if sessions != [] {
      var n := |sessions| - 1;
      var init := sessions[..n];
      assert forall i :: 0 <= i < n ==> sessions[i] == init[i];
      ConstructsEach(init, inputs);
    }
  }

  /** What a family that proposes a positive risk brings along: a setup with a side to
      trade, and a trade id. */
  predicate Sizable(family: Family, candidate: Candidate, inputs: FinalInputs) {
    candidate.Proposed? && candidate.riskPerUnit > 0.0 ==>
      && family in inputs.setups && family in inputs.tradeIds
      && (inputs.setups[family].direction.Long? || inputs.setups[family].direction.Short?)
  }

  lemma SizableFinalizes(families: seq<Family>, candidates: seq<Candidate>, account: AccountSnapshot,
                         config: CycleConfig, locked: bool, inputs: FinalInputs, i: nat)
    requires ValidAccount(account, config) && |families| == |candidates| && i < |families|
    requires Sizable(families[i], candidates[i], inputs)
    ensures Finalize(SessionFamily(families[i], SessionVerdicts(candidates, account, config, locked)[i]), inputs).Success?
  {
    LaterStagesNeverBlockForDailyLoss(candidates, account, config, locked, i);
    RiskEligibleIff(candidates[i], account, config);
    ClearedArePositive(candidates, account, config, locked);
  }

  /** The construction never raises: a family the session cleared proposed a positive
      risk, so its setup, its side and its trade id are there. */
  lemma ConstructionSucceeds(families: seq<Family>, candidates: seq<Candidate>, account: AccountSnapshot,
                             config: CycleConfig, locked: bool, inputs: FinalInputs)
    requires ValidAccount(account, config) && |families| == |candidates|
    requires forall i :: 0 <= i < |families| ==> Sizable(families[i], candidates[i], inputs)
    ensures ConstructFinal(SessionFamilies(families, SessionVerdicts(candidates, account, config, locked)), inputs).Success?
  {
    var sessions := SessionFamilies(families, SessionVerdicts(candidates, account, config, locked));
    forall i | 0 <= i < |sessions|
      ensures Finalize(sessions[i], inputs).Success?
    {
      SizableFinalizes(families, candidates, account, config, locked, inputs, i);
    }
    ConstructsEach(sessions, inputs);
  }

  lemma UsableSetupIsSized(session: SessionFamily, inputs: FinalInputs)
    requires session.verdict.Cleared? && session.family in inputs.setups && session.family in inputs.tradeIds
    requires inputs.setups[session.family].symbol == inputs.facts.symbol
    requires inputs.asOf <= inputs.setups[session.family].validUntil
    requires ValidRequest(RequestFor(inputs.setups[session.family], session.verdict.risk))
    ensures var setup := inputs.setups[session.family];
            var sizing := ComputeBrokerSizing(RequestFor(setup, session.verdict.risk), inputs.facts);
            Finalize(session, inputs) ==
            Success(if sizing.Actionable?
                    then ActionableFamily(Recommend(session.family, setup, inputs.tradeIds[session.family], sizing))
                    else SizingNotActionable(sizing))
  {
  }

  /** The refusals left to a setup sized with the facts it was constructed from. */
  ghost predicate SizedExactly(f: FinalFamily, setup: Setup, facts: SymbolFacts, risk: real) {
    && (f.ActionableFamily? <==>
          && !DirectionBlocked(setup.direction, facts.mode)
          && VolumeConstraintsUsable(facts)
          && setup.riskPerUnit * facts.volumeMin <= risk)
    && (!f.ActionableFamily? ==>
          && f.SizingNotActionable?
          && (f.sizing.SymbolNotTradable? || f.sizing.InvalidVolumeConstraints? || f.sizing.BelowBrokerMinimumVolume?))
    && (f.ActionableFamily? ==>
          f.recommendation.approvedRisk == setup.riskPerUnit * f.recommendation.rec.approvedVolume)
  }

  /** A cleared family whose setup was constructed in this cycle from these broker
      facts: it becomes a recommendation exactly when the direction is tradable, the
      volume constraints are usable and the minimum volume is affordable; otherwise
      sizing says which of the three failed. The recommendation is one the tracking
      store can take: on the facts' symbol, of positive volume, not yet expired. */
  lemma FreshSetupIsSized(session: SessionFamily, direction: Direction, structure: Structure, inputs: FinalInputs)
    requires direction.Long? || direction.Short?
    requires session.verdict.Cleared? && session.verdict.risk > 0.0
    requires session.family in inputs.setups && session.family in inputs.tradeIds
    requires ConstructFamily(session.family, direction, inputs.facts.symbol, inputs.asOf, Some(inputs.facts),
                             Some(structure))
             == Success(Constructed(inputs.setups[session.family]))
    ensures Finalize(session, inputs).Success?
    ensures SizedExactly(Finalize(session, inputs).value, inputs.setups[session.family], inputs.facts,
                         session.verdict.risk)
    ensures var f := Finalize(session, inputs).value;
            f.ActionableFamily? ==>
              && f.recommendation.rec.symbol == inputs.facts.symbol
              && f.recommendation.rec.approvedVolume > 0.0
              && f.recommendation.rec.signalTime == inputs.asOf < f.recommendation.rec.validUntil
  {
    var setup := inputs.setups[session.family];
    ConstructedFields(session.family, direction, inputs.facts.symbol, inputs.asOf, inputs.facts, structure, setup);
    ConstructedSetupSizes(session.family, direction, inputs.facts.symbol, inputs.asOf, inputs.facts, structure,
                          session.verdict.risk);
    UsableSetupIsSized(session, inputs);
    ApprovalWithinAllocation(session, inputs);
  }

  // ---- what each family ends as ---------------------------------------------------------

  /** How a family ends, by its session verdict, its setup and the sizing of that setup:
      the refusals in order, and the three ways to raise. */
  lemma EndsAs(session: SessionFamily, inputs: FinalInputs)
    ensures var r, cleared, known := Finalize(session, inputs), session.verdict.Cleared?, session.family in inputs.setups;
            && (r == Success(SessionNotEligible) <==> !cleared)
            && (r == Failure(NoConstructedSetup) <==> cleared && !known)
            && (cleared && known ==>
                  var setup := inputs.setups[session.family];
                  var ours, late := setup.symbol == inputs.facts.symbol, setup.validUntil < inputs.asOf;
                  var valid := (setup.direction.Long? || setup.direction.Short?) && session.verdict.risk > 0.0;
                  var sizing := ComputeBrokerSizing(
                    SizingRequest(setup.direction, setup.stopLoss, Some(setup.entryPrice), session.verdict.risk),
                    inputs.facts);
                  && (r == Success(SymbolFactsMismatch) <==> !ours)
                  && (r == Success(SetupExpired) <==> ours && late)
                  && (r == Failure(InvalidSizingRequest) <==> ours && !late && !valid)
                  && (r == Success(SizingNotActionable(sizing)) <==> ours && !late && valid && !sizing.Actionable?)
                  && (r == Failure(MissingTradeId) <==>
                        ours && !late && valid && sizing.Actionable? && session.family !in inputs.tradeIds)
                  && (r.Success? && r.value.ActionableFamily? <==>
                        ours && !late && valid && sizing.Actionable? && session.family in inputs.tradeIds))
  {
  }

  /** A recommendation says what its setup, its trade id and its sizing say. */
  lemma RecommendsSetup(session: SessionFamily, inputs: FinalInputs)
    requires Finalize(session, inputs).Success? && Finalize(session, inputs).value.ActionableFamily?
    ensures session.verdict.Cleared? && session.family in inputs.setups && session.family in inputs.tradeIds
    ensures var recommendation, setup := Finalize(session, inputs).value.recommendation, inputs.setups[session.family];
            var rec := recommendation.rec;
            var sizing := ComputeBrokerSizing(RequestFor(setup, session.verdict.risk), inputs.facts);
            && recommendation.family == session.family && rec.tradeId == inputs.tradeIds[session.family]
            && rec.symbol == setup.symbol && rec.direction == setup.direction
            && rec.entryPrice == setup.entryPrice && rec.stopLoss == setup.stopLoss
            && rec.signalTime == setup.signalTime && rec.validUntil == setup.validUntil
            && sizing == Actionable(rec.approvedVolume, recommendation.approvedRisk)
  {
  }
}
