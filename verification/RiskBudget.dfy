/** The account-risk stages between a candidate and its size: the risk gate, the
    portfolio supervisor and the session gate, from one account snapshot. */
module RiskBudget {
  import opened Common
  import opened SetupConstruction

  datatype AccountSnapshot = AccountSnapshot(
    rolloverEquity: real,
    currentEquity: real,
    realizedDailyPnl: real,
    floatingPnl: real,
    openRisk: Amount)

  datatype CycleConfig = CycleConfig(
    targetPercent: real,
    dailyPercent: real,
    perTradePercent: real,
    portfolioPercent: real)

  /** The snapshot and config models' own constraints. */
  predicate ValidAccount(account: AccountSnapshot, config: CycleConfig) {
    && account.rolloverEquity > 0.0 && account.currentEquity > 0.0
    && 0.0 < config.targetPercent <= 100.0 && 0.0 < config.dailyPercent <= 100.0
    && 0.0 < config.perTradePercent <= 100.0 && 0.0 < config.portfolioPercent <= 100.0
  }

  // ---- account arithmetic ----------------------------------------------------

  function Share(equity: real, percent: real): real { equity * (percent / 100.0) }

  function DailyLossLimit(account: AccountSnapshot, config: CycleConfig): real {
    Share(account.rolloverEquity, config.dailyPercent)
  }

  function LossConsumed(account: AccountSnapshot): real {
    Max(0.0, -(account.realizedDailyPnl + account.floatingPnl))
  }

  function RemainingDailyLoss(account: AccountSnapshot, config: CycleConfig): real {
    Max(0.0, DailyLossLimit(account, config) - LossConsumed(account))
  }

  /** The shared daily capacity of the risk gate and of the portfolio supervisor. */
  function DailyCapacity(account: AccountSnapshot, config: CycleConfig): real {
    Max(0.0, RemainingDailyLoss(account, config) - account.openRisk)
  }

  function PortfolioBudget(account: AccountSnapshot, config: CycleConfig): real {
    Share(account.currentEquity, config.portfolioPercent)
  }

  function PortfolioCapacity(account: AccountSnapshot, config: CycleConfig): real {
    Max(0.0, PortfolioBudget(account, config) - account.openRisk)
  }

  function PerTradeBudget(account: AccountSnapshot, config: CycleConfig): real {
    Share(account.rolloverEquity, config.perTradePercent)
  }

  /** What is left of both limits bounds what may be added to the risk already
      taken. */
  lemma CapacityLeavesLimits(account: AccountSnapshot, config: CycleConfig, added: real)
    requires added > 0.0
    ensures added <= DailyCapacity(account, config) <==>
            LossConsumed(account) + account.openRisk + added <= DailyLossLimit(account, config)
    ensures added <= PortfolioCapacity(account, config) <==>
            account.openRisk + added <= PortfolioBudget(account, config)
  {
  }

  // ---- risk gate ---------------------------------------------------------------

  datatype RiskBlock =
    | PolicyNotEligible
    | ZeroOrNegativeRiskPerUnit
    | DailyLossLimitReached
    | InsufficientRemainingRiskBudget

  /** A family as policy left it, with the candidate's risk per unit. */
  datatype Candidate = PolicyBlocked | Proposed(riskPerUnit: real)

  datatype RiskVerdict =
    | BlockedByRisk(reasons: seq<RiskBlock>)
    | RiskEligible(maxIndividualRisk: real, recommendedUnits: real)

  function ReviewRisk(candidate: Candidate, account: AccountSnapshot, config: CycleConfig): RiskVerdict {
    if candidate.PolicyBlocked? then BlockedByRisk([PolicyNotEligible])
    else
      var unit := if candidate.riskPerUnit <= 0.0 then [ZeroOrNegativeRiskPerUnit] else [];
      var budget :=
        if RemainingDailyLoss(account, config) <= 0.0 then [DailyLossLimitReached]
        else if DailyCapacity(account, config) <= 0.0 then [InsufficientRemainingRiskBudget]
        else [];
      if unit + budget != [] then BlockedByRisk(unit + budget)
      else
        var most := Min(PerTradeBudget(account, config), DailyCapacity(account, config));
        RiskEligible(most, most / candidate.riskPerUnit)
  }

  /** The verdict model's own constraint, needed for the result to be built at all. */
  predicate SoundVerdict(v: RiskVerdict) {
    if v.RiskEligible? then v.maxIndividualRisk > 0.0 && v.recommendedUnits > 0.0 else v.reasons != []
  }

  lemma SharePositive(equity: real, percent: real)
    requires equity > 0.0 && percent > 0.0
    ensures Share(equity, percent) > 0.0
  {
    assert percent / 100.0 > 0.0;
  }

  lemma QuotientPositive(a: real, b: real)
    requires a > 0.0 && b > 0.0
    ensures a / b > 0.0
  {
    assert (a / b) * b == a;
  }

  /** A verdict can always be built, and eligibility means exactly a usable candidate
      and daily capacity left. */
  lemma RiskEligibleIff(candidate: Candidate, account: AccountSnapshot, config: CycleConfig)
    requires ValidAccount(account, config)
    ensures var v := ReviewRisk(candidate, account, config);
            && SoundVerdict(v)
            && (v.RiskEligible? <==>
                  && candidate.Proposed? && candidate.riskPerUnit > 0.0
                  && LossConsumed(account) + account.openRisk < DailyLossLimit(account, config))
            && (v.RiskEligible? ==> v.maxIndividualRisk <= PerTradeBudget(account, config)
                                    && v.maxIndividualRisk <= DailyCapacity(account, config))
  {
    SharePositive(account.rolloverEquity, config.perTradePercent);
    var v := ReviewRisk(candidate, account, config);
    if v.RiskEligible? {
      QuotientPositive(v.maxIndividualRisk, candidate.riskPerUnit);
    }
  }

  // ---- portfolio supervisor ------------------------------------------------------

  datatype PortfolioBlock = RiskNotEligible | DailyRiskCapacityExhausted | GlobalPortfolioCapReached

  datatype PortfolioVerdict = BlockedByPortfolio(reason: PortfolioBlock) | Allocated(risk: real)

  function Requested(v: RiskVerdict): real {
    if v.RiskEligible? then v.maxIndividualRisk else 0.0
  }

  predicate IsRiskEligible(v: RiskVerdict) { v.RiskEligible? }

  function TotalRequested(verdicts: seq<RiskVerdict>): real {
    Sum(Filter(verdicts, IsRiskEligible), Requested)
  }

  function Allocate(v: RiskVerdict, daily: real, portfolio: real, total: real): PortfolioVerdict {
    if v.BlockedByRisk? then BlockedByPortfolio(RiskNotEligible)
    else if daily <= 0.0 then BlockedByPortfolio(DailyRiskCapacityExhausted)
    else if portfolio <= 0.0 then BlockedByPortfolio(GlobalPortfolioCapReached)
    else if total <= Min(daily, portfolio) then Allocated(v.maxIndividualRisk)
    else Allocated(v.maxIndividualRisk * (Min(daily, portfolio) / total))
  }

  function Allocator(daily: real, portfolio: real, total: real): RiskVerdict -> PortfolioVerdict {
    (v: RiskVerdict) => Allocate(v, daily, portfolio, total)
  }

  function ReviewPortfolio(verdicts: seq<RiskVerdict>, daily: real, portfolio: real): seq<PortfolioVerdict> {
    Map(verdicts, Allocator(daily, portfolio, TotalRequested(verdicts)))
  }

  function AllocatedRisk(v: PortfolioVerdict): real {
    if v.Allocated? then v.risk else 0.0
  }

  ghost predicate AllSound(verdicts: seq<RiskVerdict>) {
    forall v :: v in verdicts ==> SoundVerdict(v)
  }

  lemma TotalIsSum(verdicts: seq<RiskVerdict>)
    ensures TotalRequested(verdicts) == Sum(verdicts, Requested)
  {
    SumFilter(verdicts, IsRiskEligible, Requested, Requested);
  }

  lemma {:induction false} RequestsWithinTotal(verdicts: seq<RiskVerdict>)
    requires AllSound(verdicts)
    ensures Sum(verdicts, Requested) >= 0.0
    ensures forall v :: v in verdicts ==> Requested(v) <= Sum(verdicts, Requested)
  {
    if verdicts != [] {
      var init, last := verdicts[..|verdicts| - 1], verdicts[|verdicts| - 1];
      assert last in verdicts;
      RequestsWithinTotal(init);
    }
  }

  /** The share of every request that is granted. */
  function Factor(daily: real, portfolio: real, total: real): real {
    if daily <= 0.0 || portfolio <= 0.0 then 0.0
    else if total <= Min(daily, portfolio) then 1.0
    else Min(daily, portfolio) / total
  }

  lemma ProperFraction(a: real, b: real)
    requires 0.0 < a < b
    ensures 0.0 < a / b < 1.0 && (a / b) * b == a
  {
    var q := a / b;
    assert q * b == a;
    if q >= 1.0 {
      ScaleOrder(1.0, q, b, b, a);
    }
  }

  lemma FactorBounds(daily: real, portfolio: real, total: real, handed: real)
    requires handed == Factor(daily, portfolio, total) * total
    ensures 0.0 <= Factor(daily, portfolio, total) <= 1.0
    ensures daily > 0.0 && portfolio > 0.0 ==> Factor(daily, portfolio, total) > 0.0
    ensures total >= 0.0 ==>
              handed == if daily > 0.0 && portfolio > 0.0 then Min(total, Min(daily, portfolio)) else 0.0
  {
    if daily > 0.0 && portfolio > 0.0 && total > Min(daily, portfolio) {
      ProperFraction(Min(daily, portfolio), total);
    }
  }

  /** Scaling hands out exactly the lesser of what is asked for and what both
      capacities leave, or nothing at all when either is exhausted. */
  lemma HandsOutExactly(verdicts: seq<RiskVerdict>, daily: real, portfolio: real)
    requires AllSound(verdicts)
    ensures Sum(ReviewPortfolio(verdicts, daily, portfolio), AllocatedRisk) ==
            if daily > 0.0 && portfolio > 0.0 then Min(TotalRequested(verdicts), Min(daily, portfolio)) else 0.0
  {
    var total := TotalRequested(verdicts);
    TotalIsSum(verdicts);
    RequestsWithinTotal(verdicts);
    forall v | v in verdicts
      ensures AllocatedRisk(Allocator(daily, portfolio, total)(v)) == Factor(daily, portfolio, total) * Requested(v)
    {
      GrantIsShare(v, daily, portfolio, total);
    }
    var handed := GrantsScale(verdicts, Allocator(daily, portfolio, total), Factor(daily, portfolio, total), total);
    FactorBounds(daily, portfolio, total, handed);
  }

  function Grant(factor: real): RiskVerdict -> real {
    (v: RiskVerdict) => factor * Requested(v)
  }

  lemma GrantsSum(verdicts: seq<RiskVerdict>, factor: real)
    ensures Sum(verdicts, Grant(factor)) == factor * Sum(verdicts, Requested)
  {
    SumScale(verdicts, Requested, Grant(factor), factor);
  }

  lemma GrantsScale(verdicts: seq<RiskVerdict>, allocate: RiskVerdict -> PortfolioVerdict, factor: real, total: real)
    returns (handed: real)
    requires forall v :: v in verdicts ==> AllocatedRisk(allocate(v)) == factor * Requested(v)
    requires total == Sum(verdicts, Requested)
    ensures handed == Sum(Map(verdicts, allocate), AllocatedRisk)
    ensures handed == factor * total
  {
    SumMap(verdicts, allocate, AllocatedRisk, Grant(factor));
    GrantsSum(verdicts, factor);
    handed := Sum(Map(verdicts, allocate), AllocatedRisk);
  }

  lemma GrantIsShare(v: RiskVerdict, daily: real, portfolio: real, total: real)
    ensures AllocatedRisk(Allocate(v, daily, portfolio, total)) == Factor(daily, portfolio, total) * Requested(v)
  {
  }

  /** Nobody is favoured: each grant is the same share of its request, positive and
      never above it, so any two grants stand in the ratio of their requests. */
  lemma Proportional(verdicts: seq<RiskVerdict>, daily: real, portfolio: real, i: nat, j: nat)
    requires AllSound(verdicts) && i < |verdicts| && j < |verdicts|
    ensures var granted := ReviewPortfolio(verdicts, daily, portfolio);
            && (granted[i].Allocated? <==> verdicts[i].RiskEligible? && daily > 0.0 && portfolio > 0.0)
            && (granted[i].Allocated? ==> 0.0 < granted[i].risk <= verdicts[i].maxIndividualRisk)
            && AllocatedRisk(granted[i]) * Requested(verdicts[j]) == AllocatedRisk(granted[j]) * Requested(verdicts[i])
  {
    assert verdicts[i] in verdicts;
    var total := TotalRequested(verdicts);
    var factor := Factor(daily, portfolio, total);
    FactorBounds(daily, portfolio, total, factor * total);
    var granted := ReviewPortfolio(verdicts, daily, portfolio);
    GrantIsShare(verdicts[i], daily, portfolio, total);
    GrantIsShare(verdicts[j], daily, portfolio, total);
    CrossProducts(factor, Requested(verdicts[i]), Requested(verdicts[j]));
    if granted[i].Allocated? {
      PartOf(factor, verdicts[i].maxIndividualRisk);
    }
  }

  lemma CrossProducts(factor: real, a: real, b: real)
    ensures (factor * a) * b == (factor * b) * a
  {
  }

  lemma PartOf(factor: real, a: real)
    requires 0.0 < factor <= 1.0 && a > 0.0
    ensures 0.0 < factor * a <= a
  {
  }

  // ---- session gate ------------------------------------------------------------------

  datatype SessionStatus = Locked | LossLimitReached | TargetReached | Active

  datatype SessionVerdict =
    | PortfolioNotEligible
    | BlockedBySession(status: SessionStatus)
    | Cleared(risk: real)

  function Status(account: AccountSnapshot, config: CycleConfig, locked: bool): SessionStatus {
    if locked then Locked
    else if RemainingDailyLoss(account, config) <= 0.0 then LossLimitReached
    else if account.currentEquity - account.rolloverEquity >= Share(account.rolloverEquity, config.targetPercent)
    then TargetReached
    else Active
  }

  function ReviewSession(v: PortfolioVerdict, status: SessionStatus): SessionVerdict {
    if v.BlockedByPortfolio? then PortfolioNotEligible
    else if status.Active? then Cleared(v.risk)
    else BlockedBySession(status)
  }

  function ClearedRisk(v: SessionVerdict): real {
    if v.Cleared? then v.risk else 0.0
  }

  // ---- one family past every stage --------------------------------------------------------

  /** The loss taken and the risk open leave some of the daily limit. */
  predicate DailyRoom(account: AccountSnapshot, config: CycleConfig) {
    LossConsumed(account) + account.openRisk < DailyLossLimit(account, config)
  }

  predicate PortfolioRoom(account: AccountSnapshot, config: CycleConfig) {
    account.openRisk < PortfolioBudget(account, config)
  }

  /** Not locked, and the day's target not reached. */
  predicate SessionOpen(account: AccountSnapshot, config: CycleConfig, locked: bool) {
    !locked && account.currentEquity - account.rolloverEquity < Share(account.rolloverEquity, config.targetPercent)
  }

  /** Which of the three stages stops a usable candidate is a question about the account
      alone, whatever the other families request. */
  lemma StagesByConditions(candidate: Candidate, account: AccountSnapshot, config: CycleConfig, locked: bool, total: real)
    requires ValidAccount(account, config) && candidate.Proposed? && candidate.riskPerUnit > 0.0
    ensures var risk := ReviewRisk(candidate, account, config);
            var portfolio := Allocate(risk, DailyCapacity(account, config), PortfolioCapacity(account, config), total);
            var session := ReviewSession(portfolio, Status(account, config, locked));
            && (risk.RiskEligible? <==> DailyRoom(account, config))
            && (risk.BlockedByRisk? ==> risk.reasons != [] && risk.reasons != [PolicyNotEligible])
            && (portfolio.Allocated? <==> DailyRoom(account, config) && PortfolioRoom(account, config))
            && (portfolio.BlockedByPortfolio? && risk.RiskEligible? ==> portfolio.reason.GlobalPortfolioCapReached?)
            && (portfolio.BlockedByPortfolio? && risk.BlockedByRisk? ==> portfolio.reason.RiskNotEligible?)
            && (portfolio.Allocated? ==> if SessionOpen(account, config, locked) then session.Cleared?
                                         else session.BlockedBySession?)
            && (portfolio.BlockedByPortfolio? ==> session.PortfolioNotEligible?)
  {
    RiskEligibleIff(candidate, account, config);
    var risk := ReviewRisk(candidate, account, config);
    if risk.BlockedByRisk? {
      assert risk.reasons[0] != PolicyNotEligible;
    }
  }

  // ---- the three stages together -------------------------------------------------------

  function RiskGateFor(account: AccountSnapshot, config: CycleConfig): Candidate -> RiskVerdict {
    (c: Candidate) => ReviewRisk(c, account, config)
  }

  function SessionGateFor(status: SessionStatus): PortfolioVerdict -> SessionVerdict {
    (v: PortfolioVerdict) => ReviewSession(v, status)
  }

  function RiskVerdicts(candidates: seq<Candidate>, account: AccountSnapshot, config: CycleConfig): seq<RiskVerdict> {
    Map(candidates, RiskGateFor(account, config))
  }

  function PortfolioVerdicts(candidates: seq<Candidate>, account: AccountSnapshot, config: CycleConfig):
    seq<PortfolioVerdict>
  {
    ReviewPortfolio(RiskVerdicts(candidates, account, config),
                    DailyCapacity(account, config), PortfolioCapacity(account, config))
  }

  function SessionVerdicts(candidates: seq<Candidate>, account: AccountSnapshot, config: CycleConfig, locked: bool):
    seq<SessionVerdict>
  {
    Map(PortfolioVerdicts(candidates, account, config), SessionGateFor(Status(account, config, locked)))
  }

  lemma RiskVerdictsSound(candidates: seq<Candidate>, account: AccountSnapshot, config: CycleConfig)
    requires ValidAccount(account, config)
    ensures AllSound(RiskVerdicts(candidates, account, config))
  {
    var verdicts := RiskVerdicts(candidates, account, config);
    forall v | v in verdicts
      ensures SoundVerdict(v)
    {
      var i :| 0 <= i < |candidates| && v == ReviewRisk(candidates[i], account, config);
      RiskEligibleIff(candidates[i], account, config);
    }
  }

  /** The daily capacity was already checked by the risk gate from the same snapshot,
      so neither later stage ever blocks a family for it: past the risk gate only
      the portfolio cap, an operator lock or a reached target can. */
  lemma LaterStagesNeverBlockForDailyLoss(candidates: seq<Candidate>, account: AccountSnapshot, config: CycleConfig,
                                          locked: bool, i: nat)
    requires ValidAccount(account, config) && i < |candidates|
    ensures PortfolioVerdicts(candidates, account, config)[i] != BlockedByPortfolio(DailyRiskCapacityExhausted)
    ensures SessionVerdicts(candidates, account, config, locked)[i] != BlockedBySession(LossLimitReached)
    ensures SessionVerdicts(candidates, account, config, locked)[i].Cleared? <==>
              && RiskVerdicts(candidates, account, config)[i].RiskEligible?
              && account.openRisk < PortfolioBudget(account, config)
              && !locked
              && account.currentEquity - account.rolloverEquity < Share(account.rolloverEquity, config.targetPercent)
  {
    RiskEligibleIff(candidates[i], account, config);
    RiskVerdictsSound(candidates, account, config);
    Proportional(RiskVerdicts(candidates, account, config), DailyCapacity(account, config),
                 PortfolioCapacity(account, config), i, i);
  }

  /** The session gate passes allocations on unscaled, so what it clears stays within
      both remaining capacities. */
  lemma ClearedWithinCapacities(candidates: seq<Candidate>, account: AccountSnapshot, config: CycleConfig, locked: bool)
    requires ValidAccount(account, config)
    ensures var cleared := Sum(SessionVerdicts(candidates, account, config, locked), ClearedRisk);
            cleared <= DailyCapacity(account, config) && cleared <= PortfolioCapacity(account, config)
  {
    var risk := RiskVerdicts(candidates, account, config);
    var daily, portfolio := DailyCapacity(account, config), PortfolioCapacity(account, config);
    var status := Status(account, config, locked);
    RiskVerdictsSound(candidates, account, config);
    HandsOutExactly(risk, daily, portfolio);
    var allocations := ReviewPortfolio(risk, daily, portfolio);
    AllocationsNonnegative(risk, daily, portfolio);
    var through := (v: PortfolioVerdict) => ClearedRisk(ReviewSession(v, status));
    SumMap(allocations, SessionGateFor(status), ClearedRisk, through);
    SumMonotone(allocations, through, AllocatedRisk);
  }

  lemma AllocationsNonnegative(verdicts: seq<RiskVerdict>, daily: real, portfolio: real)
    requires AllSound(verdicts)
    ensures forall v :: v in ReviewPortfolio(verdicts, daily, portfolio) ==> AllocatedRisk(v) >= 0.0
  {
    var granted := ReviewPortfolio(verdicts, daily, portfolio);
    forall v | v in granted
      ensures AllocatedRisk(v) >= 0.0
    {
      var i :| 0 <= i < |granted| && granted[i] == v;
      Proportional(verdicts, daily, portfolio, i, i);
    }
  }

  // ---- in the snapshot's own fields ------------------------------------------------------

  lemma PercentOf(equity: real, percent: real)
    ensures 100.0 * Share(equity, percent) == equity * percent
  {
    var part := percent / 100.0;
    assert part * 100.0 == percent;
    assert equity * percent == (equity * part) * 100.0;
  }

  /** What stops a family past its own setup, in percent of equity: the day's loss so far,
      realized and floating, with the risk still open against the opening equity; the risk
      open against the current equity; the gain of the day against its target. */
  lemma RoomsInPercent(account: AccountSnapshot, config: CycleConfig, locked: bool)
    ensures DailyRoom(account, config) <==>
              && 100.0 * account.openRisk < account.rolloverEquity * config.dailyPercent
              && 100.0 * (account.openRisk - account.realizedDailyPnl - account.floatingPnl)
                 < account.rolloverEquity * config.dailyPercent
    ensures PortfolioRoom(account, config) <==>
            100.0 * account.openRisk < account.currentEquity * config.portfolioPercent
    ensures SessionOpen(account, config, locked) <==>
              && !locked
              && 100.0 * (account.currentEquity - account.rolloverEquity) < account.rolloverEquity * config.targetPercent
  {
    PercentOf(account.rolloverEquity, config.dailyPercent);
    PercentOf(account.currentEquity, config.portfolioPercent);
    PercentOf(account.rolloverEquity, config.targetPercent);
  }

  /** Risk `added` to what is open, and to the loss already taken, stays within the day's
      and the portfolio's percentage of equity. */
  predicate WithinLimits(account: AccountSnapshot, config: CycleConfig, added: real) {
    && 100.0 * (account.openRisk + added) <= account.rolloverEquity * config.dailyPercent
    && 100.0 * (account.openRisk + added - account.realizedDailyPnl - account.floatingPnl)
       <= account.rolloverEquity * config.dailyPercent
    && 100.0 * (account.openRisk + added) <= account.currentEquity * config.portfolioPercent
  }

  lemma CapacitiesInPercent(account: AccountSnapshot, config: CycleConfig, added: real)
    requires added > 0.0
    ensures added <= DailyCapacity(account, config) && added <= PortfolioCapacity(account, config) <==>
            WithinLimits(account, config, added)
  {
    CapacityLeavesLimits(account, config, added);
    PercentOf(account.rolloverEquity, config.dailyPercent);
    PercentOf(account.currentEquity, config.portfolioPercent);
  }

  /** The most one family may risk: its percentage of the opening equity, or what the
      day's limit leaves if that is less; and that many units of its setup. */
  lemma EligibleForMost(candidate: Candidate, account: AccountSnapshot, config: CycleConfig)
    requires ValidAccount(account, config) && ReviewRisk(candidate, account, config).RiskEligible?
    ensures var v := ReviewRisk(candidate, account, config);
            var perTrade, left := account.rolloverEquity * config.perTradePercent,
                                  account.rolloverEquity * config.dailyPercent - 100.0 * LossConsumed(account)
                                  - 100.0 * account.openRisk;
            && 100.0 * v.maxIndividualRisk == (if perTrade <= left then perTrade else left)
            && v.recommendedUnits * candidate.riskPerUnit == v.maxIndividualRisk
            && LossConsumed(account) == if account.realizedDailyPnl + account.floatingPnl < 0.0
                                        then -account.realizedDailyPnl - account.floatingPnl else 0.0
  {
    PercentOf(account.rolloverEquity, config.perTradePercent);
    PercentOf(account.rolloverEquity, config.dailyPercent);
    var v := ReviewRisk(candidate, account, config);
    QuotientTimes(v.maxIndividualRisk, candidate.riskPerUnit);
  }

  lemma RoomByLimit(account: AccountSnapshot, config: CycleConfig, limit: real)
    requires limit == account.rolloverEquity * config.dailyPercent
    ensures RemainingDailyLoss(account, config) <= 0.0 <==> 100.0 * LossConsumed(account) >= limit
    ensures DailyCapacity(account, config) <= 0.0 <==> 100.0 * (LossConsumed(account) + account.openRisk) >= limit
  {
    PercentOf(account.rolloverEquity, config.dailyPercent);
  }

  /** The reasons of a candidate, by whether its unit risk and the day leave anything. */
  lemma ReasonsListed(candidate: Candidate, account: AccountSnapshot, config: CycleConfig)
    requires candidate.Proposed? && ReviewRisk(candidate, account, config).BlockedByRisk?
    ensures var reasons := ReviewRisk(candidate, account, config).reasons;
            var spent, full := RemainingDailyLoss(account, config) <= 0.0, DailyCapacity(account, config) <= 0.0;
            reasons == (if candidate.riskPerUnit <= 0.0 then [ZeroOrNegativeRiskPerUnit] else []) +
                       (if spent then [DailyLossLimitReached] else if full then [InsufficientRemainingRiskBudget] else [])
  {
  }

  /** Which reasons the risk gate gives, in order. */
  lemma RiskReasons(candidate: Candidate, account: AccountSnapshot, config: CycleConfig, limit: real)
    requires ReviewRisk(candidate, account, config).BlockedByRisk?
    requires limit == account.rolloverEquity * config.dailyPercent
    ensures var reasons := ReviewRisk(candidate, account, config).reasons;
            && (candidate.PolicyBlocked? ==> reasons == [PolicyNotEligible])
            && (candidate.Proposed? ==>
                  && PolicyNotEligible !in reasons
                  && (ZeroOrNegativeRiskPerUnit in reasons <==> candidate.riskPerUnit <= 0.0)
                  && (DailyLossLimitReached in reasons <==> 100.0 * LossConsumed(account) >= limit)
                  && (InsufficientRemainingRiskBudget in reasons <==>
                        100.0 * LossConsumed(account) < limit <= 100.0 * (LossConsumed(account) + account.openRisk))
                  && (ZeroOrNegativeRiskPerUnit in reasons ==> reasons[0].ZeroOrNegativeRiskPerUnit?)
                  && |reasons| <= 2)
  {
    RoomByLimit(account, config, limit);
    if candidate.Proposed? {
      ReasonsListed(candidate, account, config);
    }
  }

  /** The session's answer to an allocation: locked before loss limit before target. */
  lemma SessionReasons(account: AccountSnapshot, config: CycleConfig, locked: bool)
    ensures var status, limit := Status(account, config, locked), account.rolloverEquity * config.dailyPercent;
            var reached := 100.0 * LossConsumed(account) >= limit;
            && (status.Locked? <==> locked)
            && (status.LossLimitReached? <==> !locked && reached)
            && (status.TargetReached? <==>
                  && !locked && !reached
                  && 100.0 * (account.currentEquity - account.rolloverEquity) >= account.rolloverEquity * config.targetPercent)
  {
    PercentOf(account.rolloverEquity, config.dailyPercent);
    PercentOf(account.rolloverEquity, config.targetPercent);
  }
}
