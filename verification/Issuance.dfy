/** What an operator gets to see of one cycle: each family surfaces once, as a
    recommendation exactly when its tracking record was stored, otherwise with the
    stage and cause that stopped it. Only a cycle that lacks account facts is silent
    about a family. */
module Issuance {
  import opened Common
  import opened Strategies
  import opened FinalRecommendations
  import opened RuntimeCycle
  import opened Pipeline
  import opened NoTradeWalk
  import Tracker

  // ---- trade ids ------------------------------------------------------------------

  function FamilyName(f: Family): string {
    match f
    case TrendFollowing => "TREND_FOLLOWING"
    case MeanReversion => "MEAN_REVERSION"
    case Breakout => "BREAKOUT"
    case EventDriven => "EVENT_DRIVEN"
  }

  function DeriveTradeId(cycleId: string, f: Family): string { cycleId + "__" + FamilyName(f) }

  /** A cycle id may itself contain the separator, yet no two (cycle, family) pairs
      share a trade id: no family name is a tail of another. */
  lemma TradeIdsNeverCollide(a: string, f: Family, b: string, g: Family)
    requires DeriveTradeId(a, f) == DeriveTradeId(b, g)
    ensures a == b && f == g
  {
    var left, right := DeriveTradeId(a, f), DeriveTradeId(b, g);
    var n := |left|;
    Tail(a, f);
    Tail(b, g);
    assert left[n - 1] == right[n - 1] && left[n - 2] == right[n - 2];
    assert a == left[..|a|] && b == right[..|b|];
  }

  lemma Tail(a: string, f: Family)
    ensures var id, name := DeriveTradeId(a, f), FamilyName(f);
            && |name| >= 2 && |id| == |a| + 2 + |name|
            && id[|id| - 1] == name[|name| - 1] && id[|id| - 2] == name[|name| - 2]
  {
  }

  /** Recommendations of a cycle whose id was never used before carry fresh trade ids. */
  lemma NewCycleIdsAreFresh(store: Store, cycleId: string, f: Family)
    requires forall id :: id in store ==> exists earlier, g :: earlier != cycleId && id == DeriveTradeId(earlier, g)
    ensures DeriveTradeId(cycleId, f) !in store
  {
    if DeriveTradeId(cycleId, f) in store {
      var earlier, g :| earlier != cycleId && DeriveTradeId(cycleId, f) == DeriveTradeId(earlier, g);
      TradeIdsNeverCollide(cycleId, f, earlier, g);
    }
  }

  // ---- issuance ------------------------------------------------------------------------

  predicate Issued(outcome: Issuance, tradeId: string) {
    outcome.tradeId == tradeId && outcome.creation.Created? && outcome.trackingPersisted
  }

  predicate IsIssuable(tradeId: string, issuances: seq<Issuance>) {
    exists outcome :: outcome in issuances && Issued(outcome, tradeId)
  }

  /** A recommendation may be shown as issued exactly when some outcome under its trade id
      was created and its tracking written; provenance does not matter. */
  lemma IssuableIs(tradeId: string, issuances: seq<Issuance>)
    ensures IsIssuable(tradeId, issuances) <==>
            exists provenance ::
              Issuance(tradeId, Created, true, provenance) in issuances
  {
    if IsIssuable(tradeId, issuances) {
      var outcome :| outcome in issuances && Issued(outcome, tradeId);
      assert outcome == Issuance(tradeId, Created, true, outcome.provenancePersisted);
    }
    if provenance :| Issuance(tradeId, Created, true, provenance) in issuances {
      assert Issued(Issuance(tradeId, Created, true, provenance), tradeId);
    }
  }

  function FirstOutcome(tradeId: string, issuances: seq<Issuance>): Option<Issuance> {
    if issuances == [] then None
    else if issuances[0].tradeId == tradeId then Some(issuances[0])
    else FirstOutcome(tradeId, issuances[1..])
  }

  function DeriveIssuanceReason(tradeId: string, guard: Option<GuardOutcome>, issuances: seq<Issuance>):
    Result<Cause, ApplicationFault>
  {
    if guard.Some? && !guard.value.Allowed? then Success(GuardCause(guard.value))
    else
      var outcome := FirstOutcome(tradeId, issuances);
      if outcome.None? then Failure(NoIssuanceCause)
      else if outcome.value.creation.Created? then Success(TrackingPersistenceFailed)
      else Success(CreationCause(outcome.value.creation))
  }

  datatype Surfaced = AsRecommendation(recommendation: FinalRecommendation) | AsNoTrade(reason: NoTrade)

  /** Nothing where the walk finds no reason and final construction has no entry for the
      family. */
  function Surface(t: FamilyTrail, guard: Option<GuardOutcome>, issuances: seq<Issuance>):
    Result<Option<Surfaced>, ApplicationFault>
  {
    var reason :- DeriveNoTrade(t);
    if reason.Some? then Success(Some(AsNoTrade(reason.value)))
    else if t.final.None? then Success(None)
    else if !t.final.value.ActionableFamily? then Failure(NoReasonForBlocked)
    else
      var recommendation := t.final.value.recommendation;
      if IsIssuable(recommendation.rec.tradeId, issuances) then Success(Some(AsRecommendation(recommendation)))
      else
        var cause :- DeriveIssuanceReason(recommendation.rec.tradeId, guard, issuances);
        Success(Some(AsNoTrade(NoTrade(t.family, IssuanceStage, cause))))
  }

  predicate Skipped(t: FamilyTrail) { DeriveNoTrade(t) == Success(None) && t.final.None? }

  predicate Mapped(t: FamilyTrail) { !Skipped(t) }

  /** What is shown of one cycle: the two lists, each in the order of the families. */
  datatype Shown = Shown(recommendations: seq<FinalRecommendation>, reasons: seq<NoTrade>)

  function Show(shown: Shown, one: Option<Surfaced>): Shown {
    match one
    case None => shown
    case Some(AsRecommendation(f)) => shown.(recommendations := shown.recommendations + [f])
    case Some(AsNoTrade(n)) => shown.(reasons := shown.reasons + [n])
  }

  /** The order-preserving selection of either kind; the first family that raises ends
      the mapping. */
  function ShowAll(trails: seq<FamilyTrail>, guard: Option<GuardOutcome>, issuances: seq<Issuance>):
    Result<Shown, ApplicationFault>
  {
    if trails == [] then Success(Shown([], []))
    else
      var n := |trails| - 1;
      var earlier :- ShowAll(trails[..n], guard, issuances);
      var last :- Surface(trails[n], guard, issuances);
      Success(Show(earlier, last))
  }

  lemma {:induction false} FailureStays(trails: seq<FamilyTrail>, guard: Option<GuardOutcome>, issuances: seq<Issuance>,
                                        k: nat)
    requires k <= |trails| && ShowAll(trails[..k], guard, issuances).Failure?
    ensures ShowAll(trails, guard, issuances) == ShowAll(trails[..k], guard, issuances)
  {
    if k == |trails| {
      assert trails[..k] == trails;
    } else {
      assert trails[..|trails| - 1][..k] == trails[..k];
      FailureStays(trails[..|trails| - 1], guard, issuances, k);
    }
  }

  /** One pass over the families, in order, filling two lists. */
  method MapRecommendations(trails: seq<FamilyTrail>, guard: Option<GuardOutcome>, issuances: seq<Issuance>)
    returns (r: Result<Shown, ApplicationFault>)
    ensures r == ShowAll(trails, guard, issuances)
  {
    var recommendations: seq<FinalRecommendation> := [];
    var reasons: seq<NoTrade> := [];
    for i := 0 to |trails|
      invariant ShowAll(trails[..i], guard, issuances) == Success(Shown(recommendations, reasons))
    {
      assert trails[..i + 1][..i] == trails[..i];
      var surfaced := Surface(trails[i], guard, issuances);
      if surfaced.Failure? {
        FailureStays(trails, guard, issuances, i + 1);
        return Failure(surfaced.error);
      }
      if surfaced.value.Some? {
        match surfaced.value.value
        case AsRecommendation(f) => recommendations := recommendations + [f];
        case AsNoTrade(n) => reasons := reasons + [n];
      }
    }
    assert trails[..|trails|] == trails;
    return Success(Shown(recommendations, reasons));
  }

  // ---- every family once ------------------------------------------------------------------

  function TrailFamily(t: FamilyTrail): Family { t.family }

  function RecommendedFamily(f: FinalRecommendation): Family { f.family }

  function RefusedFamily(n: NoTrade): Family { n.family }

  /** How often each family is shown, over both lists. */
  function FamiliesShown(shown: Shown): multiset<Family> {
    multiset(Map(shown.recommendations, RecommendedFamily)) + multiset(Map(shown.reasons, RefusedFamily))
  }

  /** A recommendation is for the family it was reached by. */
  predicate OwnRecommendation(t: FamilyTrail) {
    IsActionable(t) ==> t.final.value.recommendation.family == t.family
  }

  lemma ShowOne(shown: Shown, one: Surfaced, family: Family)
    requires one.AsRecommendation? ==> one.recommendation.family == family
    requires one.AsNoTrade? ==> one.reason.family == family
    ensures FamiliesShown(Show(shown, Some(one))) == FamiliesShown(shown) + multiset{family}
  {
    match one
    case AsRecommendation(f) =>
      assert Map(shown.recommendations + [f], RecommendedFamily) == Map(shown.recommendations, RecommendedFamily) + [family];
    case AsNoTrade(n) =>
      assert Map(shown.reasons + [n], RefusedFamily) == Map(shown.reasons, RefusedFamily) + [family];
  }

  lemma ReasonIsOwn(t: FamilyTrail)
    requires DeriveNoTrade(t).Success? && DeriveNoTrade(t).value.Some?
    ensures DeriveNoTrade(t).value.value.family == t.family
  {
  }

  /** A family surfaces unless it is skipped, and under its own name. */
  lemma SurfacesOwnFamily(t: FamilyTrail, guard: Option<GuardOutcome>, issuances: seq<Issuance>)
    requires Surface(t, guard, issuances).Success?
    ensures var one := Surface(t, guard, issuances).value;
            && (one.Some? <==> Mapped(t))
            && (one.Some? && one.value.AsNoTrade? ==> one.value.reason.family == t.family)
            && (one.Some? && one.value.AsRecommendation? ==>
                  IsActionable(t) && one.value.recommendation == t.final.value.recommendation)
  {
    if DeriveNoTrade(t).value.Some? {
      ReasonIsOwn(t);
    }
  }

  lemma ShowNext(shown: Shown, t: FamilyTrail, guard: Option<GuardOutcome>, issuances: seq<Issuance>)
    requires Surface(t, guard, issuances).Success? && OwnRecommendation(t)
    ensures FamiliesShown(Show(shown, Surface(t, guard, issuances).value)) ==
            FamiliesShown(shown) + if Mapped(t) then multiset{t.family} else multiset{}
  {
    SurfacesOwnFamily(t, guard, issuances);
    var one := Surface(t, guard, issuances).value;
    if one.Some? {
      ShowOne(shown, one.value, t.family);
    }
  }

  lemma KeptFamilies(trails: seq<FamilyTrail>, keep: FamilyTrail -> bool)
    requires trails != []
    ensures var last := trails[|trails| - 1];
            Map(Filter(trails, keep), TrailFamily) ==
            Map(Filter(trails[..|trails| - 1], keep), TrailFamily) + if keep(last) then [last.family] else []
  {
  }

  /** The families shown are exactly the families walked that are not skipped, with
      multiplicity. */
  lemma {:induction false} ShownAreWalked(trails: seq<FamilyTrail>, guard: Option<GuardOutcome>, issuances: seq<Issuance>)
    requires ShowAll(trails, guard, issuances).Success?
    requires forall t :: t in trails ==> OwnRecommendation(t)
    ensures FamiliesShown(ShowAll(trails, guard, issuances).value) == multiset(Map(Filter(trails, Mapped), TrailFamily))
  {
    if trails != [] {
      var init, last := trails[..|trails| - 1], trails[|trails| - 1];
      assert last in trails && forall t :: t in init ==> t in trails;
      ShownAreWalked(init, guard, issuances);
      KeptFamilies(trails, Mapped);
      ShowNext(ShowAll(init, guard, issuances).value, last, guard, issuances);
    }
  }

  lemma {:induction false} KeptOnce(trails: seq<FamilyTrail>, keep: FamilyTrail -> bool, k: nat)
    requires k < |trails| && Distinct(Map(trails, TrailFamily))
    ensures multiset(Map(Filter(trails, keep), TrailFamily))[trails[k].family] == if keep(trails[k]) then 1 else 0
  {
    var n := |trails| - 1;
    var init, last := trails[..n], trails[n];
    assert forall i :: 0 <= i < n ==> Map(trails, TrailFamily)[i] == Map(init, TrailFamily)[i] != last.family;
    var kept := Map(Filter(init, keep), TrailFamily);
    KeptFamilies(trails, keep);
    if k < n {
      KeptOnce(init, keep, k);
    } else {
      FilterMembers(init, keep);
      assert last.family !in kept by {
        forall i | 0 <= i < |kept|
          ensures kept[i] != last.family
        {
          assert Filter(init, keep)[i] in init;
        }
      }
    }
  }

  predicate IsShown(one: Surfaced, shown: Shown) {
    if one.AsRecommendation? then one.recommendation in shown.recommendations else one.reason in shown.reasons
  }

  lemma {:induction false} ShownIffSurfaced(trails: seq<FamilyTrail>, guard: Option<GuardOutcome>, issuances: seq<Issuance>)
    ensures ShowAll(trails, guard, issuances).Success? <==>
            forall t :: t in trails ==> Surface(t, guard, issuances).Success?
    ensures ShowAll(trails, guard, issuances).Success? ==>
              forall t :: t in trails && Surface(t, guard, issuances).value.Some? ==>
                IsShown(Surface(t, guard, issuances).value.value, ShowAll(trails, guard, issuances).value)
  {
    if trails != [] {
      var n := |trails| - 1;
      assert trails == trails[..n] + [trails[n]];
      ShownIffSurfaced(trails[..n], guard, issuances);
    }
  }

  // ---- what the runtime cycle guarantees ----------------------------------------------------

  lemma {:induction false} FirstOutcomeOf(recs: seq<Recommendation>, input: CycleInput, k: nat)
    requires k < |recs| && forall i, j :: 0 <= i < j < |recs| ==> recs[i].tradeId != recs[j].tradeId
    ensures FirstOutcome(recs[k].tradeId, Issuances(recs, input)) == Some(IssuanceOf(recs[k], input))
  {
    var issuances := Issuances(recs, input);
    assert issuances[1..] == Issuances(recs[1..], input);
    if k > 0 {
      FirstOutcomeOf(recs[1..], input, k - 1);
    }
  }

  lemma {:induction false} IssuedIntoStore(store: Store, recs: seq<Recommendation>, input: CycleInput, k: nat)
    requires k < |recs| && forall i, j :: 0 <= i < j < |recs| ==> recs[i].tradeId != recs[j].tradeId
    requires recs[k].tradeId !in store
    ensures recs[k].tradeId in IssueAll(store, recs, input) <==> IssuanceOf(recs[k], input).trackingPersisted
    ensures recs[k].tradeId in IssueAll(store, recs, input) ==>
              IssueAll(store, recs, input)[recs[k].tradeId] == NewRecord(recs[k], input.positions)
  {
    var n := |recs| - 1;
    if k < n {
      IssuedIntoStore(store, recs[..n], input, k);
      assert recs[..n][k] == recs[k];
    } else {
      NotIssuedEarlier(store, recs[..n], input, recs[k].tradeId);
    }
  }

  lemma {:induction false} NotIssuedEarlier(store: Store, recs: seq<Recommendation>, input: CycleInput, id: string)
    requires id !in store && forall i :: 0 <= i < |recs| ==> recs[i].tradeId != id
    ensures id !in IssueAll(store, recs, input)
  {
    if recs != [] {
      NotIssuedEarlier(store, recs[..|recs| - 1], input, id);
    }
  }

  lemma {:induction false} WriteBackKeepsOut(store: Store, order: seq<string>, updated: seq<Tracker.Tracked>,
                                             written: set<string>, id: string)
    requires |order| == |updated| && id !in store && id !in order
    ensures id !in WriteBack(store, order, updated, written)
  {
    if order != [] {
      var n := |order| - 1;
      assert id !in order[..n];
      WriteBackKeepsOut(store, order[..n], updated[..n], written, id);
    }
  }

  /** For every result a runtime cycle can reach: surfacing an ACTIONABLE family with a
      trade id of its own never raises; it is shown as a
      recommendation exactly when the cycle left its record in the tracking store;
      otherwise the cause is the guard's if the guard refused, the missing positions
      snapshot if that was unavailable, and the failed write if not. */
  lemma ActionableSurfacesIffStored(t: FamilyTrail, store: Store, input: CycleInput, order: seq<string>,
                               updated: seq<Tracker.Tracked>, k: nat)
    requires |order| == |updated| && input.mode.Some? && input.actionable.Some?
    requires forall i, j :: 0 <= i < j < |input.actionable.value| ==>
               input.actionable.value[i].tradeId != input.actionable.value[j].tradeId
    requires k < |input.actionable.value|
    requires DeriveNoTrade(t) == Success(None) && IsActionable(t)
    requires t.final.value.recommendation.rec == input.actionable.value[k]
    requires input.actionable.value[k].tradeId !in store && input.actionable.value[k].tradeId !in order
    ensures var (after, result) := ConcludeCycle(store, input, order, updated);
            var id := input.actionable.value[k].tradeId;
            var surfaced := Surface(t, result.guard, result.issuances);
            && surfaced.Success? && surfaced.value.Some?
            && (surfaced.value.value.AsRecommendation? <==> id in after)
            && (id in after ==> after[id] == NewRecord(input.actionable.value[k], input.positions))
            && (surfaced.value.value.AsNoTrade? ==>
                  surfaced.value.value.reason ==
                  NoTrade(t.family, IssuanceStage,
                          if result.guard.Some? && !result.guard.value.Allowed? then GuardCause(result.guard.value)
                          else if !input.positionsOk then CreationCause(SnapshotUnavailable)
                          else TrackingPersistenceFailed))
  {
    var recs := input.actionable.value;
    var id := recs[k].tradeId;
    var written := WriteBack(store, order, updated, input.advanceWrites);
    WriteBackKeepsOut(store, order, updated, input.advanceWrites, id);
    var (guard, allowed) := Gate(input, InMemory(order, updated));
    if allowed {
      FirstOutcomeOf(recs, input, k);
      IssuedIntoStore(written, recs, input, k);
      IssuableIff(recs, input, k);
    }
  }

  lemma IssuableIff(recs: seq<Recommendation>, input: CycleInput, k: nat)
    requires k < |recs| && forall i, j :: 0 <= i < j < |recs| ==> recs[i].tradeId != recs[j].tradeId
    ensures IsIssuable(recs[k].tradeId, Issuances(recs, input)) <==> IssuanceOf(recs[k], input).trackingPersisted
  {
    var issuances := Issuances(recs, input);
    if IssuanceOf(recs[k], input).trackingPersisted {
      assert issuances[k] in issuances && Issued(issuances[k], recs[k].tradeId);
    }
    if IsIssuable(recs[k].tradeId, issuances) {
      var outcome :| outcome in issuances && Issued(outcome, recs[k].tradeId);
      var i :| 0 <= i < |recs| && issuances[i] == outcome;
      assert i == k;
    }
  }

  // ---- the whole cycle ----------------------------------------------------------------------

  /** The recommendations a cycle hands to issuance: the ACTIONABLE ones, in family
      order. */
  function ActionableRecs(trails: seq<FamilyTrail>): seq<Recommendation> {
    if trails == [] then []
    else
      var last := trails[|trails| - 1];
      ActionableRecs(trails[..|trails| - 1]) +
      if IsActionable(last) then [last.final.value.recommendation.rec] else []
  }

  /** Each trail's recommendation, if any, carries the cycle's id for its family. */
  predicate CarriesCycleId(t: FamilyTrail, cycleId: string) {
    IsActionable(t) ==> t.final.value.recommendation.rec.tradeId == DeriveTradeId(cycleId, t.family)
  }

  predicate IssuedFor(rec: Recommendation, trails: seq<FamilyTrail>, cycleId: string) {
    exists t :: t in trails && rec.tradeId == DeriveTradeId(cycleId, t.family)
  }

  lemma {:induction false} ActionableIds(trails: seq<FamilyTrail>, cycleId: string)
    requires forall t :: t in trails ==> CarriesCycleId(t, cycleId)
    ensures forall rec :: rec in ActionableRecs(trails) ==> IssuedFor(rec, trails, cycleId)
  {
    if trails != [] {
      var init, last := trails[..|trails| - 1], trails[|trails| - 1];
      assert trails == init + [last] && last in trails;
      ActionableIds(init, cycleId);
      forall rec | rec in ActionableRecs(init)
        ensures IssuedFor(rec, trails, cycleId)
      {
        var t :| t in init && rec.tradeId == DeriveTradeId(cycleId, t.family);
        assert t in trails;
      }
    }
  }

  lemma {:induction false} ActionableIdsDiffer(trails: seq<FamilyTrail>, cycleId: string)
    requires Distinct(Map(trails, TrailFamily)) && forall t :: t in trails ==> CarriesCycleId(t, cycleId)
    ensures forall i, j :: 0 <= i < j < |ActionableRecs(trails)| ==>
              ActionableRecs(trails)[i].tradeId != ActionableRecs(trails)[j].tradeId
  {
    if trails != [] {
      var n := |trails| - 1;
      var init, last := trails[..n], trails[n];
      assert trails == init + [last];
      assert Map(init, TrailFamily) == Map(trails, TrailFamily)[..n];
      ActionableIdsDiffer(init, cycleId);
      ActionableIds(init, cycleId);
      forall rec | rec in ActionableRecs(init)
        ensures rec.tradeId != DeriveTradeId(cycleId, last.family)
      {
        var t :| t in init && rec.tradeId == DeriveTradeId(cycleId, t.family);
        OtherFamily(trails, t, cycleId);
      }
      var earlier := ActionableRecs(init);
      assert forall i :: 0 <= i < |earlier| ==> earlier[i] in earlier;
      assert ActionableRecs(trails) == earlier || (IsActionable(last)
        && ActionableRecs(trails) == earlier + [last.final.value.recommendation.rec] && CarriesCycleId(last, cycleId));
    }
  }

  lemma OtherFamily(trails: seq<FamilyTrail>, t: FamilyTrail, cycleId: string)
    requires trails != [] && Distinct(Map(trails, TrailFamily)) && t in trails[..|trails| - 1]
    ensures DeriveTradeId(cycleId, t.family) != DeriveTradeId(cycleId, trails[|trails| - 1].family)
  {
    var n := |trails| - 1;
    var k :| 0 <= k < n && trails[k] == t;
    assert Map(trails, TrailFamily)[k] != Map(trails, TrailFamily)[n];
    if DeriveTradeId(cycleId, t.family) == DeriveTradeId(cycleId, trails[n].family) {
      TradeIdsNeverCollide(cycleId, t.family, cycleId, trails[n].family);
    }
  }

  lemma {:induction false} ActionableIsHandedOver(trails: seq<FamilyTrail>, k: nat) returns (j: nat)
    requires k < |trails| && IsActionable(trails[k])
    ensures j < |ActionableRecs(trails)| && ActionableRecs(trails)[j] == trails[k].final.value.recommendation.rec
  {
    var n := |trails| - 1;
    if k < n {
      assert trails[..n][k] == trails[k];
      j := ActionableIsHandedOver(trails[..n], k);
    } else {
      j := |ActionableRecs(trails[..n])|;
    }
  }

  // ---- one evaluation and the cycle that concludes it -----------------------------------------

  function DeriveTradeIds(cycleId: string): map<Family, string> {
    map f | f in FAMILIES :: DeriveTradeId(cycleId, f)
  }

  function TrailFrom(evaluation: Option<Evaluation>): Family -> FamilyTrail
    requires evaluation.Some? ==> Evaluates(evaluation.value)
  {
    (f: Family) =>
      if evaluation.Some? then TrailOf(evaluation.value, f) else FamilyTrail(f, None, None, None)
  }

  /** One trail per family. Without the account facts' three assessments the evaluation
      does not take place and the trails are empty. */
  function Trails(evaluation: Option<Evaluation>): seq<FamilyTrail>
    requires evaluation.Some? ==> Evaluates(evaluation.value)
  {
    Map(FAMILIES, TrailFrom(evaluation))
  }

  /** What final construction hands to issuance, if it took place. */
  function HandedOver(evaluation: Option<Evaluation>): Option<seq<Recommendation>>
    requires evaluation.Some? ==> Evaluates(evaluation.value)
  {
    if evaluation.Some? && evaluation.value.facts.Some? then Some(ActionableRecs(Trails(evaluation))) else None
  }

  /** Trade ids derived from a cycle id that no stored record carries, and the outcome of
      final construction handed to the cycle. An evaluation took place only on an account
      whose facts, and so whose mode, are known. */
  ghost predicate ConcludedEvaluation(evaluation: Option<Evaluation>, cycleId: string, store: Store, input: CycleInput,
                                      order: seq<string>)
  {
    && (evaluation.Some? ==>
          && Evaluates(evaluation.value)
          && evaluation.value.tradeIds == DeriveTradeIds(cycleId)
          && input.mode.Some?)
    && (forall id :: id in store ==> exists earlier, g :: earlier != cycleId && id == DeriveTradeId(earlier, g))
    && (forall id :: id in order ==> id in store)
    && input.actionable == HandedOver(evaluation)
  }

  lemma TrailsCoverFamilies(evaluation: Option<Evaluation>)
    requires evaluation.Some? ==> Evaluates(evaluation.value)
    ensures |Trails(evaluation)| == |FAMILIES|
    ensures forall k :: 0 <= k < |FAMILIES| ==> Trails(evaluation)[k].family == FAMILIES[k]
    ensures Distinct(Map(Trails(evaluation), TrailFamily))
  {
    assert Map(Trails(evaluation), TrailFamily) == FAMILIES;
  }

  lemma EvaluatedTrail(evaluation: Option<Evaluation>, cycleId: string, store: Store, input: CycleInput,
                       order: seq<string>, k: nat)
    requires ConcludedEvaluation(evaluation, cycleId, store, input, order) && k < |FAMILIES|
    ensures var t := Trails(evaluation)[k];
            && DeriveNoTrade(t).Success?
            && (IsActionable(t) ==> DeriveNoTrade(t).value.None? && evaluation.value.facts.Some?)
            && (Skipped(t) <==> DeriveNoTrade(t).value.None? && !IsActionable(t))
            && OwnRecommendation(t) && CarriesCycleId(t, cycleId)
  {
    if evaluation.Some? {
      var e, f := evaluation.value, FAMILIES[k];
      WalkFindsReasonIffBlocked(e, f);
      if IsActionable(TrailOf(e, f)) {
        ActionableIsCleared(e, f);
        ActionableIsIssuable(e, f);
      }
    }
  }

  /** The mapping is silent about a family exactly when no evaluation took place, or the
      account facts were not READY and nothing before the risk gate stopped the family. */
  lemma SkippedIff(evaluation: Option<Evaluation>, f: Family)
    requires evaluation.Some? ==> Evaluates(evaluation.value)
    ensures Skipped(TrailFrom(evaluation)(f)) <==>
            evaluation.None? || (evaluation.value.account.None? && Passes(UpstreamOf(evaluation.value, f)))
  {
    if evaluation.Some? {
      WalkFindsReasonIffBlocked(evaluation.value, f);
      if IsActionable(TrailOf(evaluation.value, f)) {
        ActionableIsCleared(evaluation.value, f);
      }
    }
  }

  /** Final construction takes place exactly where an evaluation did and the broker gave
      the symbol's facts; what it hands over are the recommendations of the ACTIONABLE
      families. */
  lemma HandsOver(evaluation: Option<Evaluation>, rec: Recommendation)
    requires evaluation.Some? ==> Evaluates(evaluation.value)
    ensures HandedOver(evaluation).Some? <==> evaluation.Some? && evaluation.value.facts.Some?
    ensures HandedOver(evaluation).Some? ==>
              (rec in HandedOver(evaluation).value <==>
               exists t :: t in Trails(evaluation) && IsActionable(t) && t.final.value.recommendation.rec == rec)
  {
    if HandedOver(evaluation).Some? {
      var trails := Trails(evaluation);
      if rec in ActionableRecs(trails) {
        var k := RecommendedBy(trails, rec);
        assert trails[k] in trails;
      }
      if t :| t in trails && IsActionable(t) && t.final.value.recommendation.rec == rec {
        var k :| 0 <= k < |trails| && trails[k] == t;
        var j := ActionableIsHandedOver(trails, k);
      }
    }
  }

  /** What an evaluation hands over is what the lock's environment asks of the cycle:
      fresh trade ids, the evaluation's symbol, a volume and a validity ahead. */
  lemma HandedOverIsIssuable(evaluation: Option<Evaluation>, cycleId: string, store: Store, input: CycleInput,
                             order: seq<string>)
    requires ConcludedEvaluation(evaluation, cycleId, store, input, order)
    requires evaluation.Some? ==> evaluation.value.symbol == input.target
    ensures input.actionable.Some? ==> forall rec :: rec in input.actionable.value ==>
              && rec.tradeId !in store
              && rec.symbol == input.target
              && rec.approvedVolume > 0.0
              && rec.validUntil > rec.signalTime
  {
    if input.actionable.Some? {
      forall rec | rec in input.actionable.value
        ensures rec.tradeId !in store && rec.symbol == input.target
        ensures rec.approvedVolume > 0.0 && rec.validUntil > rec.signalTime
      {
        var k := RecommendedBy(Trails(evaluation), rec);
        ActionableIsIssuable(evaluation.value, FAMILIES[k]);
        EvaluatedTrail(evaluation, cycleId, store, input, order, k);
        NewCycleIdsAreFresh(store, cycleId, FAMILIES[k]);
      }
    }
  }

  lemma {:induction false} RecommendedBy(trails: seq<FamilyTrail>, rec: Recommendation) returns (k: nat)
    requires rec in ActionableRecs(trails)
    ensures k < |trails| && IsActionable(trails[k]) && trails[k].final.value.recommendation.rec == rec
  {
    var n := |trails| - 1;
    if rec in ActionableRecs(trails[..n]) {
      k := RecommendedBy(trails[..n], rec);
    } else {
      k := n;
    }
  }

  /** Whether the cycle left a family's recommendation in the tracking store. */
  predicate StoredFor(t: FamilyTrail, after: Store) {
    IsActionable(t) && t.final.value.recommendation.rec.tradeId in after
  }

  lemma EvaluatedSurface(evaluation: Option<Evaluation>, cycleId: string, store: Store, input: CycleInput,
                         order: seq<string>, updated: seq<Tracker.Tracked>, k: nat)
    requires ConcludedEvaluation(evaluation, cycleId, store, input, order)
    requires |order| == |updated| && k < |FAMILIES|
    ensures var (after, result) := ConcludeCycle(store, input, order, updated);
            var t := Trails(evaluation)[k];
            var one := Surface(t, result.guard, result.issuances);
            && one.Success?
            && (one.value.Some? <==> !Skipped(t))
            && (StoredFor(t, after) <==> one.value.Some? && one.value.value.AsRecommendation?)
  {
    EvaluatedTrail(evaluation, cycleId, store, input, order, k);
    var trails := Trails(evaluation);
    if IsActionable(trails[k]) {
      forall i | 0 <= i < |trails|
        ensures CarriesCycleId(trails[i], cycleId)
      {
        EvaluatedTrail(evaluation, cycleId, store, input, order, i);
      }
      TrailsCoverFamilies(evaluation);
      ActionableIdsDiffer(trails, cycleId);
      var j := ActionableIsHandedOver(trails, k);
      NewCycleIdsAreFresh(store, cycleId, FAMILIES[k]);
      ActionableSurfacesIffStored(trails[k], store, input, order, updated, j);
    }
  }

  lemma ListedFamilyCounts(shown: Shown, one: Surfaced, family: Family)
    requires IsShown(one, shown)
    requires one.AsRecommendation? ==> one.recommendation.family == family
    requires one.AsNoTrade? ==> one.reason.family == family
    ensures one.AsRecommendation? ==> multiset(Map(shown.recommendations, RecommendedFamily))[family] >= 1
    ensures one.AsNoTrade? ==> multiset(Map(shown.reasons, RefusedFamily))[family] >= 1
  {
    if one.AsRecommendation? {
      var i :| 0 <= i < |shown.recommendations| && shown.recommendations[i] == one.recommendation;
      assert Map(shown.recommendations, RecommendedFamily)[i] in multiset(Map(shown.recommendations, RecommendedFamily));
    } else {
      var i :| 0 <= i < |shown.reasons| && shown.reasons[i] == one.reason;
      assert Map(shown.reasons, RefusedFamily)[i] in multiset(Map(shown.reasons, RefusedFamily));
    }
  }

  /** How often a family is listed under each kind. */
  predicate Listed(shown: Shown, family: Family, recommended: nat, refused: nat) {
    && multiset(Map(shown.recommendations, RecommendedFamily))[family] == recommended
    && multiset(Map(shown.reasons, RefusedFamily))[family] == refused
  }

  /** A family that surfaces as one kind is listed once under it and not under the
      other, and a skipped one is not listed. */
  lemma FamilyListedOnce(trails: seq<FamilyTrail>, guard: Option<GuardOutcome>, issuances: seq<Issuance>, k: nat)
    requires Distinct(Map(trails, TrailFamily)) && k < |trails|
    requires forall t :: t in trails ==> Surface(t, guard, issuances).Success? && OwnRecommendation(t)
    ensures ShowAll(trails, guard, issuances).Success?
    ensures var one := Surface(trails[k], guard, issuances).value;
            Listed(ShowAll(trails, guard, issuances).value, trails[k].family,
                   if one.Some? && one.value.AsRecommendation? then 1 else 0,
                   if one.Some? && one.value.AsNoTrade? then 1 else 0)
  {
    ShownIffSurfaced(trails, guard, issuances);
    ShownAreWalked(trails, guard, issuances);
    KeptOnce(trails, Mapped, k);
    SurfacesOwnFamily(trails[k], guard, issuances);
    assert trails[k] in trails;
    var one := Surface(trails[k], guard, issuances).value;
    if one.Some? {
      ListedFamilyCounts(ShowAll(trails, guard, issuances).value, one.value, trails[k].family);
    }
  }

  /** For every cycle that concludes an evaluation, or goes without one: the mapping never
      raises; a family it is not silent about is shown exactly once, as a recommendation
      if and only if the cycle left its record in the tracking store, and as a no-trade
      reason otherwise. */
  lemma CycleShowsEveryFamilyOnce(evaluation: Option<Evaluation>, cycleId: string, store: Store, input: CycleInput,
                                  order: seq<string>, updated: seq<Tracker.Tracked>, k: nat)
    requires ConcludedEvaluation(evaluation, cycleId, store, input, order)
    requires |order| == |updated| && k < |FAMILIES|
    ensures var (after, result) := ConcludeCycle(store, input, order, updated);
            var all, t := ShowAll(Trails(evaluation), result.guard, result.issuances), Trails(evaluation)[k];
            && all.Success?
            && Listed(all.value, FAMILIES[k],
                      if StoredFor(t, after) then 1 else 0,
                      if StoredFor(t, after) || Skipped(t) then 0 else 1)
  {
    var (after, result) := ConcludeCycle(store, input, order, updated);
    var trails := Trails(evaluation);
    TrailsCoverFamilies(evaluation);
    forall i | 0 <= i < |trails|
      ensures Surface(trails[i], result.guard, result.issuances).Success? && OwnRecommendation(trails[i])
    {
      EvaluatedTrail(evaluation, cycleId, store, input, order, i);
      EvaluatedSurface(evaluation, cycleId, store, input, order, updated, i);
    }
    EvaluatedSurface(evaluation, cycleId, store, input, order, updated, k);
    FamilyListedOnce(trails, result.guard, result.issuances, k);
  }
}
