/** Matching one recommendation to a broker position. The grouping loop of
    `MatchRecommendation` is proved against `Match`, which speaks only of which
    positions are eligible and how much volume their fills add up to. */
module Matching {
  import opened Common
  import opened Deals

  datatype Direction = Long | Short | Neutral | Wait

  datatype Query = Query(
    symbol: string,
    direction: Direction,
    signalTime: int,
    validUntil: int,
    approvedVolume: real,
    preExisting: set<nat>,
    claimed: set<nat>)

  datatype MatchOutcome =
    | Matched(positionId: nat)
    | Ambiguous(candidates: seq<nat>)
    | PartialFill(candidate: nat)
    | VolumeMismatch(candidate: nat)
    | NoCandidateYet
    | ExpiredConfirmedUnfilled
    | ReadUnavailable

  function ExpectedDealType(direction: Direction): Option<DealType> {
    match direction
    case Long => Some(Buy)
    case Short => Some(Sell)
    case Neutral => None
    case Wait => None
  }

  /** Every hard constraint except the volume total. */
  predicate Qualifies(d: Deal, q: Query) {
    && ExpectedDealType(q.direction) == Some(d.dealType)
    && d.entry.In?
    && d.symbol == Some(q.symbol)
    && q.signalTime <= d.time <= q.validUntil
    && d.positionId !in q.preExisting
    && d.positionId !in q.claimed
  }

  function FillOf(q: Query, p: nat): Deal -> bool {
    (d: Deal) => Qualifies(d, q) && d.positionId == p
  }

  function Fills(deals: seq<Deal>, q: Query, p: nat): seq<Deal> {
    Filter(deals, FillOf(q, p))
  }

  function OpeningVolume(deals: seq<Deal>, q: Query, p: nat): real {
    Sum(Fills(deals, q, p), VolumeOf)
  }

  /** A qualifying fill of `p` that no deal of `p` precedes. */
  predicate IsGenesis(f: Deal, deals: seq<Deal>, q: Query, p: nat) {
    && f in deals
    && FillOf(q, p)(f)
    && forall d :: d in deals && d.positionId == p ==> f.time <= d.time
  }

  /** `p` is a position the recommendation could own: one of its qualifying fills
      is the position's earliest deal on record. */
  ghost predicate Eligible(deals: seq<Deal>, q: Query, p: nat) {
    exists f :: IsGenesis(f, deals, q, p)
  }

  ghost function EligibleIds(deals: seq<Deal>, q: Query): (ids: set<nat>)
    ensures forall p :: p in ids <==> Eligible(deals, q, p)
  {
    var ids := set d | d in deals && Eligible(deals, q, d.positionId) :: d.positionId;
    assert forall p :: Eligible(deals, q, p) ==> p in ids by {
      forall p | Eligible(deals, q, p)
        ensures p in ids
      {
        var f :| IsGenesis(f, deals, q, p);
        assert f in deals && f.positionId == p;
      }
    }
    ids
  }

  /** The reference definition: ownership first, volume only for a sole owner. */
  ghost function Match(q: Query, deals: seq<Deal>, status: HistoryStatus, coversUntil: int):
    Result<MatchOutcome, TrackingFault>
  {
    var ids := EligibleIds(deals, q);
    if !status.HistoryOk? then Success(ReadUnavailable)
    else if |ids| >= 2 then Success(Ambiguous(SortedIds(ids)))
    else if |ids| == 1 then
      var p := SortedIds(ids)[0];
      var total := OpeningVolume(deals, q, p);
      if total == q.approvedVolume then (if p == 0 then Failure(InvalidPositionId) else Success(Matched(p)))
      else if total < q.approvedVolume then Success(PartialFill(p))
      else Success(VolumeMismatch(p))
    else if coversUntil >= q.validUntil then Success(ExpiredConfirmedUnfilled)
    else Success(NoCandidateYet)
  }

  predicate IsFirstLifecycleConsistent(p: nat, group: seq<Deal>, deals: seq<Deal>)
    requires group != [] && OfPosition(deals, p) != []
  {
    EarliestTime(OfPosition(deals, p)) == EarliestTime(group)
  }

  /** The comparison of two minima says exactly that the group holds the genesis. */
  lemma ConsistentIffEligible(deals: seq<Deal>, q: Query, p: nat)
    requires Fills(deals, q, p) != []
    ensures OfPosition(deals, p) != []
    ensures IsFirstLifecycleConsistent(p, Fills(deals, q, p), deals) <==> Eligible(deals, q, p)
  {
    var group, own := Fills(deals, q, p), OfPosition(deals, p);
    FilterMembers(deals, FillOf(q, p));
    OwnDeals(deals, p);
    assert group[0] in group;
    assert group[0] in own;
    if IsFirstLifecycleConsistent(p, group, deals) {
      var f :| f in group && f.time == EarliestTime(group);
      assert IsGenesis(f, deals, q, p);
    }
    if Eligible(deals, q, p) {
      var f :| IsGenesis(f, deals, q, p);
      assert f in group;
      assert EarliestTime(group) <= f.time <= EarliestTime(own);
      var g :| g in group && g.time == EarliestTime(group);
      assert g in own;
    }
  }

  /** Qualifying fills collected per position, in deal order. */
  method GroupByPosition(q: Query, deals: seq<Deal>) returns (groups: map<nat, seq<Deal>>)
    ensures forall p :: p in groups <==> Fills(deals, q, p) != []
    ensures forall p :: p in groups ==> groups[p] == Fills(deals, q, p)
  {
    groups := map[];
    for i := 0 to |deals|
      invariant forall p :: p in groups <==> Fills(deals[..i], q, p) != []
      invariant forall p :: p in groups ==> groups[p] == Fills(deals[..i], q, p)
    {
      var deal := deals[i];
      GroupStep(deals, i, q);
      if Qualifies(deal, q) {
        var group := if deal.positionId in groups then groups[deal.positionId] else [];
        groups := groups[deal.positionId := group + [deal]];
      }
    }
    assert deals[..|deals|] == deals;
  }

  /** The positions a recommendation could own, and their qualifying fills. */
  method EligibleGroups(q: Query, deals: seq<Deal>) returns (groups: map<nat, seq<Deal>>, eligible: set<nat>)
    ensures eligible == EligibleIds(deals, q)
    ensures forall p :: p in eligible ==> p in groups && groups[p] == Fills(deals, q, p)
  {
    groups := GroupByPosition(q, deals);
    forall p | p in groups
      ensures OfPosition(deals, p) != []
      ensures IsFirstLifecycleConsistent(p, groups[p], deals) <==> Eligible(deals, q, p)
    {
      ConsistentIffEligible(deals, q, p);
    }
    EligibleAreGrouped(deals, q);
    eligible := set p | p in groups && IsFirstLifecycleConsistent(p, groups[p], deals);
    forall p: nat
      ensures p in eligible <==> p in EligibleIds(deals, q)
    {
      assert p in eligible <==> p in groups && Eligible(deals, q, p);
    }
  }

  method MatchRecommendation(q: Query, deals: seq<Deal>, status: HistoryStatus, coversUntil: int)
    returns (r: Result<MatchOutcome, TrackingFault>)
    ensures r == Match(q, deals, status, coversUntil)
  {
    if !status.HistoryOk? {
      return Success(ReadUnavailable);
    }
    var groups, eligible := EligibleGroups(q, deals);
    var ids := SortedIds(eligible);
    if |ids| >= 2 {
      return Success(Ambiguous(ids));
    }
    if |ids| == 1 {
      var p := ids[0];
      assert p in eligible;
      var total := Sum(groups[p], VolumeOf);
      assert total == OpeningVolume(deals, q, p);
      if total == q.approvedVolume {
        return if p == 0 then Failure(InvalidPositionId) else Success(Matched(p));
      }
      if total < q.approvedVolume {
        return Success(PartialFill(p));
      }
      return Success(VolumeMismatch(p));
    }
    if coversUntil >= q.validUntil {
      return Success(ExpiredConfirmedUnfilled);
    }
    return Success(NoCandidateYet);
  }

  lemma GroupStep(deals: seq<Deal>, i: nat, q: Query)
    requires i < |deals|
    ensures forall p :: Fills(deals[..i + 1], q, p) ==
                        Fills(deals[..i], q, p) + if FillOf(q, p)(deals[i]) then [deals[i]] else []
  {
    assert deals[..i + 1][..i] == deals[..i];
  }

  lemma EligibleAreGrouped(deals: seq<Deal>, q: Query)
    ensures forall p :: Eligible(deals, q, p) ==> Fills(deals, q, p) != []
  {
    forall p | Eligible(deals, q, p)
      ensures Fills(deals, q, p) != []
    {
      var f :| IsGenesis(f, deals, q, p);
      FilterMembers(deals, FillOf(q, p));
      assert f in Fills(deals, q, p);
    }
  }

  lemma SingletonIds(ids: set<nat>, p: nat)
    ensures |ids| == 1 && p in ids <==> ids == {p}
    ensures |ids| == 1 && p in ids ==> SortedIds(ids) == [p]
  {
    if |ids| == 1 && p in ids {
      assert |ids - {p}| == 0;
      assert ids == {p};
      assert SortedIds(ids)[0] in ids;
    }
  }

  ghost predicate SoleEligible(deals: seq<Deal>, q: Query, p: nat) {
    Eligible(deals, q, p) && forall o :: Eligible(deals, q, o) ==> o == p
  }

  lemma SoleIffSingleton(deals: seq<Deal>, q: Query, p: nat)
    ensures SoleEligible(deals, q, p) <==> |EligibleIds(deals, q)| == 1 && p in EligibleIds(deals, q)
  {
    SoleMember(EligibleIds(deals, q), p);
  }

  lemma SoleMember(ids: set<nat>, p: nat)
    ensures p in ids && (forall o :: o in ids ==> o == p) <==> |ids| == 1 && p in ids
  {
    SingletonIds(ids, p);
    if p in ids && forall o :: o in ids ==> o == p {
      assert ids == {p};
    }
  }

  /** MATCHED p iff p is the only eligible position and its opening volumes sum to
      the approved volume; a lesser or greater sum never matches. */
  lemma MatchedIff(q: Query, deals: seq<Deal>, status: HistoryStatus, coversUntil: int, p: nat)
    ensures Match(q, deals, status, coversUntil) == Success(Matched(p)) <==>
            p > 0 && status.HistoryOk? && SoleEligible(deals, q, p) && OpeningVolume(deals, q, p) == q.approvedVolume
    ensures Match(q, deals, status, coversUntil) == Success(PartialFill(p)) <==>
            status.HistoryOk? && SoleEligible(deals, q, p) && OpeningVolume(deals, q, p) < q.approvedVolume
    ensures Match(q, deals, status, coversUntil) == Success(VolumeMismatch(p)) <==>
            status.HistoryOk? && SoleEligible(deals, q, p) && OpeningVolume(deals, q, p) > q.approvedVolume
  {
    SoleIffSingleton(deals, q, p);
    SingletonIds(EligibleIds(deals, q), p);
    var ids := EligibleIds(deals, q);
    if |ids| == 1 {
      var o := SortedIds(ids)[0];
      assert o in SortedIds(ids);
      SingletonIds(ids, o);
    }
  }

  /** The match result rejects its own id, and matching raises, exactly when a sole
      eligible position of the exact volume has id 0. */
  lemma RaisesIff(q: Query, deals: seq<Deal>, status: HistoryStatus, coversUntil: int)
    ensures Match(q, deals, status, coversUntil).Failure? <==>
            status.HistoryOk? && SoleEligible(deals, q, 0) && OpeningVolume(deals, q, 0) == q.approvedVolume
    ensures Match(q, deals, status, coversUntil).Failure? ==>
            Match(q, deals, status, coversUntil).error.InvalidPositionId?
  {
    SoleIffSingleton(deals, q, 0);
    SingletonIds(EligibleIds(deals, q), 0);
    var ids := EligibleIds(deals, q);
    if |ids| == 1 {
      assert SortedIds(ids)[0] in ids;
    }
  }

  /** AMBIGUOUS lists exactly the eligible positions, ascending, at least two. */
  lemma AmbiguousIff(q: Query, deals: seq<Deal>, status: HistoryStatus, coversUntil: int, ids: seq<nat>)
    ensures Match(q, deals, status, coversUntil) == Success(Ambiguous(ids)) <==>
            status.HistoryOk? && Ascending(ids) && |ids| >= 2 && forall p :: p in ids <==> Eligible(deals, q, p)
  {
    var members := EligibleIds(deals, q);
    AmbiguousShape(q, deals, status, coversUntil, ids, members);
    SortedIff(ids, members);
  }

  lemma AmbiguousShape(q: Query, deals: seq<Deal>, status: HistoryStatus, coversUntil: int, ids: seq<nat>,
                       members: set<nat>)
    requires members == EligibleIds(deals, q)
    ensures Match(q, deals, status, coversUntil) == Success(Ambiguous(ids)) <==>
            status.HistoryOk? && |ids| >= 2 && ids == SortedIds(members)
  {
    assert |SortedIds(members)| == |members|;
  }

  lemma SortedIff(ids: seq<nat>, members: set<nat>)
    ensures ids == SortedIds(members) <==> Ascending(ids) && forall p :: p in ids <==> p in members
  {
    if Ascending(ids) && forall p :: p in ids <==> p in members {
      AscendingUnique(ids, SortedIds(members));
    }
  }

  lemma EmptyIffNoneEligible(q: Query, deals: seq<Deal>)
    ensures |EligibleIds(deals, q)| == 0 <==> forall p :: !Eligible(deals, q, p)
  {
    if p :| Eligible(deals, q, p) {
      assert p in EligibleIds(deals, q);
    }
    if forall p :: !Eligible(deals, q, p) {
      assert EligibleIds(deals, q) == {};
    }
  }

  /** The two empty outcomes need that nothing is eligible and differ by coverage. */
  lemma NoCandidateIff(q: Query, deals: seq<Deal>, status: HistoryStatus, coversUntil: int)
    ensures Match(q, deals, status, coversUntil) == Success(ExpiredConfirmedUnfilled) <==>
            status.HistoryOk? && coversUntil >= q.validUntil && forall p :: !Eligible(deals, q, p)
    ensures Match(q, deals, status, coversUntil) == Success(NoCandidateYet) <==>
            status.HistoryOk? && coversUntil < q.validUntil && forall p :: !Eligible(deals, q, p)
  {
    EmptyIffNoneEligible(q, deals);
  }

  /** The order in which the broker lists the deals never matters. */
  lemma DealOrderIrrelevant(q: Query, a: seq<Deal>, b: seq<Deal>, status: HistoryStatus, coversUntil: int)
    requires multiset(a) == multiset(b)
    ensures Match(q, a, status, coversUntil) == Match(q, b, status, coversUntil)
  {
    PermutationMembers(a, b);
    forall p: nat
      ensures Eligible(a, q, p) <==> Eligible(b, q, p)
      ensures OpeningVolume(a, q, p) == OpeningVolume(b, q, p)
    {
      assert forall f :: IsGenesis(f, a, q, p) <==> IsGenesis(f, b, q, p);
      FilterPermutation(a, b, FillOf(q, p));
      SumPermutation(Fills(a, q, p), Fills(b, q, p), VolumeOf);
    }
    assert EligibleIds(a, q) == EligibleIds(b, q);
  }

  // ---- by direction -----------------------------------------------------------------

  /** A deal that opens exposure the way the recommendation asks: a LONG buys, a SHORT
      sells, and nothing else opens. */
  predicate OpensAsAsked(d: Deal, direction: Direction) {
    d.entry.In? && ((direction.Long? && d.dealType.Buy?) || (direction.Short? && d.dealType.Sell?))
  }

  /** Such a deal of the position, on the symbol, inside the validity window. */
  predicate AskedFill(d: Deal, q: Query, p: nat) {
    && d.positionId == p && OpensAsAsked(d, q.direction)
    && d.symbol == Some(q.symbol) && q.signalTime <= d.time && d.time <= q.validUntil
  }

  function AskedFillOf(q: Query, p: nat): Deal -> bool {
    (d: Deal) => AskedFill(d, q, p)
  }

  /** A position that began with such a fill, and that is neither older than the signal
      nor somebody else's. */
  ghost predicate BeganAsAsked(deals: seq<Deal>, q: Query, p: nat) {
    && p !in q.preExisting && p !in q.claimed
    && exists f :: f in deals && AskedFill(f, q, p) && forall d :: d in deals && d.positionId == p ==> f.time <= d.time
  }

  lemma BeganIffEligible(deals: seq<Deal>, q: Query, p: nat)
    ensures BeganAsAsked(deals, q, p) <==> Eligible(deals, q, p)
  {
    if BeganAsAsked(deals, q, p) {
      var f :| f in deals && AskedFill(f, q, p) && forall d :: d in deals && d.positionId == p ==> f.time <= d.time;
      assert IsGenesis(f, deals, q, p);
    }
    if Eligible(deals, q, p) {
      var f :| IsGenesis(f, deals, q, p);
      assert AskedFill(f, q, p);
    }
  }

  lemma {:induction false} AskedVolume(deals: seq<Deal>, q: Query, p: nat)
    requires p !in q.preExisting && p !in q.claimed
    ensures Fills(deals, q, p) == Filter(deals, AskedFillOf(q, p))
  {
    if deals != [] {
      var last := deals[|deals| - 1];
      AskedVolume(deals[..|deals| - 1], q, p);
      assert FillOf(q, p)(last) <==> AskedFill(last, q, p);
    }
  }

  /** MATCHED p exactly when p alone began with an opening deal of the direction asked
      for, on the symbol and inside the window, and its deals of that kind add up to the
      approved volume. A NEUTRAL or WAIT recommendation is never matched. */
  lemma MatchedByDirection(q: Query, deals: seq<Deal>, status: HistoryStatus, coversUntil: int, p: nat)
    ensures Match(q, deals, status, coversUntil) == Success(Matched(p)) <==>
              && p > 0 && status.HistoryOk?
              && BeganAsAsked(deals, q, p) && (forall o :: BeganAsAsked(deals, q, o) ==> o == p)
              && Sum(Filter(deals, AskedFillOf(q, p)), VolumeOf) == q.approvedVolume
    ensures !q.direction.Long? && !q.direction.Short? ==> !BeganAsAsked(deals, q, p)
  {
    MatchedIff(q, deals, status, coversUntil, p);
    forall o
      ensures BeganAsAsked(deals, q, o) <==> Eligible(deals, q, o)
    {
      BeganIffEligible(deals, q, o);
    }
    if BeganAsAsked(deals, q, p) {
      AskedVolume(deals, q, p);
    }
  }
}
