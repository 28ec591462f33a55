/** The judge of strategy evidence: a direction per family, or a demonstrated
    conflict, or nothing to judge. Seen in a mirror it says the opposite. */
module Judge {
  import opened Common
  import opened Strategies

  datatype Candidate = LongCandidate | ShortCandidate

  datatype Verdict = Directional | Mixed | Insufficient

  datatype Contour = TechnicalContour | FlowContour | ExternalContour

  datatype Role = Primary | Corroborating

  datatype EvidenceRef = EvidenceRef(contour: Contour, role: Role, result: nat, observation: nat)

  datatype Dimension =
    | ReturnDirection
    | SlopeDirection
    | StructuralSequenceBalance
    | LatestBreakDirection
    | StructuralBreakPresence
    | RsiMidpointRelation
    | PriceVsSmaPosition
    | MaSlopeDirection
    | MultiPeriodMaOrdering
    | SentimentProviderAgreement
    | PerProviderSentimentSign
    | OtherDimension(name: string)

  /** The observation values the judge knows by name; each is one enum string, which
      several enums may share. */
  datatype Value =
    | Upward | Downward
    | UpwardBreak | DownwardBreak
    | AboveSma | BelowSma
    | FasterAboveSlower | FasterBelowSlower
    | UpwardStructure | DownwardStructure
    | AboveMidpoint | BelowMidpoint
    | Positive | Negative
    | BreakConfirmed
    | AllAgreeValue | MixedValue
    | OtherValue(text: string)

  datatype Observation = Observation(dimension: Dimension, value: Value)

  datatype AnalystResult = AnalystResult(marketStructure: bool, observations: seq<Observation>)

  datatype Agreement = AllAgree | MixedAgreement | InsufficientData

  datatype Coherence = Coherence(dimension: Dimension, verdict: Agreement, refs: seq<(nat, nat)>)

  datatype Technical = Technical(coherence: seq<Coherence>, results: seq<AnalystResult>)

  datatype Scope = Scope(newsSentiment: bool, result: nat)

  datatype External = External(scopes: seq<Scope>, results: seq<seq<Observation>>)

  datatype Alignment = Alignment(scope: nat, bySymbol: bool)

  datatype MarketEvaluation = MarketEvaluation(
    technical: Option<Technical>,
    external: Option<External>,
    alignment: seq<Alignment>)

  datatype Judgement = Judgement(verdict: Verdict, direction: Option<Candidate>, refs: seq<EvidenceRef>)

  // ---- what the upstream models guarantee ------------------------------------------

  predicate RefInRange(ref: (nat, nat), results: seq<AnalystResult>) {
    ref.0 < |results| && ref.1 < |results[ref.0].observations|
  }

  predicate SoundCoherence(entry: Coherence, results: seq<AnalystResult>) {
    !entry.verdict.InsufficientData? ==>
      && |entry.refs| >= 2
      && Distinct(entry.refs)
      && forall ref :: ref in entry.refs ==>
           RefInRange(ref, results) && results[ref.0].observations[ref.1].dimension == entry.dimension
  }

  predicate SoundTechnical(t: Technical) {
    forall entry :: entry in t.coherence ==> SoundCoherence(entry, t.results)
  }

  predicate SoundMarket(m: MarketEvaluation) {
    && (m.technical.Some? ==> SoundTechnical(m.technical.value))
    && (m.external.Some? ==>
          && (forall a :: a in m.alignment ==> a.scope < |m.external.value.scopes|)
          && (forall s :: s in m.external.value.scopes ==> s.result < |m.external.value.results|))
  }

  // ---- canonical evidence ---------------------------------------------------------------

  function ContourRank(c: Contour): nat {
    match c case TechnicalContour => 0 case FlowContour => 1 case ExternalContour => 2
  }

  function RoleRank(r: Role): nat { if r.Primary? then 0 else 1 }

  predicate Precedes(a: EvidenceRef, b: EvidenceRef) {
    if a.contour != b.contour then ContourRank(a.contour) < ContourRank(b.contour)
    else if a.role != b.role then RoleRank(a.role) < RoleRank(b.role)
    else if a.result != b.result then a.result < b.result
    else a.observation < b.observation
  }

  predicate CanonicalRefs(refs: seq<EvidenceRef>) {
    forall i, j :: 0 <= i < j < |refs| ==> Precedes(refs[i], refs[j])
  }

  function InsertRef(sorted: seq<EvidenceRef>, r: EvidenceRef): seq<EvidenceRef> {
    if sorted == [] then [r]
    else
      var last := sorted[|sorted| - 1];
      if last == r then sorted
      else if Precedes(last, r) then sorted + [r]
      else InsertRef(sorted[..|sorted| - 1], r) + [last]
  }

  function Canonicalize(refs: seq<EvidenceRef>): seq<EvidenceRef> {
    if refs == [] then [] else InsertRef(Canonicalize(refs[..|refs| - 1]), refs[|refs| - 1])
  }

  lemma {:induction false} InsertKeepsCanonical(sorted: seq<EvidenceRef>, r: EvidenceRef)
    requires CanonicalRefs(sorted)
    ensures CanonicalRefs(InsertRef(sorted, r))
    ensures forall x :: x in InsertRef(sorted, r) <==> x in sorted || x == r
  {
    if sorted != [] {
      var init, last := sorted[..|sorted| - 1], sorted[|sorted| - 1];
      assert sorted == init + [last];
      if last != r && !Precedes(last, r) {
        InsertKeepsCanonical(init, r);
        forall x | x in InsertRef(init, r)
          ensures Precedes(x, last)
        {
          if x in init {
            var i :| 0 <= i < |init| && init[i] == x;
            assert sorted[i] == x;
          }
        }
      }
    }
  }

  /** Sorted without duplicates, and nothing lost or added. */
  lemma {:induction false} CanonicalizeSorts(refs: seq<EvidenceRef>)
    ensures CanonicalRefs(Canonicalize(refs))
    ensures forall x :: x in Canonicalize(refs) <==> x in refs
  {
    if refs != [] {
      var init, last := refs[..|refs| - 1], refs[|refs| - 1];
      assert refs == init + [last];
      CanonicalizeSorts(init);
      InsertKeepsCanonical(Canonicalize(init), last);
    }
  }

  // ---- reading one dimension ----------------------------------------------------------------

  /** The two values of one upstream enum that have a direction. */
  datatype Table = Table(up: Value, down: Value)

  const TREND := Table(Upward, Downward)
  const BREAKS := Table(UpwardBreak, DownwardBreak)
  const SENTIMENT := Table(Positive, Negative)

  const CORROBORATORS: seq<(Dimension, Table)> := [
    (PriceVsSmaPosition, Table(AboveSma, BelowSma)),
    (MaSlopeDirection, TREND),
    (MultiPeriodMaOrdering, Table(FasterAboveSlower, FasterBelowSlower)),
    (StructuralSequenceBalance, Table(UpwardStructure, DownwardStructure)),
    (RsiMidpointRelation, Table(AboveMidpoint, BelowMidpoint))]

  function Reading(table: Table, value: Value): Option<Candidate> {
    if value == table.up then Some(LongCandidate)
    else if value == table.down then Some(ShortCandidate)
    else None
  }

  datatype Resolved = Resolved(conflict: bool, candidate: Option<Candidate>, refs: seq<EvidenceRef>)

  const UNRESOLVED := Resolved(false, None, [])

  function TechnicalRef(role: Role): ((nat, nat)) -> EvidenceRef {
    (ref: (nat, nat)) => EvidenceRef(TechnicalContour, role, ref.0, ref.1)
  }

  function ResolveEntry(entry: Coherence, results: seq<AnalystResult>, table: Table, role: Role): Resolved
    requires SoundCoherence(entry, results)
  {
    if entry.verdict.MixedAgreement? then Resolved(true, None, Map(entry.refs, TechnicalRef(role)))
    else if entry.verdict.InsufficientData? then UNRESOLVED
    else
      var first := entry.refs[0];
      assert first in entry.refs;
      var candidate := Reading(table, results[first.0].observations[first.1].value);
      if candidate.None? then UNRESOLVED
      else Resolved(false, candidate, Map(entry.refs, TechnicalRef(role)))
  }

  function OfDimension(d: Dimension): Coherence -> bool {
    (entry: Coherence) => entry.dimension == d
  }

  function Entries(t: Technical, d: Dimension): seq<Coherence> { Filter(t.coherence, OfDimension(d)) }

  lemma EntriesSound(t: Technical, d: Dimension)
    requires SoundTechnical(t)
    ensures forall entry :: entry in Entries(t, d) ==>
              entry in t.coherence && entry.dimension == d && SoundCoherence(entry, t.results)
  {
    FilterMembers(t.coherence, OfDimension(d));
  }

  function ResolveDimension(t: Technical, d: Dimension, table: Table, role: Role): Resolved
    requires SoundTechnical(t)
  {
    var entries := Entries(t, d);
    EntriesSound(t, d);
    if entries == [] then UNRESOLVED
    else
      assert entries[0] in entries;
      ResolveEntry(entries[0], t.results, table, role)
  }

  // ---- trend following ------------------------------------------------------------------------

  /** A corroborator objects only with a concrete opposite reading. */
  predicate Objects(r: Resolved, direction: Candidate) {
    r.candidate.Some? && r.candidate.value != direction
  }

  function EntryVetoes(entries: seq<Coherence>, results: seq<AnalystResult>, table: Table, direction: Candidate):
    seq<EvidenceRef>
    requires forall entry :: entry in entries ==> SoundCoherence(entry, results)
  {
    if entries == [] then []
    else
      var last := entries[|entries| - 1];
      assert forall entry :: entry in entries[..|entries| - 1] ==> entry in entries;
      var r := ResolveEntry(last, results, table, Corroborating);
      EntryVetoes(entries[..|entries| - 1], results, table, direction) + if Objects(r, direction) then r.refs else []
  }

  function Vetoes(t: Technical, tables: seq<(Dimension, Table)>, direction: Candidate): seq<EvidenceRef>
    requires SoundTechnical(t)
  {
    if tables == [] then []
    else
      var (d, table) := tables[|tables| - 1];
      EntriesSound(t, d);
      Vetoes(t, tables[..|tables| - 1], direction) + EntryVetoes(Entries(t, d), t.results, table, direction)
  }

  method EntryVetoRefs(entries: seq<Coherence>, results: seq<AnalystResult>, table: Table, direction: Candidate)
    returns (vetoes: seq<EvidenceRef>)
    requires forall entry :: entry in entries ==> SoundCoherence(entry, results)
    ensures vetoes == EntryVetoes(entries, results, table, direction)
  {
    vetoes := [];
    for k := 0 to |entries|
      invariant forall entry :: entry in entries[..k] ==> entry in entries
      invariant vetoes == EntryVetoes(entries[..k], results, table, direction)
    {
      assert entries[..k + 1][..k] == entries[..k] && entries[k] in entries;
      var resolved := ResolveEntry(entries[k], results, table, Corroborating);
      if Objects(resolved, direction) {
        vetoes := vetoes + resolved.refs;
      }
    }
    assert entries[..|entries|] == entries;
  }

  method CorroboratingVetoRefs(t: Technical, direction: Candidate) returns (vetoes: seq<EvidenceRef>)
    requires SoundTechnical(t)
    ensures vetoes == Vetoes(t, CORROBORATORS, direction)
  {
    vetoes := [];
    var tables := CORROBORATORS;
    for i := 0 to |tables|
      invariant vetoes == Vetoes(t, tables[..i], direction)
    {
      assert tables[..i + 1][..i] == tables[..i];
      var (d, table) := tables[i];
      EntriesSound(t, d);
      var more := EntryVetoRefs(Entries(t, d), t.results, table, direction);
      vetoes := vetoes + more;
    }
    assert tables[..|tables|] == tables;
  }

  const ABSTAINED := Judgement(Insufficient, None, [])

  function Conflicting(refs: seq<EvidenceRef>): Judgement { Judgement(Mixed, None, Canonicalize(refs)) }

  function RefsIfRead(r: Resolved): seq<EvidenceRef> { if r.candidate.Some? then r.refs else [] }

  /** The verdict on the two resolved primaries, given what the corroborators would
      veto a long and a short direction with. */
  function ConcludeTrend(change: Resolved, slope: Resolved, longVetoes: seq<EvidenceRef>, shortVetoes: seq<EvidenceRef>):
    Judgement
  {
    if change.conflict then Conflicting(change.refs)
    else if slope.conflict then Conflicting(slope.refs)
    else if change.candidate.None? && slope.candidate.None? then ABSTAINED
    else
      var primary := RefsIfRead(change) + RefsIfRead(slope);
      if change.candidate.Some? && slope.candidate.Some? && change.candidate != slope.candidate then
        Conflicting(primary)
      else
        var direction := if change.candidate.Some? then change.candidate.value else slope.candidate.value;
        var vetoes := if direction.LongCandidate? then longVetoes else shortVetoes;
        if vetoes != [] then Conflicting(primary + vetoes)
        else Judgement(Directional, Some(direction), Canonicalize(primary))
  }

  function JudgeTrendFollowing(technical: Option<Technical>): Judgement
    requires technical.Some? ==> SoundTechnical(technical.value)
  {
    if technical.None? then ABSTAINED
    else
      var t := technical.value;
      ConcludeTrend(ResolveDimension(t, ReturnDirection, TREND, Primary),
                    ResolveDimension(t, SlopeDirection, TREND, Primary),
                    Vetoes(t, CORROBORATORS, LongCandidate),
                    Vetoes(t, CORROBORATORS, ShortCandidate))
  }

  // ---- breakout -----------------------------------------------------------------------------------

  predicate ConfirmsBreak(o: Observation) {
    o.dimension == StructuralBreakPresence && o.value == BreakConfirmed
  }

  function ConfirmationsIn(observations: seq<Observation>, result: nat): seq<EvidenceRef> {
    if observations == [] then []
    else
      var k := |observations| - 1;
      ConfirmationsIn(observations[..k], result) +
      if ConfirmsBreak(observations[k]) then [EvidenceRef(TechnicalContour, Primary, result, k)] else []
  }

  function Confirmations(results: seq<AnalystResult>): seq<EvidenceRef> {
    if results == [] then []
    else
      var i := |results| - 1;
      Confirmations(results[..i]) +
      if results[i].marketStructure then ConfirmationsIn(results[i].observations, i) else []
  }

  method StructuralBreakConfirmedRefs(t: Technical) returns (refs: seq<EvidenceRef>)
    ensures refs == Confirmations(t.results)
  {
    refs := [];
    for i := 0 to |t.results|
      invariant refs == Confirmations(t.results[..i])
    {
      assert t.results[..i + 1][..i] == t.results[..i];
      if t.results[i].marketStructure {
        var observations := t.results[i].observations;
        ghost var before := refs;
        for k := 0 to |observations|
          invariant refs == before + ConfirmationsIn(observations[..k], i)
        {
          assert observations[..k + 1][..k] == observations[..k];
          if ConfirmsBreak(observations[k]) {
            refs := refs + [EvidenceRef(TechnicalContour, Primary, i, k)];
          }
        }
        assert observations[..|observations|] == observations;
      }
    }
    assert t.results[..|t.results|] == t.results;
  }

  function JudgeBreakout(technical: Option<Technical>): Judgement
    requires technical.Some? ==> SoundTechnical(technical.value)
  {
    if technical.None? then ABSTAINED
    else
      var confirmed := Confirmations(technical.value.results);
      var latest := ResolveDimension(technical.value, LatestBreakDirection, BREAKS, Primary);
      if latest.conflict then Conflicting(latest.refs)
      else if confirmed == [] || latest.candidate.None? then ABSTAINED
      else
        var direction := latest.candidate.value;
        var change := ResolveDimension(technical.value, ReturnDirection, TREND, Corroborating);
        if Objects(change, direction) then Conflicting(confirmed + latest.refs + change.refs)
        else Judgement(Directional, Some(direction), Canonicalize(confirmed + latest.refs))
  }

  // ---- event driven ---------------------------------------------------------------------------------

  function AlignedNews(alignment: seq<Alignment>, scopes: seq<Scope>): set<nat>
    requires forall a :: a in alignment ==> a.scope < |scopes|
  {
    set a | a in alignment && a.bySymbol && scopes[a.scope].newsSentiment :: scopes[a.scope].result
  }

  method AlignedNewsSentimentResultIndices(m: MarketEvaluation) returns (indices: seq<nat>)
    requires SoundMarket(m)
    ensures m.external.None? ==> indices == []
    ensures m.external.Some? ==> indices == SortedIds(AlignedNews(m.alignment, m.external.value.scopes))
  {
    if m.external.None? {
      return [];
    }
    var found: set<nat> := {};
    for i := 0 to |m.alignment|
      invariant forall a :: a in m.alignment[..i] ==> a in m.alignment
      invariant found == AlignedNews(m.alignment[..i], m.external.value.scopes)
    {
      var a := m.alignment[i];
      assert a in m.alignment;
      assert forall o :: o in m.alignment[..i + 1] <==> o in m.alignment[..i] || o == a;
      if a.bySymbol && m.external.value.scopes[a.scope].newsSentiment {
        found := found + {m.external.value.scopes[a.scope].result};
      }
    }
    assert m.alignment[..|m.alignment|] == m.alignment;
    return SortedIds(found);
  }

  predicate ConcreteSign(o: Observation) {
    o.dimension == PerProviderSentimentSign && Reading(SENTIMENT, o.value).Some?
  }

  predicate SignOf(o: Observation, value: Value) {
    o.dimension == PerProviderSentimentSign && o.value == value
  }

  /** The agreement the provider tally reports first. */
  function AgreementOf(observations: seq<Observation>): Option<Value> {
    if observations == [] then None
    else if observations[0].dimension == SentimentProviderAgreement then Some(observations[0].value)
    else AgreementOf(observations[1..])
  }

  function FirstSign(observations: seq<Observation>): Option<Value> {
    if observations == [] then None
    else if ConcreteSign(observations[0]) then Some(observations[0].value)
    else FirstSign(observations[1..])
  }

  function SignRefs(observations: seq<Observation>, result: nat, keep: Observation -> bool): seq<EvidenceRef> {
    if observations == [] then []
    else
      var k := |observations| - 1;
      SignRefs(observations[..k], result, keep) +
      if keep(observations[k]) then [EvidenceRef(ExternalContour, Primary, result, k)] else []
  }

  function HasSign(value: Value): Observation -> bool {
    (o: Observation) => SignOf(o, value)
  }

  function ResolveNews(observations: seq<Observation>, result: nat): Resolved {
    var agreement := AgreementOf(observations);
    if agreement.None? then UNRESOLVED
    else if agreement.value == MixedValue then Resolved(true, None, SignRefs(observations, result, ConcreteSign))
    else if agreement.value != AllAgreeValue then UNRESOLVED
    else
      var sign := FirstSign(observations);
      if sign.None? then UNRESOLVED
      else Resolved(false, Reading(SENTIMENT, sign.value), SignRefs(observations, result, HasSign(sign.value)))
  }

  function ResolveAll(indices: seq<nat>, results: seq<seq<Observation>>): seq<Resolved>
    requires forall i :: i in indices ==> i < |results|
  {
    if indices == [] then []
    else
      var n := |indices| - 1;
      assert (forall i :: i in indices[..n] ==> i in indices) && indices[n] in indices;
      ResolveAll(indices[..n], results) + [ResolveNews(results[indices[n]], indices[n])]
  }

  function FirstConflict(resolved: seq<Resolved>): Option<Resolved> {
    if resolved == [] then None
    else if resolved[0].conflict then Some(resolved[0])
    else FirstConflict(resolved[1..])
  }

  predicate WasRead(r: Resolved) { r.candidate.Some? }

  function AllRefs(resolved: seq<Resolved>): seq<EvidenceRef> {
    if resolved == [] then []
    else AllRefs(resolved[..|resolved| - 1]) + RefsIfRead(resolved[|resolved| - 1])
  }

  predicate Disagree(read: seq<Resolved>) {
    read != [] && exists r :: r in read && r.candidate != read[0].candidate
  }

  function Tally(resolved: seq<Resolved>): Judgement {
    var conflict := FirstConflict(resolved);
    var read := Filter(resolved, WasRead);
    if conflict.Some? then Conflicting(conflict.value.refs)
    else if read == [] then ABSTAINED
    else if Disagree(read) then Conflicting(AllRefs(resolved))
    else Judgement(Directional, read[0].candidate, Canonicalize(AllRefs(resolved)))
  }

  lemma AlignedInRange(m: MarketEvaluation)
    requires SoundMarket(m) && m.external.Some?
    ensures forall i :: i in SortedIds(AlignedNews(m.alignment, m.external.value.scopes)) ==>
              i < |m.external.value.results|
  {
  }

  function JudgeEventDriven(m: MarketEvaluation): Judgement
    requires SoundMarket(m)
  {
    if m.external.None? then ABSTAINED
    else
      var indices := SortedIds(AlignedNews(m.alignment, m.external.value.scopes));
      AlignedInRange(m);
      if indices == [] then ABSTAINED else Tally(ResolveAll(indices, m.external.value.results))
  }

  // ---- the judge ---------------------------------------------------------------------------------------

  function JudgeFamily(m: MarketEvaluation, family: Family): Judgement
    requires SoundMarket(m)
  {
    match family
    case TrendFollowing => JudgeTrendFollowing(m.technical)
    case MeanReversion => ABSTAINED
    case Breakout => JudgeBreakout(m.technical)
    case EventDriven => JudgeEventDriven(m)
  }

  /** What the model of a family result demands, or its construction raises. */
  predicate SoundJudgement(j: Judgement) {
    && (j.direction.Some? <==> j.verdict.Directional?)
    && (j.verdict.Insufficient? ==> j.refs == [])
    && (j.verdict.Directional? ==> exists ref :: ref in j.refs && ref.role.Primary?)
    && (j.verdict.Mixed? ==> |j.refs| >= 2)
    && CanonicalRefs(j.refs)
  }

  datatype JudgeFault = UnsoundFamilyResult(family: Family)

  /** The first family whose result cannot be built ends the judging. */
  method JudgeAll(m: MarketEvaluation, eligible: seq<Family>)
    returns (r: Result<seq<(Family, Judgement)>, JudgeFault>)
    requires SoundMarket(m)
    ensures r.Success? <==> forall f :: f in eligible ==> SoundJudgement(JudgeFamily(m, f))
    ensures r.Success? ==> r.value == Map(eligible, (f: Family) => (f, JudgeFamily(m, f)))
    ensures r.Failure? ==> r.error.family in eligible && !SoundJudgement(JudgeFamily(m, r.error.family))
  {
    var results: seq<(Family, Judgement)> := [];
    for i := 0 to |eligible|
      invariant |results| == i
      invariant forall k :: 0 <= k < i ==> results[k] == (eligible[k], JudgeFamily(m, eligible[k]))
      invariant forall k :: 0 <= k < i ==> SoundJudgement(JudgeFamily(m, eligible[k]))
    {
      var judgement := JudgeFamily(m, eligible[i]);
      if !SoundJudgement(judgement) {
        return Failure(UnsoundFamilyResult(eligible[i]));
      }
      results := results + [(eligible[i], judgement)];
    }
    return Success(results);
  }
}
