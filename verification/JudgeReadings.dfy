/** The judge's directions read off the raw evidence: which named values, cited by which
    entries or reported by which news, make a family LONG or SHORT. */
module JudgeReadings {
  import opened Common
  import opened Strategies
  import opened Judge
  import opened JudgeEvidence

  // ---- coherence entries ------------------------------------------------------------------

  function CitedFirst(t: Technical, entry: Coherence): Value
    requires SoundCoherence(entry, t.results) && !entry.verdict.InsufficientData?
  {
    assert entry.refs[0] in entry.refs;
    t.results[entry.refs[0].0].observations[entry.refs[0].1].value
  }

  /** The entry agrees, and this is the value it cites. */
  predicate AgreesOn(t: Technical, entry: Coherence, v: Value)
    requires SoundCoherence(entry, t.results)
  {
    entry.verdict.AllAgree? && CitedFirst(t, entry) == v
  }

  /** The first entry of the dimension is the `k`-th. */
  predicate FirstEntry(t: Technical, d: Dimension, k: nat) {
    k < |t.coherence| && t.coherence[k].dimension == d && forall j :: 0 <= j < k ==> t.coherence[j].dimension != d
  }

  /** The first entry of the dimension agrees on the value. */
  ghost predicate FirstAgreesOn(t: Technical, d: Dimension, v: Value)
    requires SoundTechnical(t)
  {
    exists k: nat :: FirstEntry(t, d, k) && AgreesOn(t, t.coherence[k], v)
  }

  ghost predicate FirstConflicts(t: Technical, d: Dimension) {
    exists k: nat :: FirstEntry(t, d, k) && t.coherence[k].verdict.MixedAgreement?
  }

  /** Some entry of the dimension agrees on the value. */
  ghost predicate SomeAgreesOn(t: Technical, d: Dimension, v: Value)
    requires SoundTechnical(t)
  {
    exists entry :: entry in t.coherence && entry.dimension == d && AgreesOn(t, entry, v)
  }

  lemma {:induction false} FirstOfFilter(coherence: seq<Coherence>, d: Dimension)
    ensures Filter(coherence, OfDimension(d)) == [] <==> forall k :: 0 <= k < |coherence| ==> coherence[k].dimension != d
    ensures Filter(coherence, OfDimension(d)) != [] ==>
              exists k :: 0 <= k < |coherence| && coherence[k].dimension == d
                          && (forall j :: 0 <= j < k ==> coherence[j].dimension != d)
                          && Filter(coherence, OfDimension(d))[0] == coherence[k]
  {
    if coherence != [] {
      var n := |coherence| - 1;
      FirstOfFilter(coherence[..n], d);
      if Filter(coherence[..n], OfDimension(d)) != [] {
        var k :| 0 <= k < n && coherence[..n][k].dimension == d
                 && (forall j :: 0 <= j < k ==> coherence[..n][j].dimension != d)
                 && Filter(coherence[..n], OfDimension(d))[0] == coherence[..n][k];
        assert coherence[k] == coherence[..n][k];
        assert forall j :: 0 <= j < k ==> coherence[j] == coherence[..n][j];
      } else if coherence[n].dimension == d {
        assert forall j :: 0 <= j < n ==> coherence[j] == coherence[..n][j];
      }
    }
  }

  lemma OnlyFirst(t: Technical, d: Dimension, k: nat, v: Value)
    requires SoundTechnical(t) && FirstEntry(t, d, k)
    ensures t.coherence[k] in t.coherence
    ensures FirstAgreesOn(t, d, v) <==> AgreesOn(t, t.coherence[k], v)
    ensures FirstConflicts(t, d) <==> t.coherence[k].verdict.MixedAgreement?
  {
    assert forall j: nat :: FirstEntry(t, d, j) ==> j == k;
  }

  lemma NoEntryResolves(t: Technical, d: Dimension, table: Table, role: Role, v: Value)
    requires SoundTechnical(t) && forall k :: 0 <= k < |t.coherence| ==> t.coherence[k].dimension != d
    ensures ResolveDimension(t, d, table, role) == UNRESOLVED
    ensures !FirstAgreesOn(t, d, v) && !FirstConflicts(t, d)
  {
    FirstOfFilter(t.coherence, d);
  }

  /** Resolving a dimension against a pair of values reads its first entry. */
  lemma DimensionReads(t: Technical, d: Dimension, up: Value, down: Value, role: Role)
    requires SoundTechnical(t) && up != down
    ensures var r := ResolveDimension(t, d, Table(up, down), role);
            && (r.conflict <==> FirstConflicts(t, d))
            && (r.candidate == Some(LongCandidate) <==> FirstAgreesOn(t, d, up))
            && (r.candidate == Some(ShortCandidate) <==> FirstAgreesOn(t, d, down))
  {
    FirstOfFilter(t.coherence, d);
    if Entries(t, d) == [] {
      NoEntryResolves(t, d, Table(up, down), role, up);
      NoEntryResolves(t, d, Table(up, down), role, down);
    } else {
      var k :| 0 <= k < |t.coherence| && t.coherence[k].dimension == d
               && (forall j :: 0 <= j < k ==> t.coherence[j].dimension != d) && Entries(t, d)[0] == t.coherence[k];
      OnlyFirst(t, d, k, up);
      OnlyFirst(t, d, k, down);
      EntryReads(t, t.coherence[k], up, down, role);
    }
  }

  lemma EntryReads(t: Technical, entry: Coherence, up: Value, down: Value, role: Role)
    requires SoundCoherence(entry, t.results) && up != down
    ensures var r := ResolveEntry(entry, t.results, Table(up, down), role);
            && (r.conflict <==> entry.verdict.MixedAgreement?)
            && (r.candidate == Some(LongCandidate) <==> AgreesOn(t, entry, up))
            && (r.candidate == Some(ShortCandidate) <==> AgreesOn(t, entry, down))
  {
    if entry.verdict.AllAgree? {
      assert entry.refs[0] in entry.refs;
    }
  }

  // ---- trend following ------------------------------------------------------------------------

  lemma OpposedReads(t: Technical, d: Dimension, up: Value, down: Value)
    requires SoundTechnical(t) && up != down
    ensures OpposedBy(t, d, Table(up, down), LongCandidate) <==> SomeAgreesOn(t, d, down)
    ensures OpposedBy(t, d, Table(up, down), ShortCandidate) <==> SomeAgreesOn(t, d, up)
  {
    forall entry | entry in t.coherence
      ensures var r := ResolveEntry(entry, t.results, Table(up, down), Corroborating);
              && (Objects(r, LongCandidate) <==> AgreesOn(t, entry, down))
              && (Objects(r, ShortCandidate) <==> AgreesOn(t, entry, up))
    {
      EntryReads(t, entry, up, down, Corroborating);
    }
  }

  /** No corroborator speaks against a long. */
  ghost predicate NothingSaysDown(t: Technical)
    requires SoundTechnical(t)
  {
    && !SomeAgreesOn(t, PriceVsSmaPosition, BelowSma)
    && !SomeAgreesOn(t, MaSlopeDirection, Downward)
    && !SomeAgreesOn(t, MultiPeriodMaOrdering, FasterBelowSlower)
    && !SomeAgreesOn(t, StructuralSequenceBalance, DownwardStructure)
    && !SomeAgreesOn(t, RsiMidpointRelation, BelowMidpoint)
  }

  ghost predicate NothingSaysUp(t: Technical)
    requires SoundTechnical(t)
  {
    && !SomeAgreesOn(t, PriceVsSmaPosition, AboveSma)
    && !SomeAgreesOn(t, MaSlopeDirection, Upward)
    && !SomeAgreesOn(t, MultiPeriodMaOrdering, FasterAboveSlower)
    && !SomeAgreesOn(t, StructuralSequenceBalance, UpwardStructure)
    && !SomeAgreesOn(t, RsiMidpointRelation, AboveMidpoint)
  }

  lemma CorroboratorsRead(t: Technical)
    requires SoundTechnical(t)
    ensures Opposed(t, CORROBORATORS, LongCandidate) <==> !NothingSaysDown(t)
    ensures Opposed(t, CORROBORATORS, ShortCandidate) <==> !NothingSaysUp(t)
  {
    OpposedReads(t, PriceVsSmaPosition, AboveSma, BelowSma);
    OpposedReads(t, MaSlopeDirection, Upward, Downward);
    OpposedReads(t, MultiPeriodMaOrdering, FasterAboveSlower, FasterBelowSlower);
    OpposedReads(t, StructuralSequenceBalance, UpwardStructure, DownwardStructure);
    OpposedReads(t, RsiMidpointRelation, AboveMidpoint, BelowMidpoint);
    OneOfFive(t, LongCandidate);
    OneOfFive(t, ShortCandidate);
  }

  lemma OneOfFive(t: Technical, c: Candidate)
    requires SoundTechnical(t)
    ensures Opposed(t, CORROBORATORS, c) <==>
              || OpposedBy(t, PriceVsSmaPosition, Table(AboveSma, BelowSma), c)
              || OpposedBy(t, MaSlopeDirection, Table(Upward, Downward), c)
              || OpposedBy(t, MultiPeriodMaOrdering, Table(FasterAboveSlower, FasterBelowSlower), c)
              || OpposedBy(t, StructuralSequenceBalance, Table(UpwardStructure, DownwardStructure), c)
              || OpposedBy(t, RsiMidpointRelation, Table(AboveMidpoint, BelowMidpoint), c)
  {
    var tables := CORROBORATORS;
    assert |tables| == 5;
    assert tables[0] == (PriceVsSmaPosition, Table(AboveSma, BelowSma));
    assert tables[1] == (MaSlopeDirection, Table(Upward, Downward));
    assert tables[2] == (MultiPeriodMaOrdering, Table(FasterAboveSlower, FasterBelowSlower));
    assert tables[3] == (StructuralSequenceBalance, Table(UpwardStructure, DownwardStructure));
    assert tables[4] == (RsiMidpointRelation, Table(AboveMidpoint, BelowMidpoint));
  }

  /** Trend following is LONG exactly when the first return or the first slope entry
      agrees on UPWARD, neither is MIXED or agrees on DOWNWARD, and no corroborating entry
      agrees on its downward value. */
  lemma TrendLongIff(t: Technical)
    requires SoundTechnical(t)
    ensures JudgeTrendFollowing(Some(t)).direction == Some(LongCandidate) <==>
              && (FirstAgreesOn(t, ReturnDirection, Upward) || FirstAgreesOn(t, SlopeDirection, Upward))
              && !FirstConflicts(t, ReturnDirection) && !FirstConflicts(t, SlopeDirection)
              && !FirstAgreesOn(t, ReturnDirection, Downward) && !FirstAgreesOn(t, SlopeDirection, Downward)
              && NothingSaysDown(t)
  {
    TrendDirectionalIff(t, LongCandidate);
    DimensionReads(t, ReturnDirection, Upward, Downward, Primary);
    DimensionReads(t, SlopeDirection, Upward, Downward, Primary);
    CorroboratorsRead(t);
  }

  lemma TrendShortIff(t: Technical)
    requires SoundTechnical(t)
    ensures JudgeTrendFollowing(Some(t)).direction == Some(ShortCandidate) <==>
              && (FirstAgreesOn(t, ReturnDirection, Downward) || FirstAgreesOn(t, SlopeDirection, Downward))
              && !FirstConflicts(t, ReturnDirection) && !FirstConflicts(t, SlopeDirection)
              && !FirstAgreesOn(t, ReturnDirection, Upward) && !FirstAgreesOn(t, SlopeDirection, Upward)
              && NothingSaysUp(t)
  {
    TrendDirectionalIff(t, ShortCandidate);
    DimensionReads(t, ReturnDirection, Upward, Downward, Primary);
    DimensionReads(t, SlopeDirection, Upward, Downward, Primary);
    CorroboratorsRead(t);
  }

  /** It has nothing to judge exactly when neither primary is MIXED and neither agrees on
      a direction; every other verdict without a direction is MIXED. */
  lemma TrendInsufficientIff(t: Technical)
    requires SoundTechnical(t)
    ensures JudgeTrendFollowing(Some(t)).verdict.Insufficient? <==>
              && !FirstConflicts(t, ReturnDirection) && !FirstConflicts(t, SlopeDirection)
              && !FirstAgreesOn(t, ReturnDirection, Upward) && !FirstAgreesOn(t, ReturnDirection, Downward)
              && !FirstAgreesOn(t, SlopeDirection, Upward) && !FirstAgreesOn(t, SlopeDirection, Downward)
  {
    DimensionReads(t, ReturnDirection, Upward, Downward, Primary);
    DimensionReads(t, SlopeDirection, Upward, Downward, Primary);
    var change, slope := ResolveDimension(t, ReturnDirection, TREND, Primary),
                         ResolveDimension(t, SlopeDirection, TREND, Primary);
    NoCandidate(change.candidate);
    NoCandidate(slope.candidate);
  }

  lemma NoCandidate(c: Option<Candidate>)
    ensures c.None? <==> c != Some(LongCandidate) && c != Some(ShortCandidate)
  {
    if c.Some? {
      assert c.value.LongCandidate? || c.value.ShortCandidate?;
    }
  }

  /** The first entry of the dimension agrees on one of the two values and cites this
      observation. */
  ghost predicate CitedFor(t: Technical, d: Dimension, up: Value, down: Value, role: Role, ref: EvidenceRef)
    requires SoundTechnical(t)
  {
    && ref.contour.TechnicalContour? && ref.role == role
    && exists k: nat :: FirstEntry(t, d, k) && (AgreesOn(t, t.coherence[k], up) || AgreesOn(t, t.coherence[k], down))
                        && (ref.result, ref.observation) in t.coherence[k].refs
  }

  lemma EntryCites(t: Technical, entry: Coherence, up: Value, down: Value, role: Role, ref: EvidenceRef)
    requires SoundCoherence(entry, t.results) && up != down
    ensures ref in RefsIfRead(ResolveEntry(entry, t.results, Table(up, down), role)) <==>
              && ref.contour.TechnicalContour? && ref.role == role
              && (AgreesOn(t, entry, up) || AgreesOn(t, entry, down)) && (ref.result, ref.observation) in entry.refs
  {
    EntryReads(t, entry, up, down, role);
    var r := ResolveEntry(entry, t.results, Table(up, down), role);
    NoCandidate(r.candidate);
    if r.candidate.Some? {
      if ref in r.refs {
        var i :| 0 <= i < |r.refs| && r.refs[i] == ref;
        assert entry.refs[i] in entry.refs && (ref.result, ref.observation) == (entry.refs[i].0, entry.refs[i].1);
        assert (ref.result, ref.observation) == entry.refs[i];
      }
      if ref.contour.TechnicalContour? && ref.role == role && (ref.result, ref.observation) in entry.refs {
        var i :| 0 <= i < |entry.refs| && entry.refs[i] == (ref.result, ref.observation);
        assert r.refs[i] == ref;
      }
    }
  }

  lemma FirstCites(t: Technical, d: Dimension, k: nat, up: Value, down: Value, role: Role, ref: EvidenceRef)
    requires SoundTechnical(t) && FirstEntry(t, d, k)
    ensures t.coherence[k] in t.coherence
    ensures CitedFor(t, d, up, down, role, ref) <==>
              && ref.contour.TechnicalContour? && ref.role == role
              && (AgreesOn(t, t.coherence[k], up) || AgreesOn(t, t.coherence[k], down))
              && (ref.result, ref.observation) in t.coherence[k].refs
  {
    assert forall j: nat :: FirstEntry(t, d, j) ==> j == k;
  }

  lemma DimensionCites(t: Technical, d: Dimension, up: Value, down: Value, role: Role, ref: EvidenceRef)
    requires SoundTechnical(t) && up != down
    ensures ref in RefsIfRead(ResolveDimension(t, d, Table(up, down), role)) <==> CitedFor(t, d, up, down, role, ref)
  {
    FirstOfFilter(t.coherence, d);
    if Entries(t, d) == [] {
      NoEntryResolves(t, d, Table(up, down), role, up);
    } else {
      var k :| 0 <= k < |t.coherence| && t.coherence[k].dimension == d
               && (forall j :: 0 <= j < k ==> t.coherence[j].dimension != d) && Entries(t, d)[0] == t.coherence[k];
      FirstCites(t, d, k, up, down, role, ref);
      EntryCites(t, t.coherence[k], up, down, role, ref);
    }
  }

  /** A directional trend verdict cites exactly the observations of its primary entries. */
  lemma TrendCites(t: Technical, ref: EvidenceRef)
    requires SoundTechnical(t) && JudgeTrendFollowing(Some(t)).verdict.Directional?
    ensures ref in JudgeTrendFollowing(Some(t)).refs <==>
              || CitedFor(t, ReturnDirection, Upward, Downward, Primary, ref)
              || CitedFor(t, SlopeDirection, Upward, Downward, Primary, ref)
  {
    DimensionCites(t, ReturnDirection, Upward, Downward, Primary, ref);
    DimensionCites(t, SlopeDirection, Upward, Downward, Primary, ref);
    CanonicalizeSorts(RefsIfRead(ResolveDimension(t, ReturnDirection, TREND, Primary)) +
                      RefsIfRead(ResolveDimension(t, SlopeDirection, TREND, Primary)));
  }

  // ---- breakout -----------------------------------------------------------------------------------

  /** A market-structure result reports a confirmed break. */
  ghost predicate BreakReported(t: Technical) {
    exists r, o :: 0 <= r < |t.results| && 0 <= o < |t.results[r].observations| && t.results[r].marketStructure &&
      t.results[r].observations[o] == Observation(StructuralBreakPresence, BreakConfirmed)
  }

  lemma ReportedIsConfirmed(t: Technical)
    ensures BreakReported(t) <==> BreakIsConfirmed(t)
  {
    if BreakReported(t) {
      var r, o :| 0 <= r < |t.results| && 0 <= o < |t.results[r].observations| && t.results[r].marketStructure &&
        t.results[r].observations[o] == Observation(StructuralBreakPresence, BreakConfirmed);
      assert ConfirmsBreak(t.results[r].observations[o]);
    }
    if BreakIsConfirmed(t) {
      var r, o :| 0 <= r < |t.results| && 0 <= o < |t.results[r].observations| &&
        t.results[r].marketStructure && ConfirmsBreak(t.results[r].observations[o]);
      assert t.results[r].observations[o] == Observation(StructuralBreakPresence, BreakConfirmed);
    }
  }

  /** Breakout is LONG exactly when a confirmed break is reported, the first latest-break
      entry agrees on an upward break, and the first return entry does not agree on
      DOWNWARD; a MIXED return entry is silent. SHORT is its opposite. */
  lemma BreakoutLongIff(t: Technical)
    requires SoundTechnical(t)
    ensures JudgeBreakout(Some(t)).direction == Some(LongCandidate) <==>
              && BreakReported(t) && FirstAgreesOn(t, LatestBreakDirection, UpwardBreak)
              && !FirstAgreesOn(t, ReturnDirection, Downward)
    ensures JudgeBreakout(Some(t)).direction == Some(ShortCandidate) <==>
              && BreakReported(t) && FirstAgreesOn(t, LatestBreakDirection, DownwardBreak)
              && !FirstAgreesOn(t, ReturnDirection, Upward)
  {
    BreakoutDirectionalIff(t, LongCandidate);
    BreakoutDirectionalIff(t, ShortCandidate);
    ReportedIsConfirmed(t);
    DimensionReads(t, LatestBreakDirection, UpwardBreak, DownwardBreak, Primary);
    DimensionReads(t, ReturnDirection, Upward, Downward, Corroborating);
  }

  lemma ReportedIffConfirmations(t: Technical)
    ensures BreakReported(t) <==> Confirmations(t.results) != []
  {
    ReportedIsConfirmed(t);
    var confirmed := Confirmations(t.results);
    if confirmed != [] {
      ConfirmationsExact(t.results, confirmed[0]);
    }
    if BreakIsConfirmed(t) {
      var r, o :| 0 <= r < |t.results| && 0 <= o < |t.results[r].observations| &&
        t.results[r].marketStructure && ConfirmsBreak(t.results[r].observations[o]);
      ConfirmationsExact(t.results, EvidenceRef(TechnicalContour, Primary, r, o));
    }
  }

  /** It is MIXED exactly when the latest break is, or when a confirmed break is spoken
      against by agreed returns. */
  lemma BreakoutMixedIff(t: Technical)
    requires SoundTechnical(t)
    ensures JudgeBreakout(Some(t)).verdict.Mixed? <==>
              || FirstConflicts(t, LatestBreakDirection)
              || (&& BreakReported(t)
                  && (|| (FirstAgreesOn(t, LatestBreakDirection, UpwardBreak) && FirstAgreesOn(t, ReturnDirection, Downward))
                      || (FirstAgreesOn(t, LatestBreakDirection, DownwardBreak) && FirstAgreesOn(t, ReturnDirection, Upward))))
  {
    ReportedIffConfirmations(t);
    DimensionReads(t, LatestBreakDirection, UpwardBreak, DownwardBreak, Primary);
    DimensionReads(t, ReturnDirection, Upward, Downward, Corroborating);
    NoCandidate(ResolveDimension(t, LatestBreakDirection, BREAKS, Primary).candidate);
    NoCandidate(ResolveDimension(t, ReturnDirection, TREND, Corroborating).candidate);
  }

  /** A directional breakout cites exactly the confirmations and its latest break. */
  lemma BreakoutCites(t: Technical, ref: EvidenceRef)
    requires SoundTechnical(t) && JudgeBreakout(Some(t)).verdict.Directional?
    ensures ref in JudgeBreakout(Some(t)).refs <==>
              || (&& ref.contour.TechnicalContour? && ref.role.Primary?
                  && ref.result < |t.results| && t.results[ref.result].marketStructure
                  && ref.observation < |t.results[ref.result].observations|
                  && t.results[ref.result].observations[ref.observation]
                     == Observation(StructuralBreakPresence, BreakConfirmed))
              || CitedFor(t, LatestBreakDirection, UpwardBreak, DownwardBreak, Primary, ref)
  {
    DimensionCites(t, LatestBreakDirection, UpwardBreak, DownwardBreak, Primary, ref);
    ConfirmationsExact(t.results, ref);
    CanonicalizeSorts(Confirmations(t.results) + ResolveDimension(t, LatestBreakDirection, BREAKS, Primary).refs);
  }

  // ---- news ---------------------------------------------------------------------------------------

  /** The first agreement among the providers that the result reports. */
  predicate ReportsAgreement(observations: seq<Observation>, v: Value) {
    exists k :: 0 <= k < |observations|
      && observations[k] == Observation(SentimentProviderAgreement, v)
      && forall j :: 0 <= j < k ==> observations[j].dimension != SentimentProviderAgreement
  }

  predicate NamesSign(o: Observation) {
    o == Observation(PerProviderSentimentSign, Positive) || o == Observation(PerProviderSentimentSign, Negative)
  }

  /** The first provider with a concrete sign gives this one. */
  predicate FirstNames(observations: seq<Observation>, v: Value) {
    exists k :: 0 <= k < |observations|
      && NamesSign(observations[k]) && observations[k].value == v
      && forall j :: 0 <= j < k ==> !NamesSign(observations[j])
  }

  lemma {:induction false} AgreementReported(observations: seq<Observation>, v: Value)
    ensures AgreementOf(observations) == Some(v) <==> ReportsAgreement(observations, v)
  {
    if observations != [] {
      var rest := observations[1..];
      AgreementReported(rest, v);
      if ReportsAgreement(rest, v) && observations[0].dimension != SentimentProviderAgreement {
        var k :| 0 <= k < |rest| && rest[k] == Observation(SentimentProviderAgreement, v)
                 && forall j :: 0 <= j < k ==> rest[j].dimension != SentimentProviderAgreement;
        assert observations[k + 1] == rest[k];
        assert forall j :: 0 < j < k + 1 ==> observations[j] == rest[j - 1];
      }
      if ReportsAgreement(observations, v) && observations[0].dimension != SentimentProviderAgreement {
        var k :| 0 <= k < |observations| && observations[k] == Observation(SentimentProviderAgreement, v)
                 && forall j :: 0 <= j < k ==> observations[j].dimension != SentimentProviderAgreement;
        assert rest[k - 1] == observations[k];
        assert forall j :: 0 <= j < k - 1 ==> rest[j] == observations[j + 1];
      }
    }
  }

  lemma ConcreteIsNamed(o: Observation)
    ensures ConcreteSign(o) <==> NamesSign(o)
  {
  }

  lemma {:induction false} FirstNamed(observations: seq<Observation>, v: Value)
    ensures FirstSign(observations) == Some(v) <==> FirstNames(observations, v)
  {
    if observations != [] {
      var rest := observations[1..];
      FirstNamed(rest, v);
      ConcreteIsNamed(observations[0]);
      if FirstNames(rest, v) && !NamesSign(observations[0]) {
        var k :| 0 <= k < |rest| && NamesSign(rest[k]) && rest[k].value == v
                 && forall j :: 0 <= j < k ==> !NamesSign(rest[j]);
        assert observations[k + 1] == rest[k];
        assert forall j :: 0 < j < k + 1 ==> observations[j] == rest[j - 1];
      }
      if FirstNames(observations, v) && !NamesSign(observations[0]) {
        var k :| 0 <= k < |observations| && NamesSign(observations[k]) && observations[k].value == v
                 && forall j :: 0 <= j < k ==> !NamesSign(observations[j]);
        assert rest[k - 1] == observations[k];
        assert forall j :: 0 <= j < k - 1 ==> rest[j] == observations[j + 1];
      }
    }
  }

  /** The providers agree, and the first concrete sign among them is this one. */
  predicate AgreedNews(observations: seq<Observation>, v: Value) {
    ReportsAgreement(observations, AllAgreeValue) && FirstNames(observations, v)
  }

  lemma NewsReads(observations: seq<Observation>, result: nat)
    ensures var r := ResolveNews(observations, result);
            && (r.conflict <==> ReportsAgreement(observations, MixedValue))
            && (r.candidate == Some(LongCandidate) <==> AgreedNews(observations, Positive))
            && (r.candidate == Some(ShortCandidate) <==> AgreedNews(observations, Negative))
  {
    AgreementReported(observations, MixedValue);
    AgreementReported(observations, AllAgreeValue);
    FirstNamed(observations, Positive);
    FirstNamed(observations, Negative);
  }

  /** A news-sentiment result aligned to the market by symbol. */
  ghost predicate AlignedByName(m: MarketEvaluation, i: nat)
    requires SoundMarket(m) && m.external.Some?
  {
    exists a :: a in m.alignment && a.bySymbol && m.external.value.scopes[a.scope].newsSentiment
                && m.external.value.scopes[a.scope].result == i
  }

  lemma AlignedAre(m: MarketEvaluation, i: nat)
    requires SoundMarket(m) && m.external.Some?
    ensures i in AlignedNews(m.alignment, m.external.value.scopes) <==> AlignedByName(m, i)
    ensures AlignedByName(m, i) ==> i < |m.external.value.results|
  {
  }

  /** Some aligned news is of the kind. */
  ghost predicate SomeAligned(m: MarketEvaluation, kind: seq<Observation> -> bool)
    requires SoundMarket(m) && m.external.Some?
  {
    exists i: nat :: AlignedByName(m, i) && i < |m.external.value.results| && kind(m.external.value.results[i])
  }

  function Agreeing(v: Value): seq<Observation> -> bool {
    (observations: seq<Observation>) => AgreedNews(observations, v)
  }

  function Divided(): seq<Observation> -> bool {
    (observations: seq<Observation>) => ReportsAgreement(observations, MixedValue)
  }

  /** A resolution with a property is a result of the matching kind. */
  lemma ResolvedKind(m: MarketEvaluation, property: Resolved -> bool, kind: seq<Observation> -> bool)
    requires SoundMarket(m) && m.external.Some?
    requires forall observations, i :: property(ResolveNews(observations, i)) <==> kind(observations)
    ensures (exists r :: r in AlignedResolutions(m) && property(r)) <==> SomeAligned(m, kind)
  {
    var results, resolved := m.external.value.results, AlignedResolutions(m);
    var indices := SortedIds(AlignedNews(m.alignment, m.external.value.scopes));
    AlignedInRange(m);
    if r :| r in resolved && property(r) {
      var k :| 0 <= k < |resolved| && resolved[k] == r;
      ResolvedLength(indices, results);
      ResolvedAt(indices, results, k);
      AlignedAre(m, indices[k]);
    }
    if SomeAligned(m, kind) {
      var i: nat :| AlignedByName(m, i) && i < |results| && kind(results[i]);
      AlignedAre(m, i);
      var k :| 0 <= k < |indices| && indices[k] == i;
      ResolvedAt(indices, results, k);
      assert property(resolved[k]) && resolved[k] in resolved;
    }
  }

  lemma ResolvedLength(indices: seq<nat>, results: seq<seq<Observation>>)
    requires forall i :: i in indices ==> i < |results|
    ensures |ResolveAll(indices, results)| == |indices|
  {
    if indices != [] {
      ResolvedAt(indices, results, 0);
    }
  }

  function IsConflict(): Resolved -> bool {
    (r: Resolved) => r.conflict
  }

  function IsRead(c: Candidate): Resolved -> bool {
    (r: Resolved) => r.candidate == Some(c)
  }

  function Other(c: Candidate): Candidate {
    match c case LongCandidate => ShortCandidate case ShortCandidate => LongCandidate
  }

  /** A tally has a direction exactly when nothing conflicts and all that was read, at
      least once, reads it. */
  lemma TallyDirection(resolved: seq<Resolved>, c: Candidate)
    ensures Tally(resolved).direction == Some(c) <==>
              && !(exists r :: r in resolved && IsConflict()(r))
              && (exists r :: r in resolved && IsRead(c)(r))
              && !(exists r :: r in resolved && IsRead(Other(c))(r))
    ensures Tally(resolved).verdict.Insufficient? <==>
              && !(exists r :: r in resolved && IsConflict()(r))
              && !(exists r :: r in resolved && IsRead(c)(r))
              && !(exists r :: r in resolved && IsRead(Other(c))(r))
  {
    var read := Filter(resolved, WasRead);
    FilterMembers(resolved, WasRead);
    var k := FirstConflictAt(resolved);
    if FirstConflict(resolved).None? {
      forall r | r in resolved
        ensures !IsConflict()(r)
      {
        var i :| 0 <= i < |resolved| && resolved[i] == r;
      }
      forall r | r in resolved
        ensures WasRead(r) <==> IsRead(c)(r) || IsRead(Other(c))(r)
      {
        NoCandidate(r.candidate);
      }
      if read != [] {
        assert read[0] in read;
      }
    } else {
      assert resolved[k] in resolved && IsConflict()(resolved[k]);
    }
  }

  lemma NewsKinds(m: MarketEvaluation)
    requires SoundMarket(m) && m.external.Some?
    ensures (exists r :: r in AlignedResolutions(m) && IsConflict()(r)) <==> SomeAligned(m, Divided())
    ensures (exists r :: r in AlignedResolutions(m) && IsRead(LongCandidate)(r)) <==> SomeAligned(m, Agreeing(Positive))
    ensures (exists r :: r in AlignedResolutions(m) && IsRead(ShortCandidate)(r)) <==> SomeAligned(m, Agreeing(Negative))
  {
    forall observations: seq<Observation>, i: nat
      ensures IsConflict()(ResolveNews(observations, i)) <==> Divided()(observations)
      ensures IsRead(LongCandidate)(ResolveNews(observations, i)) <==> Agreeing(Positive)(observations)
      ensures IsRead(ShortCandidate)(ResolveNews(observations, i)) <==> Agreeing(Negative)(observations)
    {
      NewsReads(observations, i);
    }
    ResolvedKind(m, IsConflict(), Divided());
    ResolvedKind(m, IsRead(LongCandidate), Agreeing(Positive));
    ResolvedKind(m, IsRead(ShortCandidate), Agreeing(Negative));
  }

  lemma JudgedFromResolutions(m: MarketEvaluation)
    requires SoundMarket(m) && m.external.Some?
    ensures JudgeEventDriven(m) == Tally(AlignedResolutions(m))
  {
  }

  /** The sign that speaks for a direction. */
  function SignFor(c: Candidate): Value {
    match c case LongCandidate => Positive case ShortCandidate => Negative
  }

  lemma EventTally(m: MarketEvaluation, c: Candidate)
    requires SoundMarket(m) && m.external.Some?
    ensures JudgeEventDriven(m).direction == Some(c) <==>
              && SomeAligned(m, Agreeing(SignFor(c))) && !SomeAligned(m, Agreeing(SignFor(Other(c))))
              && !SomeAligned(m, Divided())
    ensures JudgeEventDriven(m).verdict.Insufficient? <==>
              && !SomeAligned(m, Agreeing(SignFor(c))) && !SomeAligned(m, Agreeing(SignFor(Other(c))))
              && !SomeAligned(m, Divided())
  {
    JudgedFromResolutions(m);
    NewsKinds(m);
    TallyDirection(AlignedResolutions(m), c);
  }

  /** Event-driven is LONG exactly when some news aligned by symbol agrees on POSITIVE,
      none agrees on NEGATIVE, and none is MIXED; SHORT is its opposite. */
  lemma EventLongIff(m: MarketEvaluation)
    requires SoundMarket(m)
    ensures JudgeEventDriven(m).direction == Some(LongCandidate) <==>
              && m.external.Some?
              && SomeAligned(m, Agreeing(Positive)) && !SomeAligned(m, Agreeing(Negative)) && !SomeAligned(m, Divided())
    ensures JudgeEventDriven(m).direction == Some(ShortCandidate) <==>
              && m.external.Some?
              && SomeAligned(m, Agreeing(Negative)) && !SomeAligned(m, Agreeing(Positive)) && !SomeAligned(m, Divided())
  {
    if m.external.Some? {
      EventTally(m, LongCandidate);
      EventTally(m, ShortCandidate);
    }
  }

  /** Without any of the three there is nothing to judge. */
  lemma EventInsufficientIff(m: MarketEvaluation)
    requires SoundMarket(m)
    ensures JudgeEventDriven(m).verdict.Insufficient? <==>
            m.external.Some? ==>
              && !SomeAligned(m, Agreeing(Positive)) && !SomeAligned(m, Agreeing(Negative))
              && !SomeAligned(m, Divided())
  {
    if m.external.Some? {
      EventTally(m, LongCandidate);
    }
  }

  // ---- the judge --------------------------------------------------------------------------------

  /** Whose evidence speaks for which family. Mean reversion never has a direction. */
  lemma FamilyJudgedBy(m: MarketEvaluation, family: Family)
    requires SoundMarket(m)
    ensures family.MeanReversion? || (m.technical.None? && !family.EventDriven?) ==>
              JudgeFamily(m, family) == Judgement(Insufficient, None, [])
    ensures m.technical.Some? && family.TrendFollowing? ==> JudgeFamily(m, family) == JudgeTrendFollowing(m.technical)
    ensures m.technical.Some? && family.Breakout? ==> JudgeFamily(m, family) == JudgeBreakout(m.technical)
    ensures family.EventDriven? ==> JudgeFamily(m, family) == JudgeEventDriven(m)
  {
  }
}
