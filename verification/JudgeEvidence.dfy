/** When the judge gives a direction, and that each verdict carries the evidence its
    own result model demands. */
module JudgeEvidence {
  import opened Common
  import opened Strategies
  import opened Judge

  // ---- a direction is unopposed primary evidence ------------------------------------

  /** Some entry of the dimension concretely reads the other way. */
  ghost predicate OpposedBy(t: Technical, d: Dimension, table: Table, direction: Candidate)
    requires SoundTechnical(t)
  {
    exists entry :: entry in t.coherence && entry.dimension == d &&
      Objects(ResolveEntry(entry, t.results, table, Corroborating), direction)
  }

  ghost predicate Opposed(t: Technical, tables: seq<(Dimension, Table)>, direction: Candidate)
    requires SoundTechnical(t)
  {
    exists i :: 0 <= i < |tables| && OpposedBy(t, tables[i].0, tables[i].1, direction)
  }

  lemma {:induction false} EntryVetoesEmptyIff(entries: seq<Coherence>, results: seq<AnalystResult>, table: Table,
                                               direction: Candidate)
    requires forall entry :: entry in entries ==> SoundCoherence(entry, results)
    ensures EntryVetoes(entries, results, table, direction) == [] <==>
            forall entry :: entry in entries ==> !Objects(ResolveEntry(entry, results, table, Corroborating), direction)
    ensures forall ref :: ref in EntryVetoes(entries, results, table, direction) ==> ref.role.Corroborating?
  {
    if entries != [] {
      var init, last := entries[..|entries| - 1], entries[|entries| - 1];
      assert entries == init + [last];
      EntryVetoesEmptyIff(init, results, table, direction);
      ObjectionHasEvidence(last, results, table, direction);
    }
  }

  lemma ObjectionHasEvidence(entry: Coherence, results: seq<AnalystResult>, table: Table, direction: Candidate)
    requires SoundCoherence(entry, results)
    ensures var r := ResolveEntry(entry, results, table, Corroborating);
            && (Objects(r, direction) ==> r.refs != [])
            && forall ref :: ref in r.refs ==> ref.role.Corroborating?
  {
  }

  lemma DimensionVetoesEmptyIff(t: Technical, d: Dimension, table: Table, direction: Candidate)
    requires SoundTechnical(t)
    ensures forall entry :: entry in Entries(t, d) ==> SoundCoherence(entry, t.results)
    ensures EntryVetoes(Entries(t, d), t.results, table, direction) == [] <==> !OpposedBy(t, d, table, direction)
    ensures forall ref :: ref in EntryVetoes(Entries(t, d), t.results, table, direction) ==> ref.role.Corroborating?
  {
    EntriesSound(t, d);
    FilterMembers(t.coherence, OfDimension(d));
    EntryVetoesEmptyIff(Entries(t, d), t.results, table, direction);
  }

  lemma {:induction false} VetoesUpTo(t: Technical, tables: seq<(Dimension, Table)>, k: nat, direction: Candidate)
    requires SoundTechnical(t) && k <= |tables|
    ensures Vetoes(t, tables[..k], direction) == [] <==>
            forall i :: 0 <= i < k ==> !OpposedBy(t, tables[i].0, tables[i].1, direction)
    ensures forall ref :: ref in Vetoes(t, tables[..k], direction) ==> ref.role.Corroborating?
  {
    if k > 0 {
      var (d, table) := tables[k - 1];
      VetoesUpTo(t, tables, k - 1, direction);
      DimensionVetoesEmptyIff(t, d, table, direction);
      VetoesStep(t, tables, k - 1, direction);
    }
  }

  lemma VetoesStep(t: Technical, tables: seq<(Dimension, Table)>, k: nat, direction: Candidate)
    requires SoundTechnical(t) && k < |tables|
    ensures forall entry :: entry in Entries(t, tables[k].0) ==> SoundCoherence(entry, t.results)
    ensures Vetoes(t, tables[..k + 1], direction) ==
            Vetoes(t, tables[..k], direction) + EntryVetoes(Entries(t, tables[k].0), t.results, tables[k].1, direction)
  {
    EntriesSound(t, tables[k].0);
    var upTo := tables[..k + 1];
    assert upTo[..k] == tables[..k] && upTo[k] == tables[k];
  }

  lemma VetoesEmptyIff(t: Technical, tables: seq<(Dimension, Table)>, direction: Candidate)
    requires SoundTechnical(t)
    ensures Vetoes(t, tables, direction) == [] <==> !Opposed(t, tables, direction)
    ensures forall ref :: ref in Vetoes(t, tables, direction) ==> ref.role.Corroborating?
  {
    assert tables[..|tables|] == tables;
    VetoesUpTo(t, tables, |tables|, direction);
  }

  lemma ConcludedDirection(change: Resolved, slope: Resolved, longVetoes: seq<EvidenceRef>, shortVetoes: seq<EvidenceRef>,
                           c: Candidate)
    ensures ConcludeTrend(change, slope, longVetoes, shortVetoes).direction == Some(c) <==>
              && !change.conflict && !slope.conflict
              && (change.candidate == Some(c) || slope.candidate == Some(c))
              && !Objects(change, c) && !Objects(slope, c)
              && (if c.LongCandidate? then longVetoes else shortVetoes) == []
  {
  }

  /** Trend following has direction `c` exactly when neither primary dimension is in
      conflict, at least one reads `c`, none reads the opposite, and no corroborating
      entry concretely reads the opposite. Corroborators alone never create one. */
  lemma TrendDirectionalIff(t: Technical, c: Candidate)
    requires SoundTechnical(t)
    ensures var change, slope := ResolveDimension(t, ReturnDirection, TREND, Primary),
                                 ResolveDimension(t, SlopeDirection, TREND, Primary);
            JudgeTrendFollowing(Some(t)).direction == Some(c) <==>
              && !change.conflict && !slope.conflict
              && (change.candidate == Some(c) || slope.candidate == Some(c))
              && !Objects(change, c) && !Objects(slope, c)
              && !Opposed(t, CORROBORATORS, c)
  {
    VetoesEmptyIff(t, CORROBORATORS, c);
    ConcludedDirection(ResolveDimension(t, ReturnDirection, TREND, Primary),
                       ResolveDimension(t, SlopeDirection, TREND, Primary),
                       Vetoes(t, CORROBORATORS, LongCandidate), Vetoes(t, CORROBORATORS, ShortCandidate), c);
  }

  lemma {:induction false} ConfirmationsInExact(observations: seq<Observation>, result: nat, ref: EvidenceRef)
    ensures ref in ConfirmationsIn(observations, result) <==>
            && ref.contour.TechnicalContour? && ref.role.Primary? && ref.result == result
            && ref.observation < |observations| && ConfirmsBreak(observations[ref.observation])
  {
    if observations != [] {
      ConfirmationsInExact(observations[..|observations| - 1], result, ref);
    }
  }

  lemma {:induction false} ConfirmationsExact(results: seq<AnalystResult>, ref: EvidenceRef)
    ensures ref in Confirmations(results) <==>
            && ref.contour.TechnicalContour? && ref.role.Primary? && ref.result < |results|
            && results[ref.result].marketStructure
            && ref.observation < |results[ref.result].observations|
            && ConfirmsBreak(results[ref.result].observations[ref.observation])
  {
    if results != [] {
      var i := |results| - 1;
      ConfirmationsExact(results[..i], ref);
      ConfirmationsInExact(results[i].observations, i, ref);
    }
  }

  ghost predicate BreakIsConfirmed(t: Technical) {
    exists r, o :: 0 <= r < |t.results| && 0 <= o < |t.results[r].observations| &&
      t.results[r].marketStructure && ConfirmsBreak(t.results[r].observations[o])
  }

  /** Breakout has direction `c` exactly when market structure confirms a break, the
      latest break reads `c` without conflict, and returns do not concretely read the
      opposite. */
  lemma BreakoutDirectionalIff(t: Technical, c: Candidate)
    requires SoundTechnical(t)
    ensures JudgeBreakout(Some(t)).direction == Some(c) <==>
              && BreakIsConfirmed(t)
              && ResolveDimension(t, LatestBreakDirection, BREAKS, Primary).candidate == Some(c)
              && !Objects(ResolveDimension(t, ReturnDirection, TREND, Corroborating), c)
  {
    var confirmed := Confirmations(t.results);
    if confirmed != [] {
      ConfirmationsExact(t.results, confirmed[0]);
    }
    if BreakIsConfirmed(t) {
      var r, o :| 0 <= r < |t.results| && 0 <= o < |t.results[r].observations| &&
        t.results[r].marketStructure && ConfirmsBreak(t.results[r].observations[o]);
      ConfirmationsExact(t.results, EvidenceRef(TechnicalContour, Primary, r, o));
    }
  }

  // ---- what the result model demands ------------------------------------------------------

  lemma TwoDifferent(refs: seq<EvidenceRef>, a: EvidenceRef, b: EvidenceRef)
    requires a in refs && b in refs && a != b
    ensures SoundJudgement(Conflicting(refs))
  {
    CanonicalizeSorts(refs);
    var sorted := Canonicalize(refs);
    assert a in sorted && b in sorted;
  }

  lemma OneDirection(refs: seq<EvidenceRef>, primary: EvidenceRef, direction: Candidate)
    requires primary in refs && primary.role.Primary?
    ensures SoundJudgement(Judgement(Directional, Some(direction), Canonicalize(refs)))
  {
    CanonicalizeSorts(refs);
  }

  /** Where a resolution's evidence points. */
  ghost predicate PointsAt(ref: EvidenceRef, t: Technical, d: Dimension, role: Role) {
    && ref.contour.TechnicalContour? && ref.role == role
    && RefInRange((ref.result, ref.observation), t.results)
    && t.results[ref.result].observations[ref.observation].dimension == d
  }

  lemma ResolvedEvidence(t: Technical, d: Dimension, table: Table, role: Role)
    requires SoundTechnical(t)
    ensures var r := ResolveDimension(t, d, table, role);
            && (forall ref :: ref in r.refs ==> PointsAt(ref, t, d, role))
            && (r.conflict || r.candidate.Some? ==> |r.refs| >= 2 && r.refs[0] != r.refs[1])
            && !(r.conflict && r.candidate.Some?)
  {
    EntriesSound(t, d);
    var entries, r := Entries(t, d), ResolveDimension(t, d, table, role);
    if entries != [] {
      var entry := entries[0];
      assert entry in entries;
      forall ref | ref in r.refs
        ensures PointsAt(ref, t, d, role)
      {
        var i :| 0 <= i < |r.refs| && r.refs[i] == ref;
        assert entry.refs[i] in entry.refs;
      }
    }
  }

  /** Every trend verdict is one its result model accepts. */
  lemma TrendVerdictSound(t: Technical)
    requires SoundTechnical(t)
    ensures SoundJudgement(JudgeTrendFollowing(Some(t)))
  {
    var change := ResolveDimension(t, ReturnDirection, TREND, Primary);
    var slope := ResolveDimension(t, SlopeDirection, TREND, Primary);
    ResolvedEvidence(t, ReturnDirection, TREND, Primary);
    ResolvedEvidence(t, SlopeDirection, TREND, Primary);
    VetoesEmptyIff(t, CORROBORATORS, LongCandidate);
    VetoesEmptyIff(t, CORROBORATORS, ShortCandidate);
    if change.conflict {
      TwoDifferent(change.refs, change.refs[0], change.refs[1]);
    } else if slope.conflict {
      TwoDifferent(slope.refs, slope.refs[0], slope.refs[1]);
    } else if change.candidate.Some? || slope.candidate.Some? {
      if change.candidate.Some? && slope.candidate.Some? {
        assert change.refs[0] in change.refs && slope.refs[0] in slope.refs;
      }
      PrimariesSound(change, slope, Vetoes(t, CORROBORATORS, LongCandidate), Vetoes(t, CORROBORATORS, ShortCandidate));
    }
  }

  ghost predicate AllOfRole(refs: seq<EvidenceRef>, role: Role) {
    forall ref :: ref in refs ==> ref.role == role
  }

  lemma PrimariesSound(change: Resolved, slope: Resolved, longVetoes: seq<EvidenceRef>, shortVetoes: seq<EvidenceRef>)
    requires !change.conflict && !slope.conflict && (change.candidate.Some? || slope.candidate.Some?)
    requires AllOfRole(change.refs, Primary) && AllOfRole(slope.refs, Primary)
    requires AllOfRole(longVetoes, Corroborating) && AllOfRole(shortVetoes, Corroborating)
    requires change.candidate.Some? ==> change.refs != []
    requires slope.candidate.Some? ==> slope.refs != []
    requires change.candidate.Some? && slope.candidate.Some? ==> change.refs[0] != slope.refs[0]
    ensures SoundJudgement(ConcludeTrend(change, slope, longVetoes, shortVetoes))
  {
    var primary := RefsIfRead(change) + RefsIfRead(slope);
    var ref := primary[0];
    assert ref in change.refs || ref in slope.refs;
    if change.candidate.Some? && slope.candidate.Some? && change.candidate != slope.candidate {
      assert primary[|change.refs|] == slope.refs[0];
      TwoDifferent(primary, ref, slope.refs[0]);
    } else {
      var direction := if change.candidate.Some? then change.candidate.value else slope.candidate.value;
      var vetoes := if direction.LongCandidate? then longVetoes else shortVetoes;
      if vetoes != [] {
        assert vetoes[0] in vetoes && vetoes[0] in primary + vetoes;
        TwoDifferent(primary + vetoes, ref, vetoes[0]);
      } else {
        OneDirection(primary, ref, direction);
      }
    }
  }

  lemma BreakoutVerdictSound(t: Technical)
    requires SoundTechnical(t)
    ensures SoundJudgement(JudgeBreakout(Some(t)))
  {
    var latest := ResolveDimension(t, LatestBreakDirection, BREAKS, Primary);
    var change := ResolveDimension(t, ReturnDirection, TREND, Corroborating);
    var confirmed := Confirmations(t.results);
    ResolvedEvidence(t, LatestBreakDirection, BREAKS, Primary);
    ResolvedEvidence(t, ReturnDirection, TREND, Corroborating);
    if latest.conflict {
      TwoDifferent(latest.refs, latest.refs[0], latest.refs[1]);
    } else if confirmed != [] && latest.candidate.Some? {
      var ref := confirmed[0];
      ConfirmationsExact(t.results, ref);
      if Objects(change, latest.candidate.value) {
        assert change.refs[0] in change.refs;
        TwoDifferent(confirmed + latest.refs + change.refs, ref, change.refs[0]);
      } else {
        OneDirection(confirmed + latest.refs, ref, latest.candidate.value);
      }
    }
  }

  // ---- news sentiment -----------------------------------------------------------------------

  lemma {:induction false} SignRefsExact(observations: seq<Observation>, result: nat, keep: Observation -> bool)
    ensures forall ref :: ref in SignRefs(observations, result, keep) <==>
              && ref.contour.ExternalContour? && ref.role.Primary? && ref.result == result
              && ref.observation < |observations| && keep(observations[ref.observation])
  {
    if observations != [] {
      SignRefsExact(observations[..|observations| - 1], result, keep);
    }
  }

  lemma {:induction false} SignRefsDistinct(observations: seq<Observation>, result: nat, keep: Observation -> bool)
    ensures Distinct(SignRefs(observations, result, keep))
  {
    if observations != [] {
      var k := |observations| - 1;
      SignRefsDistinct(observations[..k], result, keep);
      SignRefsExact(observations[..k], result, keep);
      assert forall ref :: ref in SignRefs(observations[..k], result, keep) ==> ref.observation < k;
    }
  }

  lemma {:induction false} FirstSignOccurs(observations: seq<Observation>)
    ensures FirstSign(observations).Some? ==>
              exists k :: 0 <= k < |observations| && HasSign(FirstSign(observations).value)(observations[k])
  {
    if observations != [] {
      if ConcreteSign(observations[0]) {
        assert HasSign(FirstSign(observations).value)(observations[0]);
      } else {
        FirstSignOccurs(observations[1..]);
        if FirstSign(observations).Some? {
          var k :| 0 <= k < |observations| - 1 && HasSign(FirstSign(observations).value)(observations[1..][k]);
          assert HasSign(FirstSign(observations).value)(observations[k + 1]);
        }
      }
    }
  }

  /** A resolution's evidence lies in one analysis result, without repeats. */
  ghost predicate SpeaksOf(r: Resolved, result: nat) {
    && (forall ref :: ref in r.refs ==> ref.role.Primary? && ref.result == result)
    && (r.candidate.Some? ==> r.refs != [])
    && Distinct(r.refs)
  }

  lemma NewsEvidence(observations: seq<Observation>, result: nat)
    ensures SpeaksOf(ResolveNews(observations, result), result)
  {
    SignRefsExact(observations, result, ConcreteSign);
    SignRefsDistinct(observations, result, ConcreteSign);
    var sign := FirstSign(observations);
    if sign.Some? {
      SignRefsExact(observations, result, HasSign(sign.value));
      SignRefsDistinct(observations, result, HasSign(sign.value));
      FirstSignOccurs(observations);
      var k :| 0 <= k < |observations| && HasSign(sign.value)(observations[k]);
      assert EvidenceRef(ExternalContour, Primary, result, k) in SignRefs(observations, result, HasSign(sign.value));
    }
  }

  /** Each resolution speaks of its own analysis result. */
  ghost predicate OwnEvidence(resolved: seq<Resolved>, indices: seq<nat>) {
    && |resolved| == |indices|
    && forall k :: 0 <= k < |resolved| ==> SpeaksOf(resolved[k], indices[k])
  }

  lemma {:induction false} AllNewsEvidence(indices: seq<nat>, results: seq<seq<Observation>>)
    requires forall i :: i in indices ==> i < |results|
    ensures OwnEvidence(ResolveAll(indices, results), indices)
  {
    if indices != [] {
      var n := |indices| - 1;
      assert (forall i :: i in indices[..n] ==> i in indices) && indices[n] in indices;
      AllNewsEvidence(indices[..n], results);
      NewsEvidence(results[indices[n]], indices[n]);
    }
  }

  lemma {:induction false} AllRefsMembers(resolved: seq<Resolved>, k: nat, ref: EvidenceRef)
    requires k < |resolved| && resolved[k].candidate.Some? && ref in resolved[k].refs
    ensures ref in AllRefs(resolved)
  {
    if k < |resolved| - 1 {
      AllRefsMembers(resolved[..|resolved| - 1], k, ref);
    }
  }

  lemma {:induction false} FirstConflictMember(resolved: seq<Resolved>)
    ensures FirstConflict(resolved).Some? ==> FirstConflict(resolved).value in resolved
  {
    if resolved != [] {
      FirstConflictMember(resolved[1..]);
    }
  }

  lemma {:induction false} CanonicalizeNoLonger(refs: seq<EvidenceRef>)
    ensures |Canonicalize(refs)| <= |refs|
  {
    if refs != [] {
      CanonicalizeNoLonger(refs[..|refs| - 1]);
      InsertAtMostOne(Canonicalize(refs[..|refs| - 1]), refs[|refs| - 1]);
    }
  }

  lemma {:induction false} InsertAtMostOne(sorted: seq<EvidenceRef>, r: EvidenceRef)
    ensures |InsertRef(sorted, r)| <= |sorted| + 1
  {
    if sorted != [] {
      InsertAtMostOne(sorted[..|sorted| - 1], r);
    }
  }

  lemma ReadTallySound(resolved: seq<Resolved>, indices: seq<nat>, read: seq<Resolved>)
    requires OwnEvidence(resolved, indices) && Distinct(indices)
    requires read != [] && forall r :: r in read ==> r in resolved && WasRead(r)
    ensures SoundJudgement(if Disagree(read) then Conflicting(AllRefs(resolved))
                           else Judgement(Directional, read[0].candidate, Canonicalize(AllRefs(resolved))))
  {
    assert read[0] in read;
    var i := Occurrence(resolved, indices, read[0]);
    var ref := read[0].refs[0];
    if Disagree(read) {
      var r :| r in read && r.candidate != read[0].candidate;
      var j := Occurrence(resolved, indices, r);
      assert indices[i] != indices[j];
      TwoDifferent(AllRefs(resolved), ref, r.refs[0]);
    } else {
      OneDirection(AllRefs(resolved), ref, read[0].candidate.value);
    }
  }

  lemma Occurrence(resolved: seq<Resolved>, indices: seq<nat>, r: Resolved) returns (i: nat)
    requires OwnEvidence(resolved, indices) && r in resolved && WasRead(r)
    ensures i < |resolved| == |indices| && resolved[i] == r && r.refs != []
    ensures r.refs[0].role.Primary? && r.refs[0].result == indices[i] && r.refs[0] in AllRefs(resolved)
  {
    i :| 0 <= i < |resolved| && resolved[i] == r;
    assert SpeaksOf(resolved[i], indices[i]);
    assert r.refs[0] in r.refs;
    AllRefsMembers(resolved, i, r.refs[0]);
  }

  lemma TallySoundIff(resolved: seq<Resolved>, indices: seq<nat>)
    requires OwnEvidence(resolved, indices) && Distinct(indices)
    ensures SoundJudgement(Tally(resolved)) <==>
            (FirstConflict(resolved).Some? ==> |FirstConflict(resolved).value.refs| >= 2)
  {
    var conflict, read := FirstConflict(resolved), Filter(resolved, WasRead);
    if conflict.Some? {
      FirstConflictMember(resolved);
      var i :| 0 <= i < |resolved| && resolved[i] == conflict.value;
      assert SpeaksOf(resolved[i], indices[i]);
      var refs := conflict.value.refs;
      CanonicalizeNoLonger(refs);
      if |refs| >= 2 {
        TwoDifferent(refs, refs[0], refs[1]);
      }
    } else if read != [] {
      FilterMembers(resolved, WasRead);
      ReadTallySound(resolved, indices, read);
    }
  }

  /** The resolutions an event-driven verdict is tallied from. */
  function AlignedResolutions(m: MarketEvaluation): seq<Resolved>
    requires SoundMarket(m) && m.external.Some?
  {
    AlignedInRange(m);
    ResolveAll(SortedIds(AlignedNews(m.alignment, m.external.value.scopes)), m.external.value.results)
  }

  // ---- when the judge raises ------------------------------------------------------------

  /** The aligned news result of least index whose providers' agreement reads MIXED. */
  ghost predicate FirstMixedNews(m: MarketEvaluation, index: nat)
    requires SoundMarket(m) && m.external.Some?
  {
    var aligned := AlignedNews(m.alignment, m.external.value.scopes);
    && IsAlignedIn(m, index)
    && AgreementOf(m.external.value.results[index]) == Some(MixedValue)
    && forall o :: o in aligned && o < index ==> AgreementOf(m.external.value.results[o]) != Some(MixedValue)
  }

  predicate IsAlignedIn(m: MarketEvaluation, index: nat)
    requires SoundMarket(m) && m.external.Some?
  {
    index in AlignedNews(m.alignment, m.external.value.scopes) && index < |m.external.value.results|
  }

  /** Two providers name a concrete sign. */
  predicate TwoConcreteSigns(observations: seq<Observation>) {
    exists i, j :: 0 <= i < j < |observations| && ConcreteSign(observations[i]) && ConcreteSign(observations[j])
  }

  /** News whose first MIXED tally rests on fewer than two concrete signs. */
  ghost predicate ThinlyMixed(m: MarketEvaluation)
    requires SoundMarket(m) && m.external.Some?
  {
    exists index: nat :: FirstMixedNews(m, index) && !TwoConcreteSigns(m.external.value.results[index])
  }

  lemma TwoRefsIffTwoSigns(observations: seq<Observation>, result: nat)
    ensures |SignRefs(observations, result, ConcreteSign)| >= 2 <==> TwoConcreteSigns(observations)
  {
    var refs := SignRefs(observations, result, ConcreteSign);
    SignRefsExact(observations, result, ConcreteSign);
    SignRefsDistinct(observations, result, ConcreteSign);
    if |refs| >= 2 {
      var a, b := refs[0], refs[1];
      assert a in refs && b in refs && a != b;
      assert a.observation != b.observation;
      var i := if a.observation < b.observation then a.observation else b.observation;
      var j := if a.observation < b.observation then b.observation else a.observation;
      assert ConcreteSign(observations[i]) && ConcreteSign(observations[j]);
    }
    if TwoConcreteSigns(observations) {
      var i, j :| 0 <= i < j < |observations| && ConcreteSign(observations[i]) && ConcreteSign(observations[j]);
      assert EvidenceRef(ExternalContour, Primary, result, i) in refs;
      assert EvidenceRef(ExternalContour, Primary, result, j) in refs;
    }
  }

  lemma {:induction false} ResolvedAt(indices: seq<nat>, results: seq<seq<Observation>>, k: nat)
    requires (forall i :: i in indices ==> i < |results|) && k < |indices|
    ensures |ResolveAll(indices, results)| == |indices|
    ensures indices[k] in indices && ResolveAll(indices, results)[k] == ResolveNews(results[indices[k]], indices[k])
  {
    var n := |indices| - 1;
    assert (forall i :: i in indices[..n] ==> i in indices) && indices[n] in indices;
    if n > 0 {
      ResolvedAt(indices[..n], results, if k < n then k else 0);
    }
  }

  /** Where the first conflict stands. */
  lemma {:induction false} FirstConflictAt(resolved: seq<Resolved>) returns (k: nat)
    ensures FirstConflict(resolved).None? <==> forall i :: 0 <= i < |resolved| ==> !resolved[i].conflict
    ensures FirstConflict(resolved).Some? ==>
              && k < |resolved| && resolved[k].conflict && resolved[k] == FirstConflict(resolved).value
              && forall i :: 0 <= i < k ==> !resolved[i].conflict
  {
    k := 0;
    if resolved != [] && !resolved[0].conflict {
      var later := FirstConflictAt(resolved[1..]);
      k := later + 1;
      assert forall i :: 0 < i < |resolved| ==> resolved[i] == resolved[1..][i - 1];
    }
  }

  lemma ConflictIffMixed(observations: seq<Observation>, result: nat)
    ensures ResolveNews(observations, result).conflict <==> AgreementOf(observations) == Some(MixedValue)
    ensures ResolveNews(observations, result).conflict ==>
              ResolveNews(observations, result).refs == SignRefs(observations, result, ConcreteSign)
  {
  }

  /** The tally's first conflict is the first MIXED news result. */
  lemma ConflictIsFirstMixed(m: MarketEvaluation)
    requires SoundMarket(m) && m.external.Some?
    ensures (FirstConflict(AlignedResolutions(m)).Some? ==> |FirstConflict(AlignedResolutions(m)).value.refs| >= 2)
            <==> !ThinlyMixed(m)
  {
    var results := m.external.value.results;
    var indices := SortedIds(AlignedNews(m.alignment, m.external.value.scopes));
    AlignedInRange(m);
    forall k | 0 <= k < |indices|
      ensures |AlignedResolutions(m)| == |indices| && indices[k] < |results|
      ensures AlignedResolutions(m)[k] == ResolveNews(results[indices[k]], indices[k])
      ensures AlignedResolutions(m)[k].conflict <==> AgreementOf(results[indices[k]]) == Some(MixedValue)
    {
      ResolvedAt(indices, results, k);
      ConflictIffMixed(results[indices[k]], indices[k]);
    }
    if indices == [] {
      assert AlignedResolutions(m) == [];
    }
    var k := FirstConflictAt(AlignedResolutions(m));
    if FirstConflict(AlignedResolutions(m)).Some? {
      FirstConflictIsMixed(m, indices, k);
      ConflictIffMixed(results[indices[k]], indices[k]);
      TwoRefsIffTwoSigns(results[indices[k]], indices[k]);
      forall o | FirstMixedNews(m, o)
        ensures o == indices[k]
      {
      }
    } else {
      forall o: nat | IsAlignedIn(m, o)
        ensures AgreementOf(results[o]) != Some(MixedValue)
      {
        var i :| 0 <= i < |indices| && indices[i] == o;
        assert !AlignedResolutions(m)[i].conflict;
      }
    }
  }

  lemma FirstConflictIsMixed(m: MarketEvaluation, indices: seq<nat>, k: nat)
    requires SoundMarket(m) && m.external.Some?
    requires indices == SortedIds(AlignedNews(m.alignment, m.external.value.scopes)) && k < |indices|
    requires forall i :: 0 <= i < |indices| ==> indices[i] < |m.external.value.results|
    requires AgreementOf(m.external.value.results[indices[k]]) == Some(MixedValue)
    requires forall i :: 0 <= i < k ==> AgreementOf(m.external.value.results[indices[i]]) != Some(MixedValue)
    ensures FirstMixedNews(m, indices[k])
  {
    var aligned := AlignedNews(m.alignment, m.external.value.scopes);
    assert indices[k] in indices;
    forall o | o in aligned && o < indices[k]
      ensures AgreementOf(m.external.value.results[o]) != Some(MixedValue)
    {
      var i := PositionBefore(indices, k, o);
      assert AgreementOf(m.external.value.results[indices[i]]) != Some(MixedValue);
    }
  }

  lemma PositionBefore(indices: seq<nat>, k: nat, o: nat) returns (i: nat)
    requires Ascending(indices) && k < |indices| && o in indices && o < indices[k]
    ensures i < k && indices[i] == o
  {
    i :| 0 <= i < |indices| && indices[i] == o;
  }

  lemma EventVerdictSoundIff(m: MarketEvaluation)
    requires SoundMarket(m) && m.external.Some?
    ensures SoundJudgement(JudgeEventDriven(m)) <==> !ThinlyMixed(m)
  {
    var indices := SortedIds(AlignedNews(m.alignment, m.external.value.scopes));
    AlignedInRange(m);
    AllNewsEvidence(indices, m.external.value.results);
    assert Distinct(indices);
    TallySoundIff(AlignedResolutions(m), indices);
    ConflictIsFirstMixed(m);
  }

  /** Every verdict is one its result model accepts, with one exception: event-driven
      news whose first MIXED tally, by result index, holds fewer than two observations
      with a concrete provider sign. There the judge raises. */
  lemma VerdictSoundIff(m: MarketEvaluation, family: Family)
    requires SoundMarket(m)
    ensures SoundJudgement(JudgeFamily(m, family)) <==>
            !(family.EventDriven? && m.external.Some? && ThinlyMixed(m))
  {
    if m.technical.Some? {
      TrendVerdictSound(m.technical.value);
      BreakoutVerdictSound(m.technical.value);
    }
    if m.external.Some? {
      EventVerdictSoundIff(m);
    }
  }

  /** One provider positive and one at zero: the tally counts zero as a sign of its own,
      so the providers disagree, yet only one sign is concrete. */
  const POSITIVE_AND_ZERO: seq<Observation> := [
    Observation(PerProviderSentimentSign, Positive),
    Observation(PerProviderSentimentSign, OtherValue("ZERO")),
    Observation(SentimentProviderAgreement, MixedValue)]

  const ZERO_NEWS: MarketEvaluation :=
    MarketEvaluation(None, Some(External([Scope(true, 0)], [POSITIVE_AND_ZERO])), [Alignment(0, true)])

  lemma PositiveAndZeroRaises()
    ensures SoundMarket(ZERO_NEWS) && !SoundJudgement(JudgeFamily(ZERO_NEWS, EventDriven))
  {
    SingleNewsAligned(ZERO_NEWS, POSITIVE_AND_ZERO);
    PositiveAndZeroIsMixed();
    assert FirstMixedNews(ZERO_NEWS, 0);
    VerdictSoundIff(ZERO_NEWS, EventDriven);
  }

  lemma SingleNewsAligned(m: MarketEvaluation, observations: seq<Observation>)
    requires m == MarketEvaluation(None, Some(External([Scope(true, 0)], [observations])), [Alignment(0, true)])
    ensures SoundMarket(m) && AlignedNews(m.alignment, m.external.value.scopes) == {0}
  {
    assert Alignment(0, true) in m.alignment;
  }

  lemma PositiveAndZeroIsMixed()
    ensures AgreementOf(POSITIVE_AND_ZERO) == Some(MixedValue) && !TwoConcreteSigns(POSITIVE_AND_ZERO)
  {
    var tail := POSITIVE_AND_ZERO[1..];
    assert tail[1..] == [Observation(SentimentProviderAgreement, MixedValue)];
    assert AgreementOf(tail[1..]) == Some(MixedValue);
  }
}
