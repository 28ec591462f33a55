/** What the judge's verdicts mean: they are symmetric under mirroring the evidence,
    a direction is exactly unopposed primary evidence, and every verdict carries
    the evidence its own model demands. */
module JudgeMirror {
  import opened Common
  import opened Strategies
  import opened Judge

  // ---- the mirror --------------------------------------------------------------

  function Flip(c: Candidate): Candidate {
    if c.LongCandidate? then ShortCandidate else LongCandidate
  }

  function FlipOption(c: Option<Candidate>): Option<Candidate> {
    if c.Some? then Some(Flip(c.value)) else None
  }

  function MirrorValue(v: Value): Value {
    match v
    case Upward => Downward
    case Downward => Upward
    case UpwardBreak => DownwardBreak
    case DownwardBreak => UpwardBreak
    case AboveSma => BelowSma
    case BelowSma => AboveSma
    case FasterAboveSlower => FasterBelowSlower
    case FasterBelowSlower => FasterAboveSlower
    case UpwardStructure => DownwardStructure
    case DownwardStructure => UpwardStructure
    case AboveMidpoint => BelowMidpoint
    case BelowMidpoint => AboveMidpoint
    case Positive => Negative
    case Negative => Positive
    case _ => v
  }

  function MirrorObservation(o: Observation): Observation { o.(value := MirrorValue(o.value)) }

  function MirrorObservations(s: seq<Observation>): seq<Observation> { Map(s, MirrorObservation) }

  function MirrorResult(r: AnalystResult): AnalystResult {
    r.(observations := MirrorObservations(r.observations))
  }

  function MirrorTechnical(t: Technical): Technical { t.(results := Map(t.results, MirrorResult)) }

  function MirrorExternal(e: External): External { e.(results := Map(e.results, MirrorObservations)) }

  function MirrorMarket(m: MarketEvaluation): MarketEvaluation {
    MarketEvaluation(
      if m.technical.Some? then Some(MirrorTechnical(m.technical.value)) else None,
      if m.external.Some? then Some(MirrorExternal(m.external.value)) else None,
      m.alignment)
  }

  function MirrorResolved(r: Resolved): Resolved { r.(candidate := FlipOption(r.candidate)) }

  function MirrorJudgement(j: Judgement): Judgement { j.(direction := FlipOption(j.direction)) }

  lemma MirrorTwice(v: Value)
    ensures MirrorValue(MirrorValue(v)) == v
  {
  }

  predicate MirrorsItself(table: Table) {
    MirrorValue(table.up) == table.down && table.up != table.down
  }

  lemma TablesMirror()
    ensures MirrorsItself(TREND) && MirrorsItself(BREAKS) && MirrorsItself(SENTIMENT)
    ensures forall i :: 0 <= i < |CORROBORATORS| ==> MirrorsItself(CORROBORATORS[i].1)
  {
  }

  lemma ReadingMirrors(table: Table, v: Value)
    requires MirrorsItself(table)
    ensures Reading(table, MirrorValue(v)) == FlipOption(Reading(table, v))
  {
    MirrorTwice(v);
    MirrorTwice(table.up);
  }

  lemma MirrorKeepsSound(t: Technical)
    requires SoundTechnical(t)
    ensures SoundTechnical(MirrorTechnical(t))
  {
    var m := MirrorTechnical(t);
    forall entry | entry in m.coherence
      ensures SoundCoherence(entry, m.results)
    {
      if !entry.verdict.InsufficientData? {
        forall ref | ref in entry.refs
          ensures RefInRange(ref, m.results) && m.results[ref.0].observations[ref.1].dimension == entry.dimension
        {
          assert RefInRange(ref, t.results);
        }
      }
    }
  }

  lemma EntryMirrors(entry: Coherence, results: seq<AnalystResult>, table: Table, role: Role)
    requires SoundCoherence(entry, results) && SoundCoherence(entry, Map(results, MirrorResult)) && MirrorsItself(table)
    ensures ResolveEntry(entry, Map(results, MirrorResult), table, role)
            == MirrorResolved(ResolveEntry(entry, results, table, role))
  {
    if entry.verdict.AllAgree? {
      var first := entry.refs[0];
      assert first in entry.refs;
      ReadingMirrors(table, results[first.0].observations[first.1].value);
    }
  }

  lemma DimensionMirrors(t: Technical, d: Dimension, table: Table, role: Role)
    requires SoundTechnical(t) && SoundTechnical(MirrorTechnical(t)) && MirrorsItself(table)
    ensures ResolveDimension(MirrorTechnical(t), d, table, role) == MirrorResolved(ResolveDimension(t, d, table, role))
  {
    EntriesSound(t, d);
    EntriesSound(MirrorTechnical(t), d);
    var entries := Entries(t, d);
    if entries != [] {
      assert entries[0] in entries;
      EntryMirrors(entries[0], t.results, table, role);
    }
  }

  lemma {:induction false} EntryVetoesMirror(entries: seq<Coherence>, results: seq<AnalystResult>, table: Table,
                                             direction: Candidate)
    requires forall entry :: entry in entries ==>
               SoundCoherence(entry, results) && SoundCoherence(entry, Map(results, MirrorResult))
    requires MirrorsItself(table)
    ensures EntryVetoes(entries, Map(results, MirrorResult), table, Flip(direction))
            == EntryVetoes(entries, results, table, direction)
  {
    if entries != [] {
      var last := entries[|entries| - 1];
      assert last in entries;
      assert forall entry :: entry in entries[..|entries| - 1] ==> entry in entries;
      EntryVetoesMirror(entries[..|entries| - 1], results, table, direction);
      EntryMirrors(last, results, table, Corroborating);
    }
  }

  lemma {:induction false} VetoesMirror(t: Technical, tables: seq<(Dimension, Table)>, direction: Candidate)
    requires SoundTechnical(t) && SoundTechnical(MirrorTechnical(t))
    requires forall i :: 0 <= i < |tables| ==> MirrorsItself(tables[i].1)
    ensures Vetoes(MirrorTechnical(t), tables, Flip(direction)) == Vetoes(t, tables, direction)
  {
    if tables != [] {
      var (d, table) := tables[|tables| - 1];
      assert MirrorsItself(tables[|tables| - 1].1);
      VetoesMirror(t, tables[..|tables| - 1], direction);
      EntriesSound(t, d);
      EntriesSound(MirrorTechnical(t), d);
      EntryVetoesMirror(Entries(t, d), t.results, table, direction);
    }
  }

  lemma ConclusionMirrors(change: Resolved, slope: Resolved, longVetoes: seq<EvidenceRef>, shortVetoes: seq<EvidenceRef>)
    ensures ConcludeTrend(MirrorResolved(change), MirrorResolved(slope), shortVetoes, longVetoes)
            == MirrorJudgement(ConcludeTrend(change, slope, longVetoes, shortVetoes))
  {
  }

  lemma TrendFollowingMirrors(t: Technical)
    requires SoundTechnical(t) && SoundTechnical(MirrorTechnical(t))
    ensures JudgeTrendFollowing(Some(MirrorTechnical(t))) == MirrorJudgement(JudgeTrendFollowing(Some(t)))
  {
    TablesMirror();
    DimensionMirrors(t, ReturnDirection, TREND, Primary);
    DimensionMirrors(t, SlopeDirection, TREND, Primary);
    VetoesMirror(t, CORROBORATORS, LongCandidate);
    VetoesMirror(t, CORROBORATORS, ShortCandidate);
    ConclusionMirrors(ResolveDimension(t, ReturnDirection, TREND, Primary),
                      ResolveDimension(t, SlopeDirection, TREND, Primary),
                      Vetoes(t, CORROBORATORS, LongCandidate), Vetoes(t, CORROBORATORS, ShortCandidate));
  }

  lemma {:induction false} ConfirmationsInMirror(observations: seq<Observation>, result: nat)
    ensures ConfirmationsIn(MirrorObservations(observations), result) == ConfirmationsIn(observations, result)
  {
    if observations != [] {
      var k := |observations| - 1;
      ConfirmationsInMirror(observations[..k], result);
      assert MirrorObservations(observations)[..k] == MirrorObservations(observations[..k]);
    }
  }

  lemma {:induction false} ConfirmationsMirror(results: seq<AnalystResult>)
    ensures Confirmations(Map(results, MirrorResult)) == Confirmations(results)
  {
    if results != [] {
      var i := |results| - 1;
      ConfirmationsMirror(results[..i]);
      ConfirmationsInMirror(results[i].observations, i);
      assert Map(results, MirrorResult)[..i] == Map(results[..i], MirrorResult);
    }
  }

  lemma BreakoutMirrors(t: Technical)
    requires SoundTechnical(t) && SoundTechnical(MirrorTechnical(t))
    ensures JudgeBreakout(Some(MirrorTechnical(t))) == MirrorJudgement(JudgeBreakout(Some(t)))
  {
    TablesMirror();
    ConfirmationsMirror(t.results);
    DimensionMirrors(t, LatestBreakDirection, BREAKS, Primary);
    DimensionMirrors(t, ReturnDirection, TREND, Corroborating);
  }

  // ---- the mirror of news sentiment ---------------------------------------------------

  lemma {:induction false} AgreementMirrors(observations: seq<Observation>)
    ensures var a, b := AgreementOf(observations), AgreementOf(MirrorObservations(observations));
            && (a.None? <==> b.None?)
            && (a.Some? ==> b.value == MirrorValue(a.value))
  {
    if observations != [] {
      AgreementMirrors(observations[1..]);
      assert MirrorObservations(observations)[1..] == MirrorObservations(observations[1..]);
    }
  }

  lemma ConcreteMirrors(o: Observation)
    ensures ConcreteSign(MirrorObservation(o)) <==> ConcreteSign(o)
  {
    TablesMirror();
    ReadingMirrors(SENTIMENT, o.value);
  }

  lemma {:induction false} FirstSignMirrors(observations: seq<Observation>)
    ensures var a, b := FirstSign(observations), FirstSign(MirrorObservations(observations));
            && (a.None? <==> b.None?)
            && (a.Some? ==> b.value == MirrorValue(a.value))
  {
    if observations != [] {
      ConcreteMirrors(observations[0]);
      FirstSignMirrors(observations[1..]);
      assert MirrorObservations(observations)[1..] == MirrorObservations(observations[1..]);
    }
  }

  lemma {:induction false} SignRefsMirror(observations: seq<Observation>, result: nat,
                                          keep: Observation -> bool, mirrored: Observation -> bool)
    requires forall o :: mirrored(MirrorObservation(o)) <==> keep(o)
    ensures SignRefs(MirrorObservations(observations), result, mirrored) == SignRefs(observations, result, keep)
  {
    if observations != [] {
      var k := |observations| - 1;
      SignRefsMirror(observations[..k], result, keep, mirrored);
      assert MirrorObservations(observations)[..k] == MirrorObservations(observations[..k]);
    }
  }

  lemma HasSignMirrors(value: Value)
    ensures forall o :: HasSign(MirrorValue(value))(MirrorObservation(o)) <==> HasSign(value)(o)
  {
    forall o: Observation
      ensures HasSign(MirrorValue(value))(MirrorObservation(o)) <==> HasSign(value)(o)
    {
      MirrorTwice(o.value);
      MirrorTwice(value);
    }
  }

  lemma ConcreteRefsMirror(observations: seq<Observation>, result: nat)
    ensures SignRefs(MirrorObservations(observations), result, ConcreteSign)
            == SignRefs(observations, result, ConcreteSign)
  {
    forall o: Observation
      ensures ConcreteSign(MirrorObservation(o)) <==> ConcreteSign(o)
    {
      ConcreteMirrors(o);
    }
    SignRefsMirror(observations, result, ConcreteSign, ConcreteSign);
  }

  lemma AgreedRefsMirror(observations: seq<Observation>, result: nat, value: Value)
    ensures SignRefs(MirrorObservations(observations), result, HasSign(MirrorValue(value)))
            == SignRefs(observations, result, HasSign(value))
    ensures Reading(SENTIMENT, MirrorValue(value)) == FlipOption(Reading(SENTIMENT, value))
  {
    TablesMirror();
    ReadingMirrors(SENTIMENT, value);
    HasSignMirrors(value);
    SignRefsMirror(observations, result, HasSign(value), HasSign(MirrorValue(value)));
  }

  lemma NewsMirrors(observations: seq<Observation>, result: nat)
    ensures ResolveNews(MirrorObservations(observations), result) == MirrorResolved(ResolveNews(observations, result))
  {
    AgreementMirrors(observations);
    var agreement, sign := AgreementOf(observations), FirstSign(observations);
    if agreement == Some(MixedValue) {
      ConcreteRefsMirror(observations, result);
    } else if agreement == Some(AllAgreeValue) {
      FirstSignMirrors(observations);
      if sign.Some? {
        AgreedRefsMirror(observations, result, sign.value);
      }
    } else {
      assert ResolveNews(observations, result) == UNRESOLVED;
    }
  }

  lemma {:induction false} ResolveAllMirrors(indices: seq<nat>, results: seq<seq<Observation>>)
    requires forall i :: i in indices ==> i < |results|
    ensures ResolveAll(indices, Map(results, MirrorObservations)) == Map(ResolveAll(indices, results), MirrorResolved)
  {
    if indices != [] {
      var n := |indices| - 1;
      assert (forall i :: i in indices[..n] ==> i in indices) && indices[n] in indices;
      ResolveAllMirrors(indices[..n], results);
      NewsMirrors(results[indices[n]], indices[n]);
    }
  }

  lemma {:induction false} FirstConflictMirrors(resolved: seq<Resolved>)
    ensures FirstConflict(Map(resolved, MirrorResolved)) ==
            if FirstConflict(resolved).Some? then Some(MirrorResolved(FirstConflict(resolved).value)) else None
  {
    if resolved != [] {
      FirstConflictMirrors(resolved[1..]);
      assert Map(resolved, MirrorResolved)[1..] == Map(resolved[1..], MirrorResolved);
    }
  }

  lemma {:induction false} TalliedMirror(resolved: seq<Resolved>)
    ensures Filter(Map(resolved, MirrorResolved), WasRead) == Map(Filter(resolved, WasRead), MirrorResolved)
    ensures AllRefs(Map(resolved, MirrorResolved)) == AllRefs(resolved)
  {
    if resolved != [] {
      var n := |resolved| - 1;
      TalliedMirror(resolved[..n]);
      assert Map(resolved, MirrorResolved)[..n] == Map(resolved[..n], MirrorResolved);
    }
  }

  lemma DisagreementMirrors(read: seq<Resolved>)
    requires forall r :: r in read ==> WasRead(r)
    ensures Disagree(Map(read, MirrorResolved)) <==> Disagree(read)
  {
    var mirrored := Map(read, MirrorResolved);
    if Disagree(read) {
      var i :| 0 <= i < |read| && read[i].candidate != read[0].candidate;
      assert read[i] in read && read[0] in read && mirrored[i] in mirrored;
    }
    if Disagree(mirrored) {
      var i :| 0 <= i < |mirrored| && mirrored[i].candidate != mirrored[0].candidate;
      assert read[i] in read;
    }
  }

  lemma TallyMirrors(resolved: seq<Resolved>)
    ensures Tally(Map(resolved, MirrorResolved)) == MirrorJudgement(Tally(resolved))
  {
    FirstConflictMirrors(resolved);
    TalliedMirror(resolved);
    FilterMembers(resolved, WasRead);
    DisagreementMirrors(Filter(resolved, WasRead));
  }

  lemma EventDrivenMirrors(m: MarketEvaluation)
    requires SoundMarket(m) && SoundMarket(MirrorMarket(m)) && m.external.Some?
    ensures JudgeEventDriven(MirrorMarket(m)) == MirrorJudgement(JudgeEventDriven(m))
  {
    var e := m.external.value;
    AlignedInRange(m);
    AlignedInRange(MirrorMarket(m));
    var indices := SortedIds(AlignedNews(m.alignment, e.scopes));
    ResolveAllMirrors(indices, e.results);
    TallyMirrors(ResolveAll(indices, e.results));
  }

  lemma MirrorKeepsMarketSound(m: MarketEvaluation)
    requires SoundMarket(m)
    ensures SoundMarket(MirrorMarket(m))
  {
    if m.technical.Some? {
      MirrorKeepsSound(m.technical.value);
    }
  }

  /** For every family and every market: swapping up and down, above and below,
      positive and negative in all observations swaps LONG and SHORT in the verdict
      and changes neither its kind nor its evidence. */
  lemma JudgeCommutesWithMirror(m: MarketEvaluation, family: Family)
    requires SoundMarket(m)
    ensures SoundMarket(MirrorMarket(m))
    ensures JudgeFamily(MirrorMarket(m), family) == MirrorJudgement(JudgeFamily(m, family))
  {
    MirrorKeepsMarketSound(m);
    if m.technical.Some? {
      TrendFollowingMirrors(m.technical.value);
      BreakoutMirrors(m.technical.value);
    }
    if m.external.Some? {
      EventDrivenMirrors(m);
    }
  }
}
