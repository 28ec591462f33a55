/** The bounded, revision-preserving log of economic events: what it admits, what it
    keeps through eviction, and what its latest revision means. */
module MacroHistory {
  import opened Common
  import opened BoundedBuffers

  /** `facts` stands for every other provider fact of the event. */
  datatype EconomicEvent = EconomicEvent(
    provider: string,
    eventId: string,
    revision: int,
    actual: Option<real>,
    facts: string,
    receivedAt: int)

  datatype EventKey = EventKey(provider: string, eventId: string, revision: int)

  datatype HistoryFault = RevisionConflict | DuplicateEvent

  function KeyOf(e: EconomicEvent): EventKey { EventKey(e.provider, e.eventId, e.revision) }

  /** Everything but the ingestion time. */
  function Fingerprint(e: EconomicEvent): EconomicEvent { e.(receivedAt := 0) }

  predicate SettledEvent(e: EconomicEvent) { e.actual.Some? }

  function AtKey(key: EventKey): EconomicEvent -> bool {
    (e: EconomicEvent) => KeyOf(e) == key
  }

  // ---- admission ----------------------------------------------------------------

  predicate Regresses(retained: seq<EconomicEvent>, e: EconomicEvent) {
    !SettledEvent(e) && exists o :: o in retained && KeyOf(o) == KeyOf(e) && SettledEvent(o)
  }

  predicate Repeats(retained: seq<EconomicEvent>, e: EconomicEvent) {
    exists o :: o in retained && KeyOf(o) == KeyOf(e) && Fingerprint(o) == Fingerprint(e)
  }

  predicate Contradicts(retained: seq<EconomicEvent>, e: EconomicEvent) {
    SettledEvent(e) && exists o :: o in retained && KeyOf(o) == KeyOf(e) && SettledEvent(o)
  }

  /** The verdict as a question about which events are retained, not in what order. */
  function Verdict(retained: seq<EconomicEvent>, e: EconomicEvent): Option<HistoryFault> {
    if Regresses(retained, e) then Some(RevisionConflict)
    else if Repeats(retained, e) then Some(DuplicateEvent)
    else if Contradicts(retained, e) then Some(RevisionConflict)
    else None
  }

  // ---- the invariant of every reachable history ------------------------------------

  /** A settled observation is the last of its key, so there is at most one. */
  ghost predicate SettledIsLast(events: seq<EconomicEvent>) {
    forall i, j :: 0 <= i < j < |events| && KeyOf(events[i]) == KeyOf(events[j]) ==> !SettledEvent(events[i])
  }

  ghost predicate NoRepeats(events: seq<EconomicEvent>) {
    forall i, j :: 0 <= i < j < |events| && KeyOf(events[i]) == KeyOf(events[j]) ==>
      Fingerprint(events[i]) != Fingerprint(events[j])
  }

  ghost predicate Sound(events: seq<EconomicEvent>) { SettledIsLast(events) && NoRepeats(events) }

  lemma EvictionKeepsSound(events: seq<EconomicEvent>)
    requires Sound(events) && events != []
    ensures Sound(events[1..])
  {
  }

  /** An event is admitted exactly when appending it keeps the history sound. */
  lemma AdmittedIffSound(events: seq<EconomicEvent>, e: EconomicEvent)
    requires Sound(events)
    ensures Verdict(events, e).None? <==> Sound(events + [e])
  {
    var more := events + [e];
    forall o | o in events && KeyOf(o) == KeyOf(e)
      ensures Sound(more) ==> !SettledEvent(o) && Fingerprint(o) != Fingerprint(e)
    {
      var i :| 0 <= i < |events| && events[i] == o;
      assert more[i] == o && more[|events|] == e;
    }
    if Verdict(events, e).None? {
      forall i, j | 0 <= i < j < |more| && KeyOf(more[i]) == KeyOf(more[j])
        ensures !SettledEvent(more[i]) && Fingerprint(more[i]) != Fingerprint(more[j])
      {
        if j == |events| {
          assert more[i] in events;
        }
      }
    }
  }

  /** The same economic revision of the same event. */
  predicate SameRevision(a: EconomicEvent, b: EconomicEvent) {
    a.provider == b.provider && a.eventId == b.eventId && a.revision == b.revision
  }

  /** The same provider facts, whenever they were received. */
  predicate SameFacts(a: EconomicEvent, b: EconomicEvent) {
    SameRevision(a, b) && a.actual == b.actual && a.facts == b.facts
  }

  /** The verdict by the events' own fields. An event without a value is a conflict once
      its revision has one; a re-poll of retained facts is a duplicate; a second value for
      a revision is a conflict. Everything else is admitted. */
  lemma VerdictByFields(retained: seq<EconomicEvent>, e: EconomicEvent)
    ensures var valued := exists o :: o in retained && SameRevision(o, e) && o.actual.Some?;
            var repeated := exists o :: o in retained && SameFacts(o, e);
            && (Verdict(retained, e) == Some(DuplicateEvent) <==> repeated && (e.actual.Some? || !valued))
            && (Verdict(retained, e) == Some(RevisionConflict) <==> valued && (e.actual.None? || !repeated))
            && (Verdict(retained, e).None? <==> !repeated && !valued)
  {
    forall o | o in retained
      ensures KeyOf(o) == KeyOf(e) <==> SameRevision(o, e)
      ensures KeyOf(o) == KeyOf(e) && Fingerprint(o) == Fingerprint(e) <==> SameFacts(o, e)
    {
      SameFactsIff(o, e);
    }
  }

  lemma SameFactsIff(a: EconomicEvent, b: EconomicEvent)
    ensures KeyOf(a) == KeyOf(b) <==> SameRevision(a, b)
    ensures Fingerprint(a) == Fingerprint(b) <==> SameFacts(a, b)
  {
    if SameFacts(a, b) {
      assert a.(receivedAt := 0) == b.(receivedAt := 0);
    }
  }

  /** So receiving a retained observation again, at whatever time, is always rejected. */
  lemma RepollRejected(retained: seq<EconomicEvent>, o: EconomicEvent, receivedAt: int)
    requires o in retained
    ensures Verdict(retained, o.(receivedAt := receivedAt)).Some?
  {
    var e := o.(receivedAt := receivedAt);
    VerdictByFields(retained, e);
    assert SameFacts(o, e);
  }

  // ---- the scan ------------------------------------------------------------------

  /** The loop over the retained observations of one key, oldest first: the first one
      that repeats or contradicts the event decides. */
  function ScanFrom(existing: seq<EconomicEvent>, e: EconomicEvent): Option<HistoryFault> {
    if existing == [] then None
    else if Fingerprint(existing[0]) == Fingerprint(e) then Some(DuplicateEvent)
    else if SettledEvent(e) && SettledEvent(existing[0]) then Some(RevisionConflict)
    else ScanFrom(existing[1..], e)
  }

  function Scan(retained: seq<EconomicEvent>, e: EconomicEvent): Option<HistoryFault> {
    if Regresses(retained, e) then Some(RevisionConflict)
    else ScanFrom(Filter(retained, AtKey(KeyOf(e))), e)
  }

  /** Among the scanned observations only one value is settled. */
  ghost predicate OneSettledValue(events: seq<EconomicEvent>) {
    forall a, b :: a in events && b in events && SettledEvent(a) && SettledEvent(b) ==> a == b
  }

  lemma {:induction false} ScanFromMeans(existing: seq<EconomicEvent>, e: EconomicEvent)
    requires OneSettledValue(existing)
    ensures ScanFrom(existing, e) ==
            if exists o :: o in existing && Fingerprint(o) == Fingerprint(e) then Some(DuplicateEvent)
            else if SettledEvent(e) && exists o :: o in existing && SettledEvent(o) then Some(RevisionConflict)
            else None
  {
    if existing != [] {
      var first, rest := existing[0], existing[1..];
      assert existing == [first] + rest;
      ScanFromMeans(rest, e);
    }
  }

  /** On any reordering of a sound history the scan reaches the same verdict, the one
      that asks only which observations are retained. */
  lemma ScanIsVerdict(sound: seq<EconomicEvent>, retained: seq<EconomicEvent>, e: EconomicEvent)
    requires Sound(sound) && multiset(retained) == multiset(sound)
    ensures Scan(retained, e) == Verdict(sound, e)
  {
    PermutationMembers(retained, sound);
    var existing := Filter(retained, AtKey(KeyOf(e)));
    FilterMembers(retained, AtKey(KeyOf(e)));
    forall a, b | a in existing && b in existing && SettledEvent(a) && SettledEvent(b)
      ensures a == b
    {
      OnlySettled(sound, a);
    }
    ScanFromMeans(existing, e);
  }

  /** Which error is raised does not depend on the order the history retains. */
  lemma ScanOrderIrrelevant(sound: seq<EconomicEvent>, retained: seq<EconomicEvent>, e: EconomicEvent)
    requires Sound(sound) && multiset(retained) == multiset(sound)
    ensures Scan(retained, e) == Scan(sound, e)
  {
    ScanIsVerdict(sound, retained, e);
    ScanIsVerdict(sound, sound, e);
  }

  /** A sound history has one settled observation per key. */
  lemma OnlySettled(events: seq<EconomicEvent>, settled: EconomicEvent)
    requires Sound(events) && settled in events && SettledEvent(settled)
    ensures forall o :: o in events && KeyOf(o) == KeyOf(settled) && SettledEvent(o) ==> o == settled
  {
  }

  // ---- stable sort by revision -----------------------------------------------------

  ghost predicate AscendingRevisions(events: seq<EconomicEvent>) {
    forall i, j :: 0 <= i < j < |events| ==> events[i].revision <= events[j].revision
  }

  function OfRevision(revision: int): EconomicEvent -> bool {
    (e: EconomicEvent) => e.revision == revision
  }

  /** After every event of the same or a lower revision. */
  function Insert(sorted: seq<EconomicEvent>, e: EconomicEvent): seq<EconomicEvent> {
    if sorted == [] || sorted[|sorted| - 1].revision <= e.revision then sorted + [e]
    else Insert(sorted[..|sorted| - 1], e) + [sorted[|sorted| - 1]]
  }

  function SortedByRevision(events: seq<EconomicEvent>): seq<EconomicEvent> {
    if events == [] then [] else Insert(SortedByRevision(events[..|events| - 1]), events[|events| - 1])
  }

  lemma {:induction false} InsertPermutes(sorted: seq<EconomicEvent>, e: EconomicEvent)
    ensures multiset(Insert(sorted, e)) == multiset(sorted) + multiset{e}
  {
    if sorted != [] && sorted[|sorted| - 1].revision > e.revision {
      var init, last := sorted[..|sorted| - 1], sorted[|sorted| - 1];
      assert sorted == init + [last];
      InsertPermutes(init, e);
    }
  }

  lemma {:induction false} InsertAscends(sorted: seq<EconomicEvent>, e: EconomicEvent)
    requires AscendingRevisions(sorted)
    ensures AscendingRevisions(Insert(sorted, e))
    ensures forall x :: x in Insert(sorted, e) ==> x in sorted || x == e
  {
    if sorted != [] && sorted[|sorted| - 1].revision > e.revision {
      var init, last := sorted[..|sorted| - 1], sorted[|sorted| - 1];
      InsertAscends(init, e);
      var more := Insert(init, e);
      forall x | x in more
        ensures x.revision <= last.revision
      {
        if x in init {
          var i :| 0 <= i < |init| && init[i] == x;
          assert sorted[i] == x;
        }
      }
    }
  }

  /** Among events of its own revision the inserted one comes last. */
  lemma {:induction false} InsertIsStable(sorted: seq<EconomicEvent>, e: EconomicEvent, keep: EconomicEvent -> bool,
                                          revision: int)
    requires keep == OfRevision(revision)
    ensures Filter(Insert(sorted, e), keep) == Filter(sorted + [e], keep)
  {
    if sorted != [] && sorted[|sorted| - 1].revision > e.revision {
      var init, last := sorted[..|sorted| - 1], sorted[|sorted| - 1];
      InsertIsStable(init, e, keep, revision);
      assert sorted == init + [last];
      FilterAppend(Insert(init, e), [last], keep);
      FilterAppend(init, [e], keep);
      FilterAppend(init, [last], keep);
      FilterAppend(sorted, [e], keep);
      DifferentRevisionsCommute(last, e, keep, revision);
      var i, n, l := Filter(init, keep), Filter([e], keep), Filter([last], keep);
      assert (i + n) + l == i + (n + l) && (i + l) + n == i + (l + n);
    }
  }

  lemma DifferentRevisionsCommute(a: EconomicEvent, b: EconomicEvent, keep: EconomicEvent -> bool, revision: int)
    requires keep == OfRevision(revision) && a.revision != b.revision
    ensures Filter([a], keep) + Filter([b], keep) == Filter([b], keep) + Filter([a], keep)
  {
    FilterOne(a, keep);
    FilterOne(b, keep);
  }

  /** The sort is a permutation, ascending, and stable: within a revision the append
      order survives. */
  lemma {:induction false} SortIsStable(events: seq<EconomicEvent>, revision: int)
    ensures AscendingRevisions(SortedByRevision(events))
    ensures multiset(SortedByRevision(events)) == multiset(events)
    ensures Filter(SortedByRevision(events), OfRevision(revision)) == Filter(events, OfRevision(revision))
  {
    if events != [] {
      var init, last := events[..|events| - 1], events[|events| - 1];
      assert events == init + [last];
      SortIsStable(init, revision);
      var sorted := SortedByRevision(init);
      InsertAscends(sorted, last);
      InsertPermutes(sorted, last);
      InsertIsStable(sorted, last, OfRevision(revision), revision);
      FilterAppend(sorted, [last], OfRevision(revision));
      FilterAppend(init, [last], OfRevision(revision));
    }
  }

  /** The append order survives within every revision. */
  ghost predicate KeepsAppendOrder(sorted: seq<EconomicEvent>, events: seq<EconomicEvent>) {
    forall revision :: Filter(sorted, OfRevision(revision)) == Filter(events, OfRevision(revision))
  }

  lemma SortKeepsAppendOrder(events: seq<EconomicEvent>)
    ensures AscendingRevisions(SortedByRevision(events))
    ensures multiset(SortedByRevision(events)) == multiset(events)
    ensures KeepsAppendOrder(SortedByRevision(events), events)
  {
    forall revision: int
      ensures Filter(SortedByRevision(events), OfRevision(revision)) == Filter(events, OfRevision(revision))
    {
      SortIsStable(events, revision);
    }
    SortIsStable(events, 0);
  }

  // ---- queries -------------------------------------------------------------------------

  function OfEvent(provider: string, eventId: string): EconomicEvent -> bool {
    (e: EconomicEvent) => e.provider == provider && e.eventId == eventId
  }

  function RevisionsFor(retained: seq<EconomicEvent>, provider: string, eventId: string): seq<EconomicEvent> {
    SortedByRevision(Filter(retained, OfEvent(provider, eventId)))
  }

  function LatestRevision(retained: seq<EconomicEvent>, provider: string, eventId: string): Option<EconomicEvent> {
    var revisions := RevisionsFor(retained, provider, eventId);
    if revisions == [] then None else Some(revisions[|revisions| - 1])
  }

  /** The retained observation appended last among those of the highest revision. */
  ghost predicate IsLatest(retained: seq<EconomicEvent>, provider: string, eventId: string, i: nat) {
    && i < |retained|
    && OfEvent(provider, eventId)(retained[i])
    && (forall j :: 0 <= j < |retained| && OfEvent(provider, eventId)(retained[j]) ==>
          retained[j].revision <= retained[i].revision)
    && (forall j :: i < j < |retained| && OfEvent(provider, eventId)(retained[j]) ==>
          retained[j].revision != retained[i].revision)
  }

  lemma LastOfRevision(sorted: seq<EconomicEvent>, revision: int)
    requires sorted != [] && sorted[|sorted| - 1].revision == revision
    ensures Filter(sorted, OfRevision(revision)) != []
    ensures var kept := Filter(sorted, OfRevision(revision)); kept[|kept| - 1] == sorted[|sorted| - 1]
  {
  }

  lemma {:induction false} LastKept(s: seq<EconomicEvent>, keep: EconomicEvent -> bool) returns (i: nat)
    requires Filter(s, keep) != []
    ensures i < |s| && keep(s[i]) && s[i] == Filter(s, keep)[|Filter(s, keep)| - 1]
    ensures forall j :: i < j < |s| ==> !keep(s[j])
  {
    var n := |s| - 1;
    if keep(s[n]) {
      i := n;
    } else {
      assert Filter(s, keep) == Filter(s[..n], keep);
      i := LastKept(s[..n], keep);
    }
  }

  function OfEventRevision(provider: string, eventId: string, revision: int): EconomicEvent -> bool {
    (e: EconomicEvent) => OfEvent(provider, eventId)(e) && e.revision == revision
  }

  /** The latest revision is an observation of the highest retained revision, the last
      such one appended; there is none only when no observation is retained. */
  lemma LatestIsLatest(retained: seq<EconomicEvent>, provider: string, eventId: string) returns (i: nat)
    ensures LatestRevision(retained, provider, eventId).None? <==>
            forall e :: e in retained ==> !OfEvent(provider, eventId)(e)
    ensures LatestRevision(retained, provider, eventId).Some? ==>
              && IsLatest(retained, provider, eventId, i)
              && retained[i] == LatestRevision(retained, provider, eventId).value
  {
    i := 0;
    var own := Filter(retained, OfEvent(provider, eventId));
    var sorted := SortedByRevision(own);
    FilterMembers(retained, OfEvent(provider, eventId));
    SortIsStable(own, 0);
    PermutationMembers(sorted, own);
    if sorted != [] {
      var latest := sorted[|sorted| - 1];
      assert latest in own;
      SortIsStable(own, latest.revision);
      LastOfRevision(sorted, latest.revision);
      SameFilter(retained, OfEvent(provider, eventId), OfRevision(latest.revision),
                 OfEventRevision(provider, eventId, latest.revision));
      i := LastKept(retained, OfEventRevision(provider, eventId, latest.revision));
      HighestIsLatest(retained, provider, eventId, own, sorted, i);
    } else {
      assert forall e :: e in own ==> e in sorted;
    }
  }

  lemma LastIsHighest(sorted: seq<EconomicEvent>, e: EconomicEvent)
    requires AscendingRevisions(sorted) && e in sorted
    ensures e.revision <= sorted[|sorted| - 1].revision
  {
    var k :| 0 <= k < |sorted| && sorted[k] == e;
    assert k < |sorted| - 1 ==> sorted[k].revision <= sorted[|sorted| - 1].revision;
  }

  lemma HighestIsLatest(retained: seq<EconomicEvent>, provider: string, eventId: string,
                        own: seq<EconomicEvent>, sorted: seq<EconomicEvent>, i: nat)
    requires own == Filter(retained, OfEvent(provider, eventId))
    requires sorted != [] && AscendingRevisions(sorted) && forall e :: e in own ==> e in sorted
    requires i < |retained| && retained[i] == sorted[|sorted| - 1] && OfEvent(provider, eventId)(retained[i])
    requires forall j :: i < j < |retained| ==>
               !OfEventRevision(provider, eventId, retained[i].revision)(retained[j])
    ensures IsLatest(retained, provider, eventId, i)
  {
    FilterMembers(retained, OfEvent(provider, eventId));
    forall j | 0 <= j < |retained| && OfEvent(provider, eventId)(retained[j])
      ensures retained[j].revision <= retained[i].revision
    {
      assert retained[j] in own;
      LastIsHighest(sorted, retained[j]);
    }
    forall j | i < j < |retained| && OfEvent(provider, eventId)(retained[j])
      ensures retained[j].revision != retained[i].revision
    {
      assert !OfEventRevision(provider, eventId, retained[i].revision)(retained[j]);
    }
  }

  lemma {:induction false} SameFilter(s: seq<EconomicEvent>, outer: EconomicEvent -> bool,
                                      inner: EconomicEvent -> bool, both: EconomicEvent -> bool)
    requires forall e :: both(e) <==> outer(e) && inner(e)
    ensures Filter(Filter(s, outer), inner) == Filter(s, both)
  {
    if s != [] {
      var init, last := s[..|s| - 1], s[|s| - 1];
      SameFilter(init, outer, inner, both);
      FilterAppend(Filter(init, outer), if outer(last) then [last] else [], inner);
      FilterOne(last, inner);
      if !outer(last) {
        assert Filter(init, outer) + [] == Filter(init, outer);
      }
    }
  }

  /** Once the highest retained revision has been released, the latest revision is its
      settled observation, whatever was appended around it. */
  lemma LatestIsSettled(retained: seq<EconomicEvent>, provider: string, eventId: string, settled: EconomicEvent)
    requires Sound(retained)
    requires settled in retained && OfEvent(provider, eventId)(settled) && SettledEvent(settled)
    requires forall e :: e in retained && OfEvent(provider, eventId)(e) ==> e.revision <= settled.revision
    ensures LatestRevision(retained, provider, eventId) == Some(settled)
  {
    var i := LatestIsLatest(retained, provider, eventId);
    var k :| 0 <= k < |retained| && retained[k] == settled;
    assert KeyOf(retained[i]) == KeyOf(retained[k]);
  }

  // ---- the history -----------------------------------------------------------------------

  class EconomicEventHistory {
    const log: BoundedBuffer<EconomicEvent>

    ghost predicate Valid()
      reads this, log
    {
      log.Valid() && Sound(log.items)
    }

    constructor (log: BoundedBuffer<EconomicEvent>)
      requires log.Valid() && log.items == []
      ensures Valid() && this.log == log
    {
      this.log := log;
    }

    static method Create(capacity: int) returns (r: Result<EconomicEventHistory, BufferFault>)
      ensures r.Failure? <==> capacity < 1
      ensures r.Success? ==> fresh(r.value) && fresh(r.value.log) && r.value.Valid()
                             && r.value.log.stream == [] && r.value.log.maxlen == capacity
    {
      var log := BoundedBuffer<EconomicEvent>.Create(capacity);
      if log.Failure? {
        return Failure(log.error);
      }
      var history := new EconomicEventHistory(log.value);
      return Success(history);
    }

    function Revisions(provider: string, eventId: string): (r: seq<EconomicEvent>)
      requires Valid()
      reads this, log
      ensures AscendingRevisions(r)
      ensures multiset(r) == multiset(Filter(log.items, OfEvent(provider, eventId)))
      ensures KeepsAppendOrder(r, Filter(log.items, OfEvent(provider, eventId)))
    {
      SortKeepsAppendOrder(Filter(log.items, OfEvent(provider, eventId)));
      RevisionsFor(log.items, provider, eventId)
    }

    /** The scan of the retained observations of the event's key, oldest first. */
    method Admission(e: EconomicEvent) returns (fault: Option<HistoryFault>)
      requires Valid()
      ensures fault == Scan(log.items, e) == Verdict(log.items, e)
    {
      ScanIsVerdict(log.items, log.items, e);
      var existing := Filter(log.items, AtKey(KeyOf(e)));
      FilterMembers(log.items, AtKey(KeyOf(e)));
      if !SettledEvent(e) && exists o :: o in existing && SettledEvent(o) {
        return Some(RevisionConflict);
      }
      assert existing[0..] == existing;
      for i := 0 to |existing|
        invariant ScanFrom(existing[i..], e) == ScanFrom(existing, e)
      {
        assert existing[i..][0] == existing[i] && existing[i..][1..] == existing[i + 1..];
        if Fingerprint(existing[i]) == Fingerprint(e) {
          return Some(DuplicateEvent);
        }
        if SettledEvent(e) && SettledEvent(existing[i]) {
          return Some(RevisionConflict);
        }
      }
      return None;
    }

    method Append(e: EconomicEvent) returns (fault: Option<HistoryFault>)
      requires Valid()
      modifies log
      ensures Valid()
      ensures fault == Verdict(old(log.items), e)
      ensures fault.Some? ==> log.items == old(log.items) && log.dropped == old(log.dropped)
                              && log.stream == old(log.stream)
      ensures fault.None? ==> log.stream == old(log.stream) + [e]
                              && log.dropped == old(log.dropped) + if |old(log.items)| == log.maxlen then 1 else 0
    {
      fault := Admission(e);
      if fault.None? {
        AdmittedIffSound(log.items, e);
        ghost var appended := log.items + [e];
        log.Append(e);
        assert log.items == appended || log.items == appended[1..];
        if log.items != appended {
          EvictionKeepsSound(appended);
        }
      }
    }
  }

  // ---- what eviction forgets ----------------------------------------------------------------

  predicate SettledAt(events: seq<EconomicEvent>, key: EventKey) {
    exists o :: o in events && KeyOf(o) == key && SettledEvent(o)
  }

  /** What has been evicted would have rejected the event differently. For an unsettled
      event: its key's settled value is forgotten, or an identical observation is,
      while nothing retained rejects it. For a settled one: an identical observation
      is forgotten, or its key's settled value is, while none is retained. */
  predicate Forgotten(evicted: seq<EconomicEvent>, retained: seq<EconomicEvent>, e: EconomicEvent) {
    if !SettledEvent(e) then
      || (SettledAt(evicted, KeyOf(e)) && !SettledAt(retained, KeyOf(e)))
      || (Repeats(evicted, e) && !Repeats(retained, e) && !SettledAt(retained, KeyOf(e)))
    else
      && !Repeats(retained, e)
      && (Repeats(evicted, e) || (SettledAt(evicted, KeyOf(e)) && !SettledAt(retained, KeyOf(e))))
  }

  /** The bounded history judges an event otherwise than the whole stream would, exactly
      when what decides it has been forgotten. */
  lemma VerdictsDifferIff(stream: seq<EconomicEvent>, dropped: nat, e: EconomicEvent)
    requires dropped <= |stream|
    ensures Verdict(stream[dropped..], e) != Verdict(stream, e) <==> Forgotten(stream[..dropped], stream[dropped..], e)
  {
    assert stream == stream[..dropped] + stream[dropped..];
    assert forall o :: o in stream <==> o in stream[..dropped] || o in stream[dropped..];
  }

  /** So a released value can be reverted: once the settled observation is
      evicted, an unsettled one of the same key is admitted, though over the whole
      stream it regresses. */
  lemma EvictionForgetsSettled(settled: EconomicEvent, other: EconomicEvent, reverted: EconomicEvent)
    requires SettledEvent(settled) && !SettledEvent(reverted)
    requires KeyOf(settled) == KeyOf(reverted) != KeyOf(other)
    ensures Retains([other], 1, 1, [settled, other])
    ensures Verdict([other], reverted).None?
    ensures Verdict([settled, other], reverted) == Some(RevisionConflict)
  {
    assert [settled, other][1..] == [other];
    assert settled in [settled, other];
  }
}
