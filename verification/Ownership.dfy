/** Whole-run guarantees about which recommendation owns which broker position:
    no two stored records ever hold the same one, and a match never changes. */
module Ownership {
  import opened Common
  import opened Deals
  import opened FailClosed
  import opened Matching
  import opened PositionLifecycle
  import opened Tracker
  import opened RuntimeCycle

  ghost predicate Exclusive(store: Store) {
    forall a, b :: a in store && b in store && a != b && store[a].matched.Some? ==> store[b].matched != store[a].matched
  }

  /** Every stored record is listed and reads VALID. */
  ghost predicate EveryRecordLoads(store: Store, input: CycleInput) {
    forall id :: id in store ==> id in input.listing && id !in input.unreadable
  }

  /** Every stored record that holds a position is listed and reads VALID. */
  ghost predicate EveryMatchLoads(store: Store, input: CycleInput) {
    forall id :: id in store && store[id].matched.Some? ==> id in input.listing && id !in input.unreadable
  }

  /** Records advanced together in one pass. */
  ghost predicate PassExclusive(order: seq<string>, loaded: Store, claimed: set<nat>, updated: seq<Tracked>)
    requires |order| == |updated| && forall id :: id in order ==> id in loaded
  {
    && (forall i :: 0 <= i < |order| && loaded[order[i]].matched.Some? ==>
          updated[i].matched == loaded[order[i]].matched)
    && (forall i :: 0 <= i < |order| && loaded[order[i]].matched.None? && updated[i].matched.Some? ==>
          updated[i].matched.value !in claimed)
    && (forall i, j :: 0 <= i < j < |order| && updated[i].matched.Some? && loaded[order[j]].matched.None? ==>
          updated[j].matched != updated[i].matched)
    && (forall i :: 0 <= i < |order| ==> SameIssue(loaded[order[i]], updated[i]))
  }

  /** In one pass a new match avoids every claimed position and every match made
      earlier in the pass, whatever the processing order. */
  lemma {:induction false} PassKeepsOwnership(order: seq<string>, loaded: Store, claimed: set<nat>, reading: Reading)
    requires forall id :: id in order ==> id in loaded
    requires AdvanceSeq(order, loaded, claimed, reading).Success?
    ensures var updated := AdvanceSeq(order, loaded, claimed, reading).value;
            |updated| == |order| && PassExclusive(order, loaded, claimed, updated)
  {
    if order != [] {
      var t := loaded[order[0]];
      var first := Advance(t, reading, claimed - MatchedId(t)).value;
      MatchDiscipline(t, reading, claimed - MatchedId(t));
      var tail := order[1..];
      PassKeepsOwnership(tail, loaded, claimed + MatchedId(first), reading);
      var rest := AdvanceSeq(tail, loaded, claimed + MatchedId(first), reading).value;
      ExtendPass(order, loaded, claimed, first, rest);
    }
  }

  lemma ExtendPass(order: seq<string>, loaded: Store, claimed: set<nat>, first: Tracked, rest: seq<Tracked>)
    requires order != [] && |rest| == |order| - 1
    requires forall id :: id in order ==> id in loaded
    requires PassExclusive(order[1..], loaded, claimed + MatchedId(first), rest)
    requires SameIssue(loaded[order[0]], first)
    requires loaded[order[0]].matched.Some? ==> first.matched == loaded[order[0]].matched
    requires loaded[order[0]].matched.None? && first.matched.Some? ==> first.matched.value !in claimed
    ensures PassExclusive(order, loaded, claimed, [first] + rest)
  {
    var updated, tail := [first] + rest, order[1..];
    assert forall i :: 0 < i < |order| ==> order[i] == tail[i - 1] && updated[i] == rest[i - 1];
  }

  lemma ClaimedMembers(store: Store, p: nat)
    ensures p in ClaimedOf(store) <==> exists id :: id in store && store[id].matched == Some(p)
  {
    if id :| id in store && store[id].matched == Some(p) {
      assert id in store && store[id].matched.Some?;
    }
  }

  /** What a partial write-back leaves in the store. */
  lemma {:induction false} WriteBackAt(store: Store, order: seq<string>, updated: seq<Tracked>, written: set<string>)
    requires |order| == |updated| && Distinct(order)
    ensures var after := WriteBack(store, order, updated, written);
            && (forall i :: 0 <= i < |order| && order[i] in written ==> order[i] in after && after[order[i]] == updated[i])
            && (forall id :: id in store && (id !in order || id !in written) ==> id in after && after[id] == store[id])
            && (forall id :: id in after ==> id in store || (id in order && id in written))
  {
    if order != [] {
      var n := |order| - 1;
      WriteBackAt(store, order[..n], updated[..n], written);
      assert order[n] !in order[..n];
      assert forall id :: id in order <==> id in order[..n] || id == order[n];
    }
  }

  /** Two different records never share a position, whether each is taken as it
      was stored before the pass or as the pass left it. */
  lemma PairExclusive(store: Store, order: seq<string>, updated: seq<Tracked>, i: nat, j: nat, a: Tracked, b: Tracked)
    requires Exclusive(store) && Distinct(order) && |order| == |updated|
    requires forall id :: id in order ==> id in store
    requires PassExclusive(order, store, ClaimedOf(store), updated)
    requires i < j < |order|
    requires a == store[order[i]] || a == updated[i]
    requires b == store[order[j]] || b == updated[j]
    ensures a.matched.Some? ==> b.matched != a.matched
  {
    var sa, sb := store[order[i]], store[order[j]];
    if sa.matched.Some? {
      ClaimedMembers(store, sa.matched.value);
    }
    if sb.matched.Some? {
      ClaimedMembers(store, sb.matched.value);
    }
  }

  /** An owner that was not loaded. */
  predicate UnloadedOwner(store: Store, loaded: Store, a: string) {
    a in store && a !in loaded && store[a].matched.Some?
  }

  /** A written record came out of the pass holding the position of an owner that was
      not loaded. */
  ghost predicate Shares(store: Store, loaded: Store, order: seq<string>, updated: seq<Tracked>, written: set<string>)
    requires |order| == |updated|
  {
    exists i: nat, a ::
      i < |order| && order[i] in written && UnloadedOwner(store, loaded, a) && updated[i].matched == store[a].matched
  }

  /** What was read of the store: some of its records, unchanged. */
  ghost predicate PartOf(loaded: Store, store: Store) {
    forall id :: id in loaded ==> id in store && loaded[id] == store[id]
  }

  /** Any subset of the writes may succeed: ownership stays exclusive exactly when no
      written record came to hold an unloaded owner's position. */
  lemma WriteBackExclusiveIff(store: Store, loaded: Store, order: seq<string>, updated: seq<Tracked>, written: set<string>)
    requires Exclusive(store) && PartOf(loaded, store) && Distinct(order) && |order| == |updated|
    requires forall id :: id in order <==> id in loaded
    requires PassExclusive(order, loaded, ClaimedOf(loaded), updated)
    ensures Exclusive(WriteBack(store, order, updated, written)) <==> !Shares(store, loaded, order, updated, written)
  {
    WriteBackAt(store, order, updated, written);
    var after := WriteBack(store, order, updated, written);
    if Shares(store, loaded, order, updated, written) {
      var i: nat, a :| i < |order| && order[i] in written && UnloadedOwner(store, loaded, a)
                       && updated[i].matched == store[a].matched;
      assert after[order[i]].matched == after[a].matched;
    } else {
      forall a, b | a in after && b in after && a != b && after[a].matched.Some?
        ensures after[b].matched != after[a].matched
      {
        NobodyRobbed(store, loaded, order, updated, written, a, b);
      }
    }
  }

  lemma NobodyRobbed(store: Store, loaded: Store, order: seq<string>, updated: seq<Tracked>, written: set<string>,
                     a: string, b: string)
    requires Exclusive(store) && PartOf(loaded, store) && Distinct(order) && |order| == |updated|
    requires forall id :: id in order <==> id in loaded
    requires PassExclusive(order, loaded, ClaimedOf(loaded), updated)
    requires !Shares(store, loaded, order, updated, written)
    requires var after := WriteBack(store, order, updated, written);
             a in after && b in after && a != b && after[a].matched.Some?
    ensures var after := WriteBack(store, order, updated, written); after[b].matched != after[a].matched
  {
    WriteBackAt(store, order, updated, written);
    var after := WriteBack(store, order, updated, written);
    if a in order && b in order {
      var i :| 0 <= i < |order| && order[i] == a;
      var j :| 0 <= j < |order| && order[j] == b;
      if i < j {
        PairExclusive(loaded, order, updated, i, j, after[a], after[b]);
      } else if after[b].matched.Some? {
        PairExclusive(loaded, order, updated, j, i, after[b], after[a]);
      }
    } else if a in order {
      var i :| 0 <= i < |order| && order[i] == a;
      assert after[b] == store[b] && (after[a] == updated[i] || after[a] == store[a]);
      assert store[b].matched.Some? ==> UnloadedOwner(store, loaded, b);
    } else if b in order {
      var j :| 0 <= j < |order| && order[j] == b;
      assert after[a] == store[a] && (after[b] == updated[j] || after[b] == store[b]);
      assert UnloadedOwner(store, loaded, a);
    }
  }

  lemma {:induction false} IssueAt(store: Store, recs: seq<Recommendation>, input: CycleInput)
    ensures forall id :: id in IssueAll(store, recs, input) ==>
              || (id in store && IssueAll(store, recs, input)[id] == store[id])
              || (input.positionsOk && id in input.issueWrites
                  && exists rec :: rec in recs && rec.tradeId == id
                                   && IssueAll(store, recs, input)[id] == NewRecord(rec, input.positions))
    ensures forall id :: id in store ==> id in IssueAll(store, recs, input)
    ensures forall id :: id in store && (forall rec :: rec in recs ==> rec.tradeId != id) ==>
              IssueAll(store, recs, input)[id] == store[id]
  {
    if recs != [] {
      var init, rec := recs[..|recs| - 1], recs[|recs| - 1];
      IssueAt(store, init, input);
      assert recs == init + [rec];
      assert rec in recs;
    }
  }

  lemma IssueKeepsExclusive(store: Store, recs: seq<Recommendation>, input: CycleInput)
    requires Exclusive(store)
    ensures Exclusive(IssueAll(store, recs, input))
  {
    IssueAt(store, recs, input);
  }

  lemma ConclusionStages(store: Store, input: CycleInput, order: seq<string>, updated: seq<Tracked>)
    requires |order| == |updated|
    ensures var after, written := ConcludeCycle(store, input, order, updated).0,
                                  WriteBack(store, order, updated, input.advanceWrites);
            after == written || (input.actionable.Some? && after == IssueAll(written, input.actionable.value, input))
  {
  }

  /** The stages a cycle's store goes through. */
  lemma CycleStages(store: Store, input: CycleInput)
    returns (order: seq<string>, updated: seq<Tracked>, written: Store)
    requires Distinct(input.listing)
    ensures Distinct(order) && |order| == |updated|
    ensures forall id :: id in order ==> id in Loaded(store, input)
    ensures Cycle(store, input).0 != store ==> forall id :: id in Loaded(store, input) ==> id in order
    ensures PassExclusive(order, Loaded(store, input), ClaimedOf(Loaded(store, input)), updated)
    ensures written == WriteBack(store, order, updated, input.advanceWrites)
    ensures || Cycle(store, input).0 == store
            || Cycle(store, input).0 == written
            || (input.actionable.Some? && Cycle(store, input).0 == IssueAll(written, input.actionable.value, input))
  {
    OrderListsLoaded(store, input);
    var loaded, reading := Loaded(store, input), ReadingFor(store, input);
    order := Order(store, input);
    var pass := AdvanceSeq(order, loaded, ClaimedOf(loaded), reading);
    if input.connected && pass.Success? {
      updated := pass.value;
      AdvanceSeqLength(order, loaded, ClaimedOf(loaded), reading);
      ConclusionStages(store, input, order, updated);
      assert Cycle(store, input) == ConcludeCycle(store, input, order, updated);
      PassKeepsOwnership(order, loaded, ClaimedOf(loaded), reading);
    } else {
      order, updated := [], [];
    }
    written := WriteBack(store, order, updated, input.advanceWrites);
  }

  /** One cycle keeps ownership exclusive, whatever the broker reports, whichever
      writes fail and even if issuance reuses a trade id. */
  lemma CycleKeepsExclusive(store: Store, input: CycleInput)
    requires Exclusive(store) && EveryMatchLoads(store, input) && Distinct(input.listing)
    ensures Exclusive(Cycle(store, input).0)
  {
    var order, updated, written := CycleStages(store, input);
    var loaded := Loaded(store, input);
    if Cycle(store, input).0 != store {
      WriteBackExclusiveIff(store, loaded, order, updated, input.advanceWrites);
      if input.actionable.Some? {
        IssueKeepsExclusive(written, input.actionable.value, input);
      }
    }
  }

  /** The positions claimed against the `i`-th record when its turn comes: those of the
      loaded records, as far as the pass has got, but not its own. */
  ghost function ClaimedAt(order: seq<string>, loaded: Store, claimed: set<nat>, reading: Reading, i: nat): set<nat>
    requires forall id :: id in order ==> id in loaded
    requires AdvanceSeq(order, loaded, claimed, reading).Success? && i < |order|
  {
    var t := loaded[order[0]];
    var others := claimed - MatchedId(t);
    if i == 0 then others
    else ClaimedAt(order[1..], loaded, claimed + MatchedId(Advance(t, reading, others).value), reading, i - 1)
  }

  /** The first turn of a pass and the rest. */
  lemma FirstTurn(order: seq<string>, loaded: Store, claimed: set<nat>, reading: Reading)
    returns (first: Tracked, rest: seq<Tracked>)
    requires order != [] && forall id :: id in order ==> id in loaded
    requires AdvanceSeq(order, loaded, claimed, reading).Success?
    ensures Advance(loaded[order[0]], reading, claimed - MatchedId(loaded[order[0]])) == Success(first)
    ensures AdvanceSeq(order[1..], loaded, claimed + MatchedId(first), reading) == Success(rest)
    ensures AdvanceSeq(order, loaded, claimed, reading) == Success([first] + rest)
  {
    first := Advance(loaded[order[0]], reading, claimed - MatchedId(loaded[order[0]])).value;
    rest := AdvanceSeq(order[1..], loaded, claimed + MatchedId(first), reading).value;
  }

  lemma NextTurn(order: seq<string>, loaded: Store, claimed: set<nat>, reading: Reading, i: nat)
    requires 0 < i < |order| && forall id :: id in order ==> id in loaded
    requires AdvanceSeq(order, loaded, claimed, reading).Success?
    ensures var first := Advance(loaded[order[0]], reading, claimed - MatchedId(loaded[order[0]])).value;
            && AdvanceSeq(order[1..], loaded, claimed + MatchedId(first), reading).Success?
            && ClaimedAt(order, loaded, claimed, reading, i) ==
               ClaimedAt(order[1..], loaded, claimed + MatchedId(first), reading, i - 1)
  {
  }

  /** What the `i`-th record of a pass became. */
  ghost predicate TurnsInto(order: seq<string>, loaded: Store, claimed: set<nat>, reading: Reading, i: nat, u: Tracked)
    requires forall id :: id in order ==> id in loaded
    requires AdvanceSeq(order, loaded, claimed, reading).Success? && i < |order|
  {
    Advance(loaded[order[i]], reading, ClaimedAt(order, loaded, claimed, reading, i)) == Success(u)
  }

  lemma LaterTurn(order: seq<string>, loaded: Store, claimed: set<nat>, reading: Reading, i: nat, first: Tracked, u: Tracked)
    requires 0 < i < |order| && forall id :: id in order ==> id in loaded
    requires AdvanceSeq(order, loaded, claimed, reading).Success?
    requires Advance(loaded[order[0]], reading, claimed - MatchedId(loaded[order[0]])) == Success(first)
    requires AdvanceSeq(order[1..], loaded, claimed + MatchedId(first), reading).Success?
    requires TurnsInto(order[1..], loaded, claimed + MatchedId(first), reading, i - 1, u)
    ensures TurnsInto(order, loaded, claimed, reading, i, u)
  {
    NextTurn(order, loaded, claimed, reading, i);
  }

  lemma FirstTurnsInto(order: seq<string>, loaded: Store, claimed: set<nat>, reading: Reading, u: Tracked)
    requires order != [] && forall id :: id in order ==> id in loaded
    requires AdvanceSeq(order, loaded, claimed, reading).Success?
    requires Advance(loaded[order[0]], reading, claimed - MatchedId(loaded[order[0]])) == Success(u)
    ensures TurnsInto(order, loaded, claimed, reading, 0, u)
  {
  }

  /** Each result of a pass is its own record's advance, against the claims of its turn. */
  lemma {:induction false} TurnAdvances(order: seq<string>, loaded: Store, claimed: set<nat>, reading: Reading,
                                        updated: seq<Tracked>, i: nat)
    requires forall id :: id in order ==> id in loaded
    requires AdvanceSeq(order, loaded, claimed, reading) == Success(updated) && i < |order| == |updated|
    ensures TurnsInto(order, loaded, claimed, reading, i, updated[i])
    decreases i
  {
    var first, rest := FirstTurn(order, loaded, claimed, reading);
    if i == 0 {
      FirstTurnsInto(order, loaded, claimed, reading, updated[0]);
    } else {
      assert updated[i] == rest[i - 1];
      TurnAdvances(order[1..], loaded, claimed + MatchedId(first), reading, rest, i - 1);
      LaterTurn(order, loaded, claimed, reading, i, first, updated[i]);
    }
  }

  /** An unmatched record comes to own a position exactly when the match is justified. */
  lemma TakesIff(t: Tracked, reading: Reading, claimed: set<nat>, p: nat)
    requires t.matched.None? && Advance(t, reading, claimed).Success?
    ensures Advance(t, reading, claimed).value.matched == Some(p) <==> MatchJustified(t, p, reading, claimed)
  {
    MatchDiscipline(t, reading, claimed);
    if MatchJustified(t, p, reading, claimed) {
      MatchedIff(QueryFor(t, claimed), reading.deals, reading.status, reading.coversUntil, p);
      NewMatchKeeps(t, p, reading);
    }
  }

  /** No record of the pass raises. */
  ghost predicate PassSucceeds(store: Store, input: CycleInput) {
    OrderListsLoaded(store, input);
    var loaded := Loaded(store, input);
    AdvanceSeq(Order(store, input), loaded, ClaimedOf(loaded), ReadingFor(store, input)).Success?
  }

  /** The record is unmatched and, at its turn, could match the position. */
  ghost predicate CouldTake(t: Tracked, p: nat, reading: Reading, turn: set<nat>) {
    t.matched.None? && MatchJustified(t, p, reading, turn)
  }

  /** At its turn an unmatched record, whose update is then written, could match the
      position of an owner that was not loaded. */
  ghost predicate Robs(store: Store, loaded: Store, order: seq<string>, reading: Reading, written: set<string>)
    requires forall id :: id in order ==> id in loaded
    requires AdvanceSeq(order, loaded, ClaimedOf(loaded), reading).Success?
  {
    exists i: nat, a ::
      && i < |order| && order[i] in written && UnloadedOwner(store, loaded, a)
      && CouldTake(loaded[order[i]], store[a].matched.value, reading,
                   ClaimedAt(order, loaded, ClaimedOf(loaded), reading, i))
  }

  ghost predicate RobsOwner(store: Store, input: CycleInput)
    requires PassSucceeds(store, input)
  {
    OrderListsLoaded(store, input);
    Robs(store, Loaded(store, input), Order(store, input), ReadingFor(store, input), input.advanceWrites)
  }

  /** A record comes to hold the position of another owner exactly when it could take it
      at its turn. */
  lemma TurnTakesIff(t: Tracked, p: nat, reading: Reading, turn: set<nat>, updated: Tracked)
    requires Advance(t, reading, turn) == Success(updated) && t.matched != Some(p)
    ensures updated.matched == Some(p) <==> CouldTake(t, p, reading, turn)
  {
    MatchDiscipline(t, reading, turn);
    if t.matched.None? {
      TakesIff(t, reading, turn, p);
    }
  }

  lemma PassTakesIff(store: Store, loaded: Store, order: seq<string>, reading: Reading, updated: seq<Tracked>, i: nat,
                     a: string)
    requires Exclusive(store) && PartOf(loaded, store) && forall id :: id in order ==> id in loaded
    requires AdvanceSeq(order, loaded, ClaimedOf(loaded), reading) == Success(updated)
    requires i < |order| == |updated| && UnloadedOwner(store, loaded, a)
    ensures updated[i].matched == store[a].matched <==>
            CouldTake(loaded[order[i]], store[a].matched.value, reading,
                      ClaimedAt(order, loaded, ClaimedOf(loaded), reading, i))
  {
    var id, p := order[i], store[a].matched.value;
    assert id in order && loaded[id] == store[id] && store[id].matched != Some(p);
    TurnAdvances(order, loaded, ClaimedOf(loaded), reading, updated, i);
    TurnTakesIff(loaded[id], p, reading, ClaimedAt(order, loaded, ClaimedOf(loaded), reading, i), updated[i]);
  }

  lemma RobsIffShares(store: Store, loaded: Store, order: seq<string>, reading: Reading, updated: seq<Tracked>,
                      written: set<string>)
    requires Exclusive(store) && PartOf(loaded, store) && forall id :: id in order ==> id in loaded
    requires AdvanceSeq(order, loaded, ClaimedOf(loaded), reading) == Success(updated) && |updated| == |order|
    ensures Robs(store, loaded, order, reading, written) <==> Shares(store, loaded, order, updated, written)
  {
    if Shares(store, loaded, order, updated, written) {
      var i: nat, a :| i < |order| && order[i] in written && UnloadedOwner(store, loaded, a)
                       && updated[i].matched == store[a].matched;
      PassTakesIff(store, loaded, order, reading, updated, i, a);
    }
    if Robs(store, loaded, order, reading, written) {
      var i: nat, a :| i < |order| && order[i] in written && UnloadedOwner(store, loaded, a)
                       && CouldTake(loaded[order[i]], store[a].matched.value, reading,
                                    ClaimedAt(order, loaded, ClaimedOf(loaded), reading, i));
      PassTakesIff(store, loaded, order, reading, updated, i, a);
    }
  }

  /** Issuing under fresh trade ids neither makes nor hides a shared position. */
  lemma FreshIssueExclusiveIff(store: Store, recs: seq<Recommendation>, input: CycleInput)
    requires forall rec :: rec in recs ==> rec.tradeId !in store
    ensures Exclusive(IssueAll(store, recs, input)) <==> Exclusive(store)
  {
    IssueAt(store, recs, input);
    if !Exclusive(store) {
      var a, b :| a in store && b in store && a != b && store[a].matched.Some? && store[b].matched == store[a].matched;
      var after := IssueAll(store, recs, input);
      assert after[a] == store[a] && after[b] == store[b];
    }
  }

  /** For any listing, any account mode, any unreadable records and any writes failing:
      a cycle with fresh trade ids keeps ownership exclusive exactly when no written
      record of the pass could match an unloaded owner's position at its turn. */
  lemma CycleExclusiveIff(store: Store, input: CycleInput)
    requires Exclusive(store) && Distinct(input.listing)
    requires input.actionable.Some? ==> forall rec :: rec in input.actionable.value ==> rec.tradeId !in store
    ensures Exclusive(Cycle(store, input).0) <==> !(input.connected && PassSucceeds(store, input) && RobsOwner(store, input))
  {
    OrderListsLoaded(store, input);
    if input.connected && PassSucceeds(store, input) {
      var order, loaded, reading := Order(store, input), Loaded(store, input), ReadingFor(store, input);
      var updated := AdvanceSeq(order, loaded, ClaimedOf(loaded), reading).value;
      PassKeepsOwnership(order, loaded, ClaimedOf(loaded), reading);
      ConclusionStages(store, input, order, updated);
      assert Cycle(store, input) == ConcludeCycle(store, input, order, updated);
      RobsIffShares(store, loaded, order, reading, updated, input.advanceWrites);
      WriteBackExclusiveIff(store, loaded, order, updated, input.advanceWrites);
      WriteBackAt(store, order, updated, input.advanceWrites);
      if input.actionable.Some? {
        FreshIssueExclusiveIff(WriteBack(store, order, updated, input.advanceWrites), input.actionable.value, input);
      }
    }
  }

  // ---- runs -----------------------------------------------------------------

  ghost function Run(store: Store, inputs: seq<CycleInput>): Store {
    if inputs == [] then store
    else Cycle(Run(store, inputs[..|inputs| - 1]), inputs[|inputs| - 1]).0
  }

  /** In each cycle of the run, every record that holds a position at that point
      loads. */
  ghost predicate AlwaysLoads(store: Store, inputs: seq<CycleInput>) {
    inputs != [] ==>
      && AlwaysLoads(store, inputs[..|inputs| - 1])
      && EveryMatchLoads(Run(store, inputs[..|inputs| - 1]), inputs[|inputs| - 1])
      && Distinct(inputs[|inputs| - 1].listing)
  }

  /** Over any run of cycles, with any deal histories and any subset of writes
      failing, no two stored recommendations hold the same position. */
  lemma {:induction false} OwnershipIsExclusive(inputs: seq<CycleInput>)
    requires AlwaysLoads(map[], inputs)
    ensures Exclusive(Run(map[], inputs))
  {
    if inputs != [] {
      var earlier := inputs[..|inputs| - 1];
      OwnershipIsExclusive(earlier);
      CycleKeepsExclusive(Run(map[], earlier), inputs[|inputs| - 1]);
    }
  }

  predicate Issues(input: CycleInput, id: string) {
    input.actionable.Some? && exists rec :: rec in input.actionable.value && rec.tradeId == id
  }

  /** The facts of a stored record that no cycle may alter. */
  ghost predicate Preserved(before: Store, after: Store, id: string) {
    id in before ==>
      && id in after
      && SameIssue(before[id], after[id])
      && (before[id].matched.Some? ==> after[id].matched == before[id].matched)
  }

  lemma CyclePreserves(store: Store, input: CycleInput, id: string)
    requires Distinct(input.listing) && !Issues(input, id)
    ensures Preserved(store, Cycle(store, input).0, id)
  {
    var order, updated, written := CycleStages(store, input);
    WriteBackAt(store, order, updated, input.advanceWrites);
    if id in store {
      if id in order && id in input.advanceWrites {
        var i :| 0 <= i < |order| && order[i] == id;
        assert written[id] == updated[i];
      }
      assert Preserved(store, written, id);
      if input.actionable.Some? {
        IssueAt(written, input.actionable.value, input);
      }
    }
  }

  /** Over any run, with any read and write failures, a stored match and the issued
      facts of a record never change, unless issuance reuses its trade id. */
  lemma {:induction false} MatchesNeverChange(store: Store, inputs: seq<CycleInput>, id: string)
    requires forall input :: input in inputs ==> Distinct(input.listing) && !Issues(input, id)
    ensures Preserved(store, Run(store, inputs), id)
  {
    if inputs != [] {
      var earlier, last := inputs[..|inputs| - 1], inputs[|inputs| - 1];
      assert last in inputs;
      assert forall input :: input in earlier ==> input in inputs;
      MatchesNeverChange(store, earlier, id);
      CyclePreserves(Run(store, earlier), last, id);
    }
  }

  // ---- why records that hold a position must load ----------------------------

  const EXAMPLE_OWNER: Tracked :=
    Tracked(PositionRecord("a", "X", Long, 5, 20, Open, 1.0, 0.5, None, None, None, None, None),
            1.0, {}, Some(7), Some(Matched(7)), Some(9))

  const EXAMPLE_WAITING: Tracked :=
    Tracked(PositionRecord("b", "X", Long, 5, 20, Pending, 1.0, 0.5, None, None, None, None, None),
            1.0, {}, None, None, None)

  const EXAMPLE_FILL: Deal := Deal(1, 7, 10, Some("X"), Buy, In, 1.0, 1.0, 0.0, 0.0, 0.0, 0.0)

  const EXAMPLE_INPUT: CycleInput :=
    CycleInput(true, None, ["a", "b"], {"a"}, 12, 0, HistoryOk, (start: int) => [EXAMPLE_FILL], {"b"},
               true, [], "X", None, {}, {})

  lemma SoleFillMatches(q: Query, d: Deal, coversUntil: int)
    requires Qualifies(d, q) && d.volume == q.approvedVolume && d.positionId > 0
    ensures Match(q, [d], HistoryOk, coversUntil) == Success(Matched(d.positionId))
  {
    var p := d.positionId;
    assert IsGenesis(d, [d], q, p);
    forall other | Eligible([d], q, other)
      ensures other == p
    {
    }
    FilterOne(d, FillOf(q, p));
    assert [d][..0] == [] && Sum([d][..0], VolumeOf) == 0.0;
    assert OpeningVolume([d], q, p) == d.volume;
    MatchedIff(q, [d], HistoryOk, coversUntil, p);
  }

  lemma OnlyFillReconstructs(q: Query, fill: Deal)
    requires Qualifies(fill, q) && fill.volume > 0.0 && fill.positionId > 0 && fill.time > EPOCH
    ensures Lifecycle(fill.positionId, [fill]).Success?
    ensures var lifecycle := Lifecycle(fill.positionId, [fill]).value;
            lifecycle.ClosedLifecycle? ==> lifecycle.exitTime >= lifecycle.actualEntryTime
  {
    var p, deals := fill.positionId, [fill];
    assert IsGenesis(fill, deals, q, p);
    OwnDeals(deals, p);
    ReadyIffAllSafe(OfPosition(deals, p), LifecycleVerdict, TicketOf, REASON_ORDER);
    GenesisOpens(q, p, fill, deals);
    FaultsExactly(p, deals);
    VolumesNonnegative(Openings(deals, p));
    if Lifecycle(p, deals).value.ClosedLifecycle? {
      ExitNeverBeforeGenesis(q, p, fill, deals);
    }
  }

  /** A record settles on a history that holds nothing but its position's first fill. */
  lemma FillSettles(t: Tracked, q: Query, fill: Deal, reading: Reading)
    requires reading.status.HistoryOk? && reading.deals == [fill]
    requires Qualifies(fill, q) && fill.volume > 0.0 && fill.positionId > 0 && t.matched == Some(fill.positionId)
    requires fill.time > EPOCH && TimelineValid(t.record) && t.record.exitTime.None?
    ensures Settle(t, reading).Success?
  {
    OnlyFillReconstructs(q, fill);
    SettlesWithin(t, Lifecycle(fill.positionId, [fill]).value, reading.asOf);
  }

  lemma SettlesWithin(t: Tracked, lifecycle: LifecycleAssessment, asOf: int)
    requires TimelineValid(t.record) && t.record.exitTime.None?
    requires lifecycle.ClosedLifecycle? ==> lifecycle.exitTime >= lifecycle.actualEntryTime
    ensures Settled(t, lifecycle, asOf).Success?
  {
  }

  lemma ExampleAdvance(reading: Reading) returns (updated: Tracked)
    requires reading == Reading(12, HistoryOk, [EXAMPLE_FILL], 12)
    ensures Advance(EXAMPLE_WAITING, reading, {}) == Success(updated) && updated.matched == Some(7)
  {
    SoleFillMatches(QueryFor(EXAMPLE_WAITING, {}), EXAMPLE_FILL, 12);
    var t := WithMatch(EXAMPLE_WAITING, 7, 12);
    FillSettles(t, QueryFor(EXAMPLE_WAITING, {}), EXAMPLE_FILL, reading);
    SettleKeeps(t, reading);
    updated := Settle(t, reading).value;
  }

  lemma SingleRecordPass(id: string, loaded: Store, claimed: set<nat>, reading: Reading, updated: Tracked)
    requires id in loaded && Advance(loaded[id], reading, claimed - MatchedId(loaded[id])) == Success(updated)
    ensures AdvanceSeq([id], loaded, claimed, reading) == Success([updated])
  {
    var order := [id];
    assert order[0] == id && order[1..] == [];
    assert AdvanceSeq(order[1..], loaded, claimed + MatchedId(updated), reading) == Success([]);
    assert [updated] + [] == [updated];
  }

  lemma ExampleOrder(store: Store, input: CycleInput, a: string, b: string)
    requires a != b && input.listing == [a, b] && input.unreadable == {a} && b in store
    ensures Order(store, input) == [b] && Loaded(store, input) == map[b := store[b]]
  {
    var keep := InStore(Loaded(store, input));
    assert b in input.listing;
    assert !keep(a) && keep(b);
    assert input.listing == [a] + [b];
    FilterAppend([a], [b], keep);
    FilterOne(a, keep);
    FilterOne(b, keep);
  }

  lemma ExampleIsRobbed(store: Store)
    requires store == map["a" := EXAMPLE_OWNER, "b" := EXAMPLE_WAITING]
    ensures RobbedBy(store, EXAMPLE_INPUT)
  {
    ExampleReading(store);
    var updated := ExampleAdvance(ReadingFor(store, EXAMPLE_INPUT));
    OneOwnerExclusive(store, "a", "b");
    ExampleOrder(store, EXAMPLE_INPUT, "a", "b");
    RobbedPass(store, EXAMPLE_INPUT, "a", "b", updated);
  }

  /** The condition cannot be dropped: an owner whose file reads CORRUPT falls out of
      the claimed set, and a waiting record takes its position in the same cycle. */
  lemma UnreadableOwnerIsRobbed()
    ensures exists store: Store, input: CycleInput :: RobbedBy(store, input)
  {
    ExampleIsRobbed(map["a" := EXAMPLE_OWNER, "b" := EXAMPLE_WAITING]);
  }

  lemma ExampleReading(store: Store)
    ensures ReadingFor(store, EXAMPLE_INPUT) == Reading(12, HistoryOk, [EXAMPLE_FILL], 12)
  {
  }

  lemma OneOwnerExclusive(store: Store, a: string, b: string)
    requires store.Keys == {a, b} && store[b].matched.None?
    ensures Exclusive(store)
  {
  }

  lemma RobbedPass(store: Store, input: CycleInput, a: string, b: string, updated: Tracked)
    requires a in store && b in store && a != b && Exclusive(store)
    requires Order(store, input) == [b] && Loaded(store, input) == map[b := store[b]]
    requires Distinct(input.listing) && input.connected && input.actionable.None? && b in input.advanceWrites
    requires store[b].matched.None? && store[a].matched.Some? && updated.matched == store[a].matched
    requires Advance(store[b], ReadingFor(store, input), {}) == Success(updated)
    ensures !Exclusive(Cycle(store, input).0)
  {
    var loaded := Loaded(store, input);
    var none: set<nat> := {};
    assert ClaimedOf(loaded) == none && none - MatchedId(store[b]) == none;
    SingleRecordPass(b, loaded, none, ReadingFor(store, input), updated);
    assert [b][0] in input.advanceWrites && [updated][0].matched == store[a].matched && UnloadedOwner(store, loaded, a);
    assert Shares(store, loaded, [b], [updated], input.advanceWrites);
    assert PassSucceeds(store, input);
    RobsIffShares(store, loaded, [b], ReadingFor(store, input), [updated], input.advanceWrites);
    CycleExclusiveIff(store, input);
  }

  ghost predicate RobbedBy(store: Store, input: CycleInput) {
    Exclusive(store) && Distinct(input.listing) && !Exclusive(Cycle(store, input).0)
  }
}
