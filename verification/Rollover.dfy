/** The rollover baseline: one persisted opening equity per trading day, under any
    read and write failures. */
module Rollover {
  import opened Common

  datatype EstablishmentMode = MiddayBootstrap | PostBoundaryFirstObservation

  /** `tradingDay` orders days as their ISO dates do. */
  datatype RolloverState = RolloverState(
    tradingDay: int,
    rolloverEquity: real,
    establishedAt: int,
    timezone: string,
    hour: int,
    mode: EstablishmentMode)

  datatype PolicyConfig = PolicyConfig(timezone: string, hour: int)

  datatype PersistedRead = Absent | Present(state: RolloverState) | Corrupt | ReadUnavailable

  datatype RolloverOutcome =
    | ReadyBaseline
    | BootstrappedMidday
    | FutureState
    | ConfigMismatch
    | PersistenceCorrupt
    | PersistenceUnavailable

  predicate Usable(outcome: RolloverOutcome) { outcome.ReadyBaseline? || outcome.BootstrappedMidday? }

  datatype Decision = Decision(outcome: RolloverOutcome, state: Option<RolloverState>)

  function DecideRollover(day: int, equity: real, asOf: int, policy: PolicyConfig, read: PersistedRead): Decision {
    match read
    case Corrupt => Decision(PersistenceCorrupt, None)
    case ReadUnavailable => Decision(PersistenceUnavailable, None)
    case Absent =>
      Decision(BootstrappedMidday,
               Some(RolloverState(day, equity, asOf, policy.timezone, policy.hour, MiddayBootstrap)))
    case Present(stored) =>
      if day < stored.tradingDay then Decision(FutureState, None)
      else if day > stored.tradingDay then
        Decision(ReadyBaseline,
                 Some(RolloverState(day, equity, asOf, policy.timezone, policy.hour, PostBoundaryFirstObservation)))
      else if stored.timezone != policy.timezone || stored.hour != policy.hour then Decision(ConfigMismatch, None)
      else Decision(ReadyBaseline, Some(stored))
  }

  // ---- one cycle ----------------------------------------------------------------

  /** How a read of the state file can fail; ABSENT is read only when nothing is
      stored. */
  datatype ReadCondition = Reads | ReadsCorrupt | ReadFails

  datatype RolloverInput = RolloverInput(
    day: int,
    equity: Option<real>,
    asOf: int,
    policy: PolicyConfig,
    condition: ReadCondition,
    writeSucceeds: bool)

  function ReadOf(stored: Option<RolloverState>, condition: ReadCondition): PersistedRead {
    match condition
    case ReadsCorrupt => Corrupt
    case ReadFails => ReadUnavailable
    case Reads => if stored.None? then Absent else Present(stored.value)
  }

  /** What the cycle decides; nothing without account facts. */
  function Decided(stored: Option<RolloverState>, input: RolloverInput): Option<Decision> {
    if input.equity.None? then None
    else Some(DecideRollover(input.day, input.equity.value, input.asOf, input.policy, ReadOf(stored, input.condition)))
  }

  function PersistedState(stored: Option<RolloverState>, input: RolloverInput): Option<RolloverState> {
    var read := ReadOf(stored, input.condition);
    if read.Present? then Some(read.state) else None
  }

  /** The state file after the cycle. */
  function After(stored: Option<RolloverState>, input: RolloverInput): Option<RolloverState> {
    var decided := Decided(stored, input);
    if decided.None? || decided.value.state.None? then stored
    else if decided.value.state == PersistedState(stored, input) then stored
    else if input.writeSucceeds then decided.value.state
    else stored
  }

  class RolloverPersistence {
    var stored: Option<RolloverState>

    constructor ()
      ensures stored == None
    {
      stored := None;
    }

    method Write(state: RolloverState, succeeds: bool) returns (persisted: bool)
      modifies this
      ensures persisted == succeeds && stored == if succeeds then Some(state) else old(stored)
    {
      if succeeds {
        stored := Some(state);
      }
      persisted := succeeds;
    }

    /** The rollover part of a runtime cycle. */
    method Advance(input: RolloverInput) returns (decided: Option<Decision>, persisted: Option<bool>)
      modifies this
      ensures decided == Decided(old(stored), input) && stored == After(old(stored), input)
      ensures persisted.Some? <==>
              decided.Some? && decided.value.state.Some? && decided.value.state != PersistedState(old(stored), input)
      ensures persisted.Some? ==> persisted.value == input.writeSucceeds
    {
      persisted := None;
      if input.equity.None? {
        return None, None;
      }
      var read := ReadOf(stored, input.condition);
      var decision := DecideRollover(input.day, input.equity.value, input.asOf, input.policy, read);
      decided := Some(decision);
      if decision.state.Some? && decision.state != (if read.Present? then Some(read.state) else None) {
        var written := Write(decision.state.value, input.writeSucceeds);
        persisted := Some(written);
      }
    }
  }

  // ---- what one decision guarantees ------------------------------------------------

  /** An outcome may be used exactly when it comes with a state, and that state is
      always for the current trading day. */
  lemma UsableIffCurrentState(day: int, equity: real, asOf: int, policy: PolicyConfig, read: PersistedRead)
    ensures var d := DecideRollover(day, equity, asOf, policy, read);
            && (Usable(d.outcome) <==> d.state.Some?)
            && (d.state.Some? ==> d.state.value.tradingDay == day)
            && (d.state.Some? ==> d.state.value.timezone == policy.timezone && d.state.value.hour == policy.hour)
  {
  }

  // ---- runs --------------------------------------------------------------------------

  function RunRollover(stored: Option<RolloverState>, inputs: seq<RolloverInput>): Option<RolloverState> {
    if inputs == [] then stored
    else After(RunRollover(stored, inputs[..|inputs| - 1]), inputs[|inputs| - 1])
  }

  /** A stored state stays, or gives way to a later day's; at its own day it is never
      rewritten. */
  predicate Advances(before: Option<RolloverState>, after: Option<RolloverState>) {
    before.Some? ==>
      && after.Some?
      && before.value.tradingDay <= after.value.tradingDay
      && (before.value.tradingDay == after.value.tradingDay ==> after == before)
  }

  /** Over any run with any read and write failures the stored trading day never moves
      backwards, and the state stored for one day is never replaced by another for
      that day. */
  lemma {:induction false} StoredDayNeverMovesBack(stored: Option<RolloverState>, inputs: seq<RolloverInput>)
    ensures Advances(stored, RunRollover(stored, inputs))
  {
    if inputs != [] {
      StoredDayNeverMovesBack(stored, inputs[..|inputs| - 1]);
    }
  }

  lemma {:induction false} RunSplits(stored: Option<RolloverState>, inputs: seq<RolloverInput>, k: nat)
    requires k <= |inputs|
    ensures RunRollover(stored, inputs) == RunRollover(RunRollover(stored, inputs[..k]), inputs[k..])
  {
    if k == |inputs| {
      assert inputs[..k] == inputs && inputs[k..] == [];
    } else {
      var n := |inputs| - 1;
      RunSplits(stored, inputs[..n], k);
      assert inputs[..n][..k] == inputs[..k] && inputs[..n][k..] == inputs[k..][..|inputs[k..]| - 1];
    }
  }

  /** Once a day's baseline is stored, every later usable cycle of that day returns
      exactly it, and no cycle can be usable for an earlier day. */
  lemma BaselineIsFixed(inputs: seq<RolloverInput>, k: nat, n: nat)
    requires k <= n < |inputs|
    requires RunRollover(None, inputs[..k]).Some?
    requires var decided := Decided(RunRollover(None, inputs[..n]), inputs[n]);
             decided.Some? && Usable(decided.value.outcome)
    ensures var baseline := RunRollover(None, inputs[..k]).value;
            && inputs[n].day >= baseline.tradingDay
            && (inputs[n].day == baseline.tradingDay ==>
                  Decided(RunRollover(None, inputs[..n]), inputs[n]).value.state == Some(baseline))
  {
    RunSplits(None, inputs[..n], k);
    assert inputs[..n][..k] == inputs[..k];
    StoredDayNeverMovesBack(RunRollover(None, inputs[..k]), inputs[..n][k..]);
  }

  /** Until a write succeeds there is no baseline to return: a usable cycle answers with
      the equity of the moment exactly when the stored state is not for its day. */
  lemma EquityOfTheMomentIff(stored: Option<RolloverState>, input: RolloverInput)
    requires Decided(stored, input).Some? && Usable(Decided(stored, input).value.outcome)
    ensures var state := Decided(stored, input).value.state;
            && state.Some?
            && (stored.Some? && stored.value.tradingDay == input.day ==> state == stored)
            && (!(stored.Some? && stored.value.tradingDay == input.day) ==>
                  && state.value.rolloverEquity == input.equity.value
                  && (stored.Some? <==> state.value.mode.PostBoundaryFirstObservation?)
                  && (After(stored, input) == state <==> input.writeSucceeds))
  {
  }

  ghost predicate ForwardClock(inputs: seq<RolloverInput>) {
    forall i, j :: 0 <= i < j < |inputs| ==> inputs[i].day <= inputs[j].day
  }

  lemma {:induction false} StoredDayWasSeen(inputs: seq<RolloverInput>)
    requires RunRollover(None, inputs).Some?
    ensures exists i :: 0 <= i < |inputs| && inputs[i].day == RunRollover(None, inputs).value.tradingDay
  {
    var n := |inputs| - 1;
    var before := RunRollover(None, inputs[..n]);
    if After(before, inputs[n]) == before {
      StoredDayWasSeen(inputs[..n]);
      var i :| 0 <= i < n && inputs[..n][i].day == before.value.tradingDay;
      assert inputs[i].day == before.value.tradingDay;
    } else {
      assert inputs[n].day == After(before, inputs[n]).value.tradingDay;
    }
  }

  /** FUTURE_STATE is evidence of a clock that went back: a run whose trading days never
      decrease never reports it. */
  lemma ForwardClockNeverFuture(inputs: seq<RolloverInput>, n: nat)
    requires ForwardClock(inputs) && n < |inputs|
    requires Decided(RunRollover(None, inputs[..n]), inputs[n]).Some?
    ensures !Decided(RunRollover(None, inputs[..n]), inputs[n]).value.outcome.FutureState?
  {
    if RunRollover(None, inputs[..n]).Some? {
      StoredDayWasSeen(inputs[..n]);
      var i :| 0 <= i < n && inputs[..n][i].day == RunRollover(None, inputs[..n]).value.tradingDay;
      assert inputs[i].day <= inputs[n].day;
    }
  }

  // ---- by the file's own fields ----------------------------------------------------------

  /** What a cycle with account facts decides, by how the state file read and what it
      says. */
  lemma DecidedByFile(stored: Option<RolloverState>, input: RolloverInput)
    requires input.equity.Some?
    ensures Decided(stored, input).Some?
    ensures var outcome, read := Decided(stored, input).value.outcome, input.condition.Reads?;
            var ours := stored.Some? && stored.value.timezone == input.policy.timezone
                        && stored.value.hour == input.policy.hour;
            && (outcome.PersistenceCorrupt? <==> input.condition.ReadsCorrupt?)
            && (outcome.PersistenceUnavailable? <==> input.condition.ReadFails?)
            && (outcome.BootstrappedMidday? <==> read && stored.None?)
            && (outcome.FutureState? <==> read && stored.Some? && input.day < stored.value.tradingDay)
            && (outcome.ConfigMismatch? <==> read && stored.Some? && input.day == stored.value.tradingDay && !ours)
            && (outcome.ReadyBaseline? <==>
                  && read && stored.Some?
                  && (input.day > stored.value.tradingDay || (input.day == stored.value.tradingDay && ours)))
  {
  }

  /** A state established in this cycle is of this day, equity, instant and policy, and
      says whether it is the very first. */
  lemma EstablishedNow(stored: Option<RolloverState>, input: RolloverInput)
    requires Decided(stored, input).Some? && Decided(stored, input).value.state.Some?
    requires Decided(stored, input).value.state != stored
    ensures var state := Decided(stored, input).value.state.value;
            && state.tradingDay == input.day && state.rolloverEquity == input.equity.value
            && state.establishedAt == input.asOf
            && state.timezone == input.policy.timezone && state.hour == input.policy.hour
            && (state.mode.MiddayBootstrap? <==> stored.None?)
  {
  }

  /** The file changes only by a successful write of such a state. */
  lemma FileAfter(stored: Option<RolloverState>, input: RolloverInput)
    ensures After(stored, input) != stored <==>
              && input.writeSucceeds && Decided(stored, input).Some? && Decided(stored, input).value.state.Some?
              && Decided(stored, input).value.state != stored
    ensures After(stored, input) != stored ==> After(stored, input) == Decided(stored, input).value.state
    ensures Decided(stored, input).None? <==> input.equity.None?
  {
  }
}
