# Verified model of the advisory trading core

This project models, and proves properties of, the deterministic core of an
advisory trading system. Once per cycle that system reads a broker account,
follows every recommendation it has issued against the broker's deal history,
evaluates strategy evidence, sizes what survives its risk stages and issues new
recommendations. Nothing here performs input or output: broker answers, the
directory listing, clocks, and which reads and writes succeed are parameters.

The modules follow the program's components.

- **Tracking** (`FailClosed`, `Deals`, `History`, `Matching`,
  `PositionLifecycle`, `Tracker`, `RuntimeCycle`). Deals are folded per position;
  a recommendation is matched to the one position it can own; a cycle loads all
  records, advances them in order with a running set of claimed positions, writes
  them back one at a time, consults the netting guard and issues. `Cycle` is the
  cycle as a function of the store; `RecommendationStore` performs it by updating
  a field, and is proved to do exactly that.
- **Whole runs** (`Ownership`, `HistoryWindow`, `NettingLock`, `Progress`,
  `PnlConservation`). Exclusive and immutable ownership of positions, the per-symbol
  lock of netting accounts, the irrelevance of the moving history window, progress
  without raises, and conservation of realized money under both groupings.
- **In the source's own terms** (`CycleReport`, `BookedMoney`, `JudgeReadings`, and the
  closing sections of other modules). The same results read off inputs: which deals,
  prices and fees a figure adds up, which values make a direction, who passes the guard.
- **Money** (`OpenRisk`, `Sizing`, `SetupConstruction`, `RiskBudget`,
  `FinalRecommendations`). Stop rounding, broker-grid sizing, the risk gate, the
  portfolio supervisor and the session gate, up to one bound on everything the
  system can recommend from one account snapshot.
- **Bounded histories** (`BoundedBuffers`, `FlowWindows`, `FlowFeatures`,
  `FlowEngines`, `MacroHistory`). Drop-oldest buffers compared with the
  never-evicted stream they are a suffix of.
- **Decisions** (`Rollover`, `Judge`, `JudgeMirror`, `JudgeEvidence`, `EventGate`).
  The persisted trading-day baseline, the judge and its mirror symmetry, and the event
  gate.
- **One evaluation** (`Strategies`, `Pipeline`, `NoTradeWalk`, `Issuance`). The stages
  wired from judge to final construction, the walk that finds why a family is not
  traded, and what the operator is shown.
- `Common` holds optional values, fallible results, sequence sums and filters, and
  small facts of real arithmetic.

Conventions. `Decimal` is `real`. Instants and durations are integer
microseconds. An exception that leaves a function is a `Failure`. An absent,
corrupt or unreachable file is an id that is not in the store or is listed as
unreadable. Position ids, tickets and indices are natural numbers. Enum strings
are constructors.

What the guarantees over runs rest on:

- *Ownership* needs, in each cycle, that every stored record that already holds a
  position is listed and reads VALID. `Ownership.CycleExclusiveIff` says exactly
  when a cycle keeps exclusivity without that, and
  `Ownership.UnreadableOwnerIsRobbed` that it can fail: an owner that reads CORRUPT
  leaves the claimed set and another record takes its position.
- *The netting lock* (`NettingLock.Environment`, `NettingLock.Grows`) needs that
  records load and advance writes succeed, that the broker's log grows only by
  later deals and gives a closed position no more, that the positions snapshot
  taken at issue names every position of the record's own symbol then open, that
  trade ids are fresh and that recommendations are for the cycle's target symbol.
  Positions of other symbols and account operations may straddle a signal freely
  (`NettingLock.SnapshotCompleteIff`). Without that the lock fails in two ways: a record
  that cannot be read is not counted (`NettingLock.UnreadableHolderBreaksLock`), and a
  resolved record whose write is lost still holds the lock on disk
  (`NettingLock.LostWriteBreaksLock`). `NettingLock.LockSurvivesIff` is the exact
  condition for both. `Issuance.NewCycleIdsAreFresh` says why trade ids are fresh, and
  `Issuance.HandedOverIsIssuable` that an evaluation's recommendations are as required.
- *Progress* (`Progress.NoCycleRaises`) needs, beside that, distinct tickets and a
  position id in every opening trade; `Matching.RaisesIff` and
  `PositionLifecycle.FaultsExactly` say where raises come from otherwise.
- NOT_FILLED is documented as terminal (`app/orchestration/runtime_cycle.py:97-106`), but the code
  matches every unmatched record again: `NettingLock.SomeUnfilledRevives` is a
  revival and `NettingLock.UnfilledRevivesIff` the exact condition for one; under the
  conditions above there is none (`NettingLock.ResolutionIsFinal`).
- Day intervals are documented as the inverse of the trading-day key, whatever the
  wall clock does (`app/mt5/rollover.py:71-80`). They are not where a change of the
  clock steps over the rollover hour: `History.TwoHourJumpFails` is such a zone and
  `History.ZoneIntervalsInvertIff` the exact condition.
- The judge raises on some news: two providers, one positive and one at zero, count
  as disagreeing while naming a single concrete sign
  (`JudgeEvidence.PositiveAndZeroRaises`, exactly by `JudgeEvidence.VerdictSoundIff`).
- The time of safety the event gate reports is not safe for every setup built then
  (`EventGate.FreshSetupIsBlockedAgain`, exactly by `EventGate.WaitingIsBlockedIff`),
  and a bounded economic history can forget that a value was released
  (`MacroHistory.EvictionForgetsSettled`, exactly by `MacroHistory.VerdictsDifferIff`).
- The source visits records in the lexicographic order of their trade ids. Here
  the order is any duplicate-free listing, so the results hold for that order too.
- A raise while advancing ends the cycle before any record is written.

## Model

| member | source | states |
|---|---|---|
| `FailClosed.ReadyIffAllSafe` | app/mt5/risk.py:92-124 | an assessment is READY exactly when no considered item is unsafe |
| `FailClosed.OrderIrrelevant` | app/mt5/history.py:108-151 | any reordering gives the same outcome, canonical reasons, total and multiset of unsafe tickets, and raises for repeated tickets or not alike |
| `History.ComputeRealizedDailyPnL` | app/mt5/history.py:92-151 | the loop over deals computes the order-free fail-closed assessment of the day, or raises on repeated unsafe tickets |
| `BookedMoney.DailyMoney` | app/mt5/history.py:70-151 | a READY day totals commission and fee of every BUY and SELL deal in it, and profit and swap of those that close exposure |
| `BookedMoney.DayBlockedFor` | app/mt5/history.py:70-151 | a day is blocked for a reason exactly when some deal's own fields give it |
| `BookedMoney.DayTickets` | app/mt5/history.py:92-151 | a blocked day lists the tickets of exactly the deals that give a reason |
| `History.ZoneIntervalsInvertIff` | app/mt5/rollover.py:55-88 | in a zone with any number of offset changes the days' half-open intervals invert the trading-day key, for every instant and day, exactly when no day's rollover reading lies strictly inside the stretch of wall clock a change skips or repeats |
| `History.IntervalInvertsKey` | app/mt5/rollover.py:55-88 | with a rollover on the hour and changes of at most an hour on the hour, or none at all, they always do |
| `History.TwoHourJumpFails` | app/mt5/rollover.py:55-88 | a two-hour jump around the rollover hour puts instants into one day's key and another day's interval |
| `History.WindowSplits` | app/mt5/history.py:92-151 | a window cut in two is READY exactly when both halves are, and the halves' realized PnL adds up to the whole |
| `History.DaysPartitionSpan` | app/mt5/history.py:92-151 | consecutive trading days of any lengths are all READY exactly when the span is, and their PnL sums to the span's |
| `Matching.MatchRecommendation` | app/mt5/matching.py:96-176 | grouping the deals, comparing earliest times and volumes yields exactly the set-based definition of the outcome |
| `Matching.EligibleGroups` | app/mt5/matching.py:140-168 | the groups that pass the first-lifecycle test are exactly the positions the recommendation could own, with all their qualifying fills |
| `Matching.ConsistentIffEligible` | app/mt5/matching.py:81-93 | the comparison of two minima holds exactly when a qualifying fill is the position's earliest deal |
| `Matching.MatchedIff` | app/mt5/matching.py:140-176 | MATCHED p, PARTIAL_FILL p and VOLUME_MISMATCH p hold exactly when p is the only eligible position and its opening volume equals, is below, or exceeds the approved volume |
| `Matching.MatchedByDirection` | app/mt5/matching.py:44-176 | MATCHED p exactly when p alone began with a BUY entry for a LONG, or a SELL entry for a SHORT, on the symbol and inside the window, and such entries add up to the approved volume; NEUTRAL and WAIT never match |
| `Matching.AmbiguousIff` | app/mt5/matching.py:157-162 | AMBIGUOUS ids holds exactly when ids are the eligible positions, ascending and at least two |
| `Matching.NoCandidateIff` | app/mt5/matching.py:96-176 | EXPIRED_CONFIRMED_UNFILLED and NO_CANDIDATE_YET hold exactly when nothing is eligible, with and without coverage of the validity window |
| `Matching.RaisesIff` | app/mt5/matching.py:160-176 | matching raises, rejecting the id, exactly when the history is readable and position 0 is the sole eligible one with exactly the approved volume |
| `Matching.DealOrderIrrelevant` | app/mt5/matching.py:96-176 | any permutation of the deals gives the same outcome |
| `PositionLifecycle.FoldDeals` | app/mt5/tracker.py:90-142 | the running net volume, contributions, reasons and opening and closing deals equal their definitions over the whole list |
| `PositionLifecycle.ReconstructPositionLifecycle` | app/mt5/tracker.py:67-163 | the fold and its branches compute the lifecycle defined from the opening and closing sides |
| `PositionLifecycle.FaultsExactly` | app/mt5/tracker.py:90-163 | reconstruction raises in exactly three situations; neither the missing nor the zero-volume closing side is reachable |
| `PositionLifecycle.ClosedIff` | app/mt5/tracker.py:144-163 | a position is closed exactly when its closing volume is at least its opening volume, and reports all of its deals' money |
| `BookedMoney.LifecycleMoney` | app/mt5/tracker.py:90-142 | a lifecycle's realized PnL is commission and fee of the position's trades, and profit and swap of those that close exposure |
| `BookedMoney.LifecycleFromFills` | app/mt5/tracker.py:140-163 | entry and exit weigh the prices of all opening and closing fills by volume, entry is timed by the first and exit by the last |
| `BookedMoney.PositionBlockedFor` | app/mt5/tracker.py:90-142 | a lifecycle is blocked for a reason exactly when a deal of the position gives it |
| `BookedMoney.BlockedLifecycleReports` | app/mt5/tracker.py:126-138 | a lifecycle blocks exactly when its deals' assessment does, with the same reasons and tickets |
| `PositionLifecycle.AveragesWithinFills` | app/mt5/tracker.py:140-163 | entry and exit averages lie between the lowest and highest fill price of their side |
| `PositionLifecycle.LifecycleOrderIrrelevant` | app/mt5/tracker.py:67-163 | any permutation of the deals reconstructs the same lifecycle |
| `PositionLifecycle.LifecycleReadsOwnDeals` | app/mt5/tracker.py:88-142 | only the position's own deals matter |
| `Tracker.AdvanceTrackedRecommendation` | app/mt5/tracker.py:229-313 | matching then settling one record equals the advance defined on the set-based match and lifecycle |
| `Tracker.MatchDiscipline` | app/mt5/tracker.py:246-286 | an advance never changes a match or an issued fact; a new match is the sole eligible position of exactly the approved volume, unclaimed, positive and not open at the signal; record validity is kept |
| `Tracker.OutcomeFollowsMoney` | app/mt5/tracker.py:221-313 | on a readable, unblocked history a matched record is OPEN while less is closed than opened, and otherwise WIN, LOSS or BREAKEVEN by the sign of all the money its deals booked |
| `BookedMoney.RecordFromFills` | app/mt5/tracker.py:288-313 | an advanced record carries weighed entry and exit prices, first and last fill times, the money booked and its sign as WIN, LOSS or BREAKEVEN |
| `Tracker.AdvanceNotes` | app/mt5/tracker.py:246-313 | an advance notes when it read and what matching answered; without a readable history nothing else changes, and an unmatched record changes only by expiring |
| `Tracker.MatchedPositionReconstructs` | app/mt5/tracker.py:90-163 | on any history still holding a matched position's fills reconstruction fails no assert and divides by no zero |
| `Tracker.ExitNeverBeforeGenesis` | app/mt5/tracker.py:140-163 | while the genesis fill is on record, entry time is its time and no exit precedes it |
| `Tracker.AdvanceOrderIrrelevant` | app/mt5/tracker.py:229-313 | the order of the broker's deal list never matters to an advance |
| `RuntimeCycle.AdvanceAllExistingTracking` | app/orchestration/runtime_cycle.py:177-212 | the loop with its running claimed set computes the sequential pass, failing at the first raise |
| `RuntimeCycle.HistoryReachesBack` | app/orchestration/runtime_cycle.py:165-174 | the history query starts at the least of the trading day and every loaded signal |
| `RuntimeCycle.RecommendationStore.WriteAdvanced` | app/orchestration/runtime_cycle.py:352-357 | writing back one at a time, each write failing or not, leaves exactly the partial write-back in the store |
| `RuntimeCycle.RecommendationStore.Issue` | app/orchestration/runtime_cycle.py:475-498 | issuing in order stores a fresh record for each persisted creation and reports each outcome |
| `RuntimeCycle.RecommendationStore.RunCycle` | app/orchestration/runtime_cycle.py:253-498 | one cycle updates the store and returns exactly what the cycle function says |
| `CycleReport.CompletesIff` | app/orchestration/runtime_cycle.py:289-357 | a cycle completes exactly when it connects and no record raises, and otherwise leaves the store alone |
| `CycleReport.AdvancedAreRead` | app/orchestration/runtime_cycle.py:322-357 | a completed cycle reports one outcome for exactly the listed, stored and readable records, with the issued facts kept and whether each was persisted |
| `CycleReport.GuardVerdicts` | app/orchestration/runtime_cycle.py:114-162 | on a NETTING or UNKNOWN account each of the five verdicts holds exactly by a listed position on the symbol, an advanced PENDING or OPEN record of it, and the number of ACTIONABLE families, in that order |
| `CycleReport.IssuesIff` | app/orchestration/runtime_cycle.py:449-475 | a cycle issues exactly on a hedging account, or with one ACTIONABLE family and neither such a position nor such a record; then every ACTIONABLE recommendation in order |
| `CycleReport.IssuanceReports` | app/orchestration/runtime_cycle.py:475-498 | an issuance creates exactly when positions could be listed, and persists tracking and provenance exactly when created and written |
| `CycleReport.NewRecordsAreIssued` | app/mt5/tracker.py:166-218 | the store gains exactly the stored issuances, each record starting as its recommendation says, PENDING, with the symbol's open tickets |
| `CycleReport.OldRecordsAdvance` | app/orchestration/runtime_cycle.py:352-357 | a stored record changes only by being read, advanced and written |
| `Ownership.PassKeepsOwnership` | app/orchestration/runtime_cycle.py:177-212 | within a pass a new match avoids every claimed position and every earlier new match, whatever the processing order |
| `Ownership.CycleKeepsExclusive` | app/orchestration/runtime_cycle.py:328-357 | one cycle keeps ownership exclusive for any broker answers and any subset of failing writes, if every matched record loads |
| `Ownership.OwnershipIsExclusive` | app/orchestration/runtime_cycle.py:193-211 | over any run no two stored recommendations ever hold the same position |
| `Ownership.MatchesNeverChange` | app/mt5/tracker.py:246-281 | over any run with any read and write failures a stored match and the issued facts never change unless issuance reuses the trade id |
| `Ownership.CycleExclusiveIff` | app/orchestration/runtime_cycle.py:328-357 | for any listing, mode, unreadable records and failing writes, a cycle with fresh trade ids keeps ownership exclusive exactly unless a written, unmatched record could at its turn match the position of an owner that was not loaded |
| `Ownership.UnreadableOwnerIsRobbed` | app/orchestration/runtime_cycle.py:328-336 | a cycle exists in which an unreadable owner's position is taken, so exclusivity needs matched records to load |
| `HistoryWindow.AdvanceSeesWholeLog` | app/orchestration/runtime_cycle.py:165-174 | advancing on any reordering of the trimmed history equals advancing on the whole log, given a complete positions snapshot |
| `NettingLock.AdvanceGrounded` | app/mt5/tracker.py:229-313 | an advance keeps what each status promises about the log, and a resolved record stays resolved |
| `NettingLock.GuardAdmitsOne` | app/orchestration/runtime_cycle.py:114-162 | the guard lets through only a single recommendation on a symbol without an unresolved record |
| `NettingLock.CycleKeepsLock` | app/orchestration/runtime_cycle.py:462-498 | one cycle on a NETTING or UNKNOWN account keeps the lock, every status promise and every resolution |
| `NettingLock.AtMostOneUnresolvedPerSymbol` | app/orchestration/runtime_cycle.py:107-162 | in every reachable state at most one record per symbol is PENDING or OPEN |
| `NettingLock.ResolutionIsFinal` | app/mt5/tracker.py:229-313 | once resolved a record stays resolved for the rest of the run, and a NOT_FILLED one stays NOT_FILLED |
| `NettingLock.SnapshotCompleteIff` | app/mt5/tracker.py:166-218 | a new record's snapshot is complete exactly when the listed positions name every position of its own symbol already open at the signal |
| `NettingLock.ExpiredStaysUnfilled` | app/mt5/tracker.py:246-286 | a record that an advance answered EXPIRED_CONFIRMED_UNFILLED stays NOT_FILLED over any further advances while the histories that can be read only gain deals after its window and the claimed set only grows |
| `NettingLock.LateReportRevives` | app/mt5/tracker.py:246-286 | for any waiting record: expired on an empty covered history, it is matched once a fill from inside its window is reported |
| `NettingLock.SomeUnfilledRevives` | app/mt5/tracker.py:246-286 | a concrete record leaves NOT_FILLED this way |
| `NettingLock.UnfilledRevivesIff` | app/mt5/tracker.py:246-286 | a record leaves NOT_FILLED exactly when the reading shows a sole eligible position of exactly the approved volume |
| `NettingLock.LockSurvivesIff` | app/orchestration/runtime_cycle.py:328-357 | whatever was read and written, after a stored issue the lock holds on disk exactly when no lock holder of the symbol was unread or left unwritten |
| `NettingLock.LostWriteBreaksLock` | app/orchestration/runtime_cycle.py:352-357 | a cycle exists in which the lost write of an expired record leaves two unresolved records on one symbol |
| `NettingLock.UnreadableHolderBreaksLock` | app/orchestration/runtime_cycle.py:328-336 | a cycle exists in which an unreadable waiting record is passed over and a second unresolved record is stored on its symbol |
| `Progress.AnchoredReconstructs` | app/mt5/tracker.py:90-163 | on a well-formed log the position a record is anchored to reconstructs, with the record's genesis fill as its entry and no exit before it |
| `Progress.AdvanceAnchored` | app/mt5/tracker.py:229-313 | on a well-formed log an advance of an anchored record never raises and keeps its anchor |
| `Progress.NoCycleRaises` | app/orchestration/runtime_cycle.py:177-212 | no cycle of an honest run raises while every log has distinct tickets and names a position in every opening trade |
| `PnlConservation.SpanReadyIffPositionsReady` | app/mt5/tracker.py:90-142 | a span is READY exactly when no position's own deals block |
| `PnlConservation.LifecyclesPartitionSpan` | app/mt5/tracker.py:90-142 | over a READY span the lifecycle PnL of all positions sums to the span's realized PnL |
| `PnlConservation.DaysAndPositionsAgree` | app/mt5/history.py:92-151 | daily figures and lifecycle figures add up to the same money |
| `OpenRisk.AssessOpenRisk` | app/mt5/risk.py:92-124 | the loop over positions computes the order-free fail-closed assessment, or raises on repeated unsafe tickets |
| `OpenRisk.ContributionSign` | app/mt5/risk.py:51-89 | a counted position never lowers the risk, and adds none exactly when protected or with the price at or beyond its stop |
| `OpenRisk.ContributionInMoney` | app/mt5/risk.py:38-89 | a counted amount times the tick size is the distance to the stop, by side, times tick value times volume, and zero where the stop locks in the entry |
| `OpenRisk.UnpricedFor` | app/mt5/risk.py:51-81 | each reason an unpriced position gives, by its own fields |
| `OpenRisk.OpenRiskOf` | app/mt5/risk.py:92-124 | a READY total is the sum of the positions' amounts, and a blocked assessment names exactly the reasons some position gives |
| `OpenRisk.ReadyIffAssessable` | app/mt5/risk.py:92-124 | READY exactly when every position can be priced, and then the total is nonnegative |
| `Sizing.FloorIsGreatest` | app/mt5/sizing.py:40-57 | flooring returns the greatest broker grid point within the capped volume, and none exactly when the minimum does not fit |
| `Sizing.ActionableIsGreatest` | app/mt5/sizing.py:97-114 | an ACTIONABLE sizing is the greatest affordable grid point with its risk; RISK_VERIFICATION_FAILED is unreachable |
| `Sizing.ActionableInMoney` | app/mt5/sizing.py:97-114 | the reported risk times the tick size is the distance to the stop times tick value times volume, within the allocation, on the grid and within the maximum |
| `Sizing.GreaterLosesMore` | app/mt5/sizing.py:40-57 | every greater grid volume exceeds the maximum or loses more than the allocation |
| `Sizing.ActionableInMoneyIff` | app/mt5/sizing.py:65-114 | sizing succeeds exactly with a price, a tradable side, usable facts, a stop on the losing side and an affordable minimum volume, in money |
| `Sizing.ActionableIff` | app/mt5/sizing.py:65-114 | sizing succeeds exactly when the inputs are usable and the minimum volume is affordable; BELOW_BROKER_MINIMUM_VOLUME says exactly that it is not |
| `SetupConstruction.RoundingAwayFromEntry` | app/decision/setup_construction.py:142-151 | a rounded stop is a tick multiple less than one tick further from entry |
| `SetupConstruction.SelectedStopIsStructural` | app/decision/setup_construction.py:154-180 | a stop is selected exactly when there is a structural level, and is it: the first of the latest opposite swings, or the swing the last break went through in the trade's direction |
| `SetupConstruction.ConstructedStop` | app/decision/setup_construction.py:194-241 | a constructed stop is on the protective side, a tick multiple, and less than a tick beyond the structural level |
| `SetupConstruction.ConstructedFromFacts` | app/decision/setup_construction.py:114-241 | a setup enters at its side's price, leaves the broker's minimum distance to the opposite side, prices a unit as distance over tick size times tick value, and lives five minutes |
| `SetupConstruction.RefusedFor` | app/decision/setup_construction.py:194-280 | which refusal comes before a stop is placed: no setup for the family, unusable facts, no structural level |
| `SetupConstruction.StopDecides` | app/decision/setup_construction.py:214-241 | a level is refused exactly when its rounded stop is not beyond the entry or too close to the market, and otherwise becomes the setup's stop |
| `SetupConstruction.ConstructedSetupSizes` | app/decision/setup_construction.py:189-241 | sized with the facts it was built from, a setup can be refused only for tradability, volume constraints or minimum volume, at exactly its own risk per unit |
| `RiskBudget.CapacityLeavesLimits` | app/diversification/supervisor.py:54-78 | added risk fits a capacity exactly when it fits the limit beside the loss taken and the risk open |
| `RiskBudget.RoomsInPercent` | app/risk/engine.py:59-65 | daily room, portfolio room and an open session as percentages of opening and current equity |
| `RiskBudget.CapacitiesInPercent` | app/diversification/supervisor.py:54-78 | added risk fits both capacities exactly when it keeps within the day's and the portfolio's percentage of equity |
| `RiskBudget.EligibleForMost` | app/risk/engine.py:121-135 | an eligible family may risk exactly the lesser of its percentage of opening equity and what the day leaves |
| `RiskBudget.RiskReasons` | app/risk/engine.py:98-119 | which reasons the risk gate gives, by the snapshot's fields |
| `RiskBudget.SessionReasons` | app/statistics/session.py:51-83 | the session is locked, at its loss limit or at its target exactly by the snapshot's fields, in that order |
| `RiskBudget.RiskEligibleIff` | app/risk/engine.py:98-135 | a family is eligible exactly with a positive risk per unit and daily capacity left; every verdict satisfies its own model; the grant respects both budgets |
| `RiskBudget.HandsOutExactly` | app/diversification/supervisor.py:81-142 | scaling hands out exactly the lesser of the total requested and the joint capacity, or nothing when a capacity is exhausted |
| `RiskBudget.Proportional` | app/diversification/supervisor.py:111-121 | a family is granted exactly when eligible with both capacities positive; each grant is positive, within its request, and all stand in the ratio of their requests |
| `RiskBudget.LaterStagesNeverBlockForDailyLoss` | app/statistics/session.py:51-105 | past the risk gate neither DAILY_RISK_CAPACITY_EXHAUSTED nor LOSS_LIMIT_REACHED can occur; a family is cleared exactly when eligible, below the portfolio budget, unlocked and below target |
| `RiskBudget.StagesByConditions` | app/statistics/session.py:51-105 | which of the three stages stops a usable candidate depends on the account alone: on daily room, then portfolio room, then lock and target |
| `RiskBudget.ClearedWithinCapacities` | app/statistics/session.py:86-105 | what the session gate clears sums to at most each remaining capacity |
| `FinalRecommendations.ApprovalWithinAllocation` | app/orchestration/final_recommendation.py:79-143 | an approval lies within its allocation and carries a positive volume on the facts' symbol before expiry |
| `FinalRecommendations.ApprovalsWithinAllocations` | app/orchestration/final_recommendation.py:177-187 | approvals sum to at most the allocations |
| `FinalRecommendations.RecommendedRiskFitsBothLimits` | app/orchestration/final_recommendation.py:146-198 | from any account facts, candidates, setups and lock, everything ACTIONABLE, with the risk open and for the day the loss taken, keeps within the day's and the portfolio's percentage of equity |
| `FinalRecommendations.ConstructionSucceeds` | app/orchestration/final_recommendation.py:79-143 | construction raises for no account and lock when each candidate with positive risk per unit has a LONG or SHORT setup and a trade id |
| `FinalRecommendations.EndsAs` | app/orchestration/final_recommendation.py:79-143 | how each family ends: every refusal and raise exactly by its session verdict, setup, sizing and trade id, in order |
| `FinalRecommendations.RecommendsSetup` | app/orchestration/final_recommendation.py:117-143 | a recommendation carries its setup's symbol, side, prices and times, its trade id and its sizing's volume and risk |
| `FinalRecommendations.FreshSetupIsSized` | app/orchestration/final_recommendation.py:99-115 | a cleared setup built this cycle from the same facts becomes a recommendation exactly when tradable, with usable volume constraints and an affordable minimum |
| `BoundedBuffers.BoundedBuffer.Append` | app/market_data/realtime/buffers.py:41-44 | appending keeps the buffer a suffix of the stream and counts exactly the evictions |
| `BoundedBuffers.BoundedBuffer.Latest` | app/market_data/realtime/buffers.py:52-57 | a positive count gives that many most recent items, oldest first; none or zero gives everything; a negative one drops that many oldest |
| `FlowWindows.LatestCompleteWindow` | app/flow/windows.py:76-103 | the window end is the one multiple of the duration in the last duration up to the observation |
| `FlowWindows.SeenSuffices` | app/flow/taker_flow.py:43-60 | narrowing to events seen by the observation never narrows a completed window |
| `FlowWindows.LatestAtOrBeforeIsLatest` | app/flow/windows.py:124-138 | the result is the first of the latest events no later than the cutoff, and none exactly when none qualifies |
| `FlowWindows.CompleteIffNothingEvicted` | app/flow/windows.py:106-121 | in any arrival order the retained window is complete exactly when no evicted event belongs to it |
| `FlowWindows.UntruncatedIsComplete` | app/flow/quality.py:51-72 | recorded in time order, a window not reported truncated is complete |
| `FlowWindows.ValidateUniqueLabels` | app/flow/windows.py:58-73 | succeeds exactly when equal labels have equal durations |
| `FlowFeatures.ComputeTakerFlowFeatures` | app/flow/taker_flow.py:25-103 | reports exactly one entry per label, each the figures of its window, or raises exactly on a reused label |
| `FlowFeatures.ComputeLiquidationFeatures` | app/flow/liquidation.py:32-91 | the same for liquidations, where an empty window is a valid zero |
| `FlowFeatures.ValidMeansExact` | app/flow/taker_flow.py:76-84 | recorded in time order, every VALID taker or liquidation window carries the figures of the never-evicted stream |
| `FlowFeatures.CountExactIffNothingEvicted` | app/flow/quality.py:51-72 | in any order the reported count is the full stream's exactly when no evicted event belongs to the window |
| `FlowFeatures.LateArrivalHidesEviction` | app/flow/quality.py:51-72 | out of time order a VALID window can have lost an event |
| `FlowFeatures.TakerFiguresAddUp` | app/flow/taker_flow.py:61-74 | sides add up to the total, the delta is the signed sum within the total, ratios exist exactly with volume and lie in the unit interval |
| `FlowFeatures.LiquidationFiguresAddUp` | app/flow/liquidation.py:58-87 | long and short counts and volumes partition the window, and the average lies between zero and the largest |
| `FlowFeatures.LiquidationsBySide` | app/flow/liquidation.py:58-87 | a forced SELL is a long liquidated and a forced BUY a short; volumes, counts, imbalance and largest by the events' fields |
| `FlowFeatures.AverageSpreads` | app/flow/liquidation.py:58-87 | the average times the count is the total |
| `FlowFeatures.TakersBySide` | app/flow/taker_flow.py:61-74 | buy and sell volume, total and delta by the events' fields |
| `FlowFeatures.TakerShares` | app/flow/taker_flow.py:61-74 | the buy share times the total is the buy volume, and the sell share the rest |
| `FlowFeatures.TakerRate` | app/flow/taker_flow.py:61-74 | the rate is the delta per second of the window |
| `FlowFeatures.SelectedAre` | app/flow/windows.py:106-121 | a window selects the events after its start up to and including its end |
| `FlowFeatures.QualityIff` | app/flow/quality.py:51-72 | PARTIAL exactly when something was evicted and nothing retained reaches back to the window's start; with nothing evicted never |
| `FlowFeatures.CumulativeIs` | app/flow/taker_flow.py:50-60 | the cumulative delta is the signed sum of what was seen by the observation, since the earliest of it |
| `FlowEngines.FlowFeatureEngine.Record` | app/flow/engine.py:65-77 | recording extends the stream of the event's own feed, symbol and contract and no other |
| `FlowEngines.KeysIgnoreCase` | app/flow/engine.py:65-71 | two symbols share a feed exactly when they differ in case at most |
| `FlowEngines.FlowFeatureEngine.RecordTrade` | app/flow/engine.py:73-74 | a trade extends only the taker feed of its symbol and contract |
| `FlowEngines.FlowFeatureEngine.RecordLiquidation` | app/flow/engine.py:76-77 | a liquidation extends only the liquidation feed of its symbol and contract |
| `FlowEngines.FlowFeatureEngine.BuildSnapshot` | app/flow/engine.py:92-136 | a snapshot loses nothing, reports on what is retained, and its VALID windows are exact for everything ever recorded in time order |
| `MacroHistory.EconomicEventHistory.Admission` | app/macro/history.py:128-147 | the loop is the first-hit scan, and gives the verdict defined by which observations are retained |
| `MacroHistory.EconomicEventHistory.Append` | app/macro/history.py:96-148 | keeps at most one settled observation per key with nothing after it and no repeated fingerprint, through eviction; a rejected event changes nothing |
| `MacroHistory.AdmittedIffSound` | app/macro/history.py:99-126 | an event is admitted exactly when appending it keeps those invariants |
| `MacroHistory.VerdictByFields` | app/macro/history.py:115-147 | duplicate, conflict and admission by the events' own fields: same revision, same facts whenever received, a value or none |
| `MacroHistory.RepollRejected` | app/macro/history.py:115-147 | a retained observation received again is always rejected |
| `MacroHistory.ScanIsVerdict` | app/macro/history.py:128-147 | on any reordering of a sound history the scan gives the verdict that asks only which observations are retained |
| `MacroHistory.ScanOrderIrrelevant` | app/macro/history.py:128-147 | which error the scan raises does not depend on the retained order |
| `MacroHistory.SortIsStable` | app/macro/history.py:162-182 | revisions come out ascending, a permutation, in append order within a revision |
| `MacroHistory.EconomicEventHistory.Revisions` | app/macro/history.py:162-182 | the query answers with exactly the retained observations of the event, ascending, and in append order within each revision |
| `MacroHistory.LatestIsLatest` | app/macro/history.py:184-195 | the latest revision is the last appended observation of the highest retained revision, and none exactly when nothing is retained |
| `MacroHistory.LatestIsSettled` | app/macro/history.py:187-192 | once the highest retained revision is settled, the latest revision is that observation |
| `MacroHistory.VerdictsDifferIff` | app/macro/history.py:128-147 | the bounded history judges an event otherwise than the whole stream exactly when the settled value or identical observation that decides it was evicted and nothing retained decides the same |
| `MacroHistory.EvictionForgetsSettled` | app/macro/history.py:14-18 | once the settled observation is evicted, an unsettled one of its key is admitted |
| `Rollover.RolloverPersistence.Advance` | app/orchestration/runtime_cycle.py:362-383 | one cycle decides from what it reads and writes exactly when the state differs |
| `Rollover.UsableIffCurrentState` | app/mt5/rollover.py:91-168 | an outcome is usable exactly when a state is returned, and that state is for the current day and policy |
| `Rollover.DecidedByFile` | app/mt5/rollover.py:91-144 | each outcome exactly by how the state file read, its day and its policy |
| `Rollover.EstablishedNow` | app/mt5/rollover.py:112-144 | a state established in a cycle is of that day, equity, instant and policy, bootstrapped exactly when nothing was stored |
| `Rollover.FileAfter` | app/orchestration/runtime_cycle.py:362-383 | the file changes exactly by a successful write of such a state |
| `Rollover.StoredDayNeverMovesBack` | app/mt5/rollover.py:125-144 | over any run with any failures the stored day never moves back and the state of one day is never replaced by another for that day |
| `Rollover.BaselineIsFixed` | app/mt5/rollover.py:125-144 | once a day's baseline is stored every later usable cycle of that day returns it, and none is usable for an earlier day |
| `Rollover.EquityOfTheMomentIff` | app/mt5/rollover.py:112-144 | a usable cycle answers with the equity of the moment exactly when the stored state is not for its day, and stores it exactly when the write succeeds |
| `Rollover.ForwardClockNeverFuture` | app/mt5/rollover.py:125-126 | a run whose trading days never decrease never reports FUTURE_STATE |
| `Judge.CanonicalizeSorts` | app/judge/judge.py:127-132 | canonical evidence is strictly ordered and loses or adds nothing |
| `Judge.CorroboratingVetoRefs` | app/judge/judge.py:182-195 | the nested loop collects exactly the evidence of concretely opposed corroborators, in order |
| `Judge.StructuralBreakConfirmedRefs` | app/judge/judge.py:246-264 | the nested loop collects the break confirmations as defined by result |
| `Judge.AlignedNewsSentimentResultIndices` | app/judge/judge.py:296-307 | the loop yields the ascending ids of symbol-aligned news results |
| `Judge.JudgeAll` | app/judge/judge.py:391-412 | one verdict per eligible family, in order, or a raise exactly when some family's result does not satisfy its model |
| `JudgeMirror.JudgeCommutesWithMirror` | app/judge/judge.py:73-385 | for every family and market, mirroring all observations swaps LONG and SHORT and keeps the outcome kind and evidence |
| `JudgeMirror.NewsMirrors` | app/judge/judge.py:310-356 | resolving mirrored news sentiment mirrors the resolution |
| `JudgeEvidence.TrendDirectionalIff` | app/judge/judge.py:198-235 | trend following has a direction exactly when a primary dimension reads it, none conflicts or reads the opposite, and no corroborator concretely opposes |
| `JudgeReadings.TrendLongIff` | app/judge/judge.py:73-235 | trend following is LONG exactly when the first return or slope entry agrees on UPWARD, neither is MIXED or agrees on DOWNWARD, and no corroborator agrees on its downward value |
| `JudgeReadings.TrendShortIff` | app/judge/judge.py:73-235 | and SHORT exactly by the opposite values |
| `JudgeReadings.TrendInsufficientIff` | app/judge/judge.py:198-235 | and without anything to judge exactly when neither primary is MIXED or agrees on a direction |
| `JudgeReadings.TrendCites` | app/judge/judge.py:198-235 | a directional trend verdict cites exactly the observations of its agreed primary entries |
| `JudgeEvidence.BreakoutDirectionalIff` | app/judge/judge.py:267-293 | breakout has a direction exactly when market structure confirms a break, the latest break reads it, and returns do not concretely oppose |
| `JudgeReadings.BreakoutLongIff` | app/judge/judge.py:267-293 | breakout is LONG exactly on a reported break confirmation, an agreed upward break and no agreed DOWNWARD returns, SHORT by the opposite values |
| `JudgeReadings.BreakoutMixedIff` | app/judge/judge.py:267-293 | and MIXED exactly when the latest break is, or agreed returns speak against a confirmed one |
| `JudgeReadings.BreakoutCites` | app/judge/judge.py:246-293 | a directional breakout cites exactly the confirmations and its latest break |
| `JudgeReadings.EventLongIff` | app/judge/judge.py:296-385 | event-driven is LONG exactly when some news aligned by symbol agrees on POSITIVE, none agrees on NEGATIVE and none is MIXED, SHORT by the opposite signs |
| `JudgeReadings.EventInsufficientIff` | app/judge/judge.py:359-385 | and without anything to judge exactly when no aligned news agrees or is MIXED |
| `JudgeReadings.FamilyJudgedBy` | app/judge/judge.py:238-243 | mean reversion never has a direction, and no technical evidence means none for trend following and breakout |
| `JudgeEvidence.ConfirmationsExact` | app/judge/judge.py:246-264 | the collected references are exactly the confirmations in market-structure results |
| `JudgeEvidence.VerdictSoundIff` | app/judge/judge.py:359-407 | every verdict satisfies its result model, except exactly event-driven news whose first result with MIXED agreement holds fewer than two observations of a concrete sign; there the judge raises |
| `JudgeEvidence.PositiveAndZeroRaises` | app/judge/judge.py:321-333 | one positive and one zero provider make the judge raise |
| `EventGate.EvaluateFamily` | app/decision/high_impact_event_gate.py:260-306 | the loop yields the greatest severity of any relevant event and, when blocked, the end of the last blocking window |
| `EventGate.GateVerdictIff` | app/decision/high_impact_event_gate.py:223-306 | blocked exactly when a relevant event blocks, allowed exactly when none blocks or warns |
| `EventGate.VerdictByFields` | app/decision/high_impact_event_gate.py:74-257 | which releases of which importance block and warn, and in which minutes around them |
| `EventGate.SortOrders` | app/decision/high_impact_event_gate.py:271-280 | relevant events are listed by time, then provider id |
| `EventGate.EventOrderIrrelevant` | app/decision/high_impact_event_gate.py:271-301 | the order of the events changes neither verdict nor time of safety |
| `EventGate.MoreEventsNeverLower` | app/decision/high_impact_event_gate.py:282-301 | more events never lower the verdict or bring the time of safety forward |
| `EventGate.NextSafeIsLeast` | app/decision/high_impact_event_gate.py:292-301 | among starts keeping or extending the expiry, the time of safety is the least that clears every blocking event |
| `EventGate.WaitingIsBlockedIff` | app/decision/high_impact_event_gate.py:292-301 | waiting until the time of safety with the same or a later expiry is blocked again exactly when a relevant hard-block event lies ahead whose window the new expiry enters and the old one had not reached |
| `EventGate.NextSafeIsSafe` | app/decision/high_impact_event_gate.py:292-301 | with the expiry kept, nothing blocks from the time of safety on |
| `EventGate.FreshSetupIsBlockedAgain` | app/decision/high_impact_event_gate.py:292-301 | a five-minute setup built at the time of safety of one release is blocked by another twelve minutes after the first |
| `EventGate.RelevanceByContext` | app/decision/high_impact_event_gate.py:155-194 | an important allow-listed event is relevant exactly by currency exposure, by a dollar event on BTC or ETH, or by the caller's symbol list |
| `EventGate.BridgeZeroesExactlyBlocked` | app/decision/high_impact_event_gate.py:363-393 | the bridge keeps order and coverage and zeroes exactly the blocked families |
| `EventGate.EventBlockedGetsNoRisk` | app/decision/high_impact_event_gate.py:363-393 | a family the gate blocks is never granted risk by the stages behind it |
| `Issuance.TradeIdsNeverCollide` | app/application/identity.py:68-71 | distinct cycle ids or families never share a trade id |
| `Issuance.NewCycleIdsAreFresh` | app/application/identity.py:68-78 | a cycle id never used before gives trade ids not in the store |
| `Issuance.IssuableIs` | app/application/advisory_service.py:184-215 | a recommendation is issuable exactly when an outcome under its trade id was created and its tracking written, whatever became of provenance |
| `Pipeline.ReviewIsStages` | app/orchestration/decision_risk_pipeline.py:164-176 | a family's own review is what the three account stages say of it among all routed families |
| `Pipeline.ProposalsAreSizable` | app/decision/setup_construction.py:244-327 | a family that reaches the risk gate with positive risk was judged directional and has a setup on one side of the market |
| `Pipeline.SetupTradesJudgement` | app/decision/setup_construction.py:244-300 | a constructed setup trades the side the judge found on evidence of allowed quality, at that side's price, for five minutes |
| `Pipeline.EventStopsIff` | app/decision/high_impact_event_gate.py:309-361 | a setup is stopped by events exactly when the gate, asked about its validity, answers BLOCKED |
| `Pipeline.EvaluationFitsBothLimits` | app/orchestration/decision_risk_pipeline.py:128-176 | for every evaluation that returns, from market, setups and events to final construction, construction does not raise and everything ACTIONABLE keeps within both percentages of equity |
| `NoTradeWalk.WalkNamesFirstBlock` | app/application/advisory_service.py:91-181 | the walk never raises and names exactly the first stage whose own condition fails: routing, direction, evidence quality, setup, event, daily room, portfolio room, session, sizing; echoes of earlier blocks are never reported |
| `NoTradeWalk.EchoesNeverReported` | app/application/advisory_service.py:91-181 | on any trail the walk reports the verdict of the stage it names, never an echo, and raises exactly when only echoes block up to a final entry |
| `NoTradeWalk.WalkFindsReasonIffBlocked` | app/application/advisory_service.py:91-181 | a family has no reason exactly when it is ACTIONABLE, or the account facts were not READY and nothing before the risk gate stopped it |
| `NoTradeWalk.ActionableIsIssuable` | app/orchestration/final_recommendation.py:99-143 | whatever comes out ACTIONABLE carries its family's trade id, the evaluation's symbol, a positive volume and a validity still ahead |
| `NoTradeWalk.RecommendationFollowsEvidence` | app/orchestration/decision_risk_pipeline.py:128-176 | whatever comes out ACTIONABLE trades the side the judge found, on allowed evidence, at that side's price, unblocked by events and with room on the account |
| `Issuance.MapRecommendations` | app/application/advisory_service.py:260-311 | the pass fills both lists with the order-preserving selection of what each family surfaces as, skipping families without reason and without final entry, or fails as the first family that raises |
| `Issuance.ShownAreWalked` | app/application/advisory_service.py:260-311 | the families over both lists are exactly the families walked that are not skipped, with multiplicity |
| `Issuance.SkippedIff` | app/application/advisory_service.py:279-292 | a family is skipped exactly when no evaluation took place, or the account facts were not READY and nothing before the risk gate stopped it |
| `Issuance.HandsOver` | app/orchestration/runtime_cycle.py:438-447 | final construction takes place exactly where an evaluation did and the symbol's facts were given, and hands over exactly the ACTIONABLE recommendations |
| `Issuance.HandedOverIsIssuable` | app/orchestration/runtime_cycle.py:439-498 | what an evaluation hands to issuance has fresh trade ids, the target symbol, positive volume and validity ahead, as the lock's environment asks |
| `Issuance.ActionableSurfacesIffStored` | app/application/advisory_service.py:184-240 | an ACTIONABLE family surfaces as a recommendation exactly when its record is in the store, otherwise with the exact cause; the raise for a missing cause is unreachable |
| `Issuance.CycleShowsEveryFamilyOnce` | app/application/advisory_service.py:260-311 | for every cycle concluding an evaluation under a fresh cycle id, or going without one, nothing raises and each family that is not skipped is listed exactly once, as a recommendation if and only if its record was stored |

## Left out

- External interfaces: the broker, exchange and language-model clients, the web and chat front ends and process start-up only supply the parameters here.
- Persistence formats, file names and atomic renames: a store is a map whose reads and writes may fail.
- Rounding of decimals and floats: all arithmetic is exact, so the last-digit behaviour of averages, ratios and scaling factors is not modelled.
- Real time-zone tables: a zone is any list of offset changes of at most a day, at least a day apart, and a key is the number of the local date. In `Rollover` a trading-day key is an ordered number standing for its ISO date.
- Account equity is taken as positive where a rollover state is built; a state with non-positive equity would be rejected by its model.
- Market, take-profit and currency labels of records: they are carried along and never decide anything.
- Strategy routing and the technical, flow and external analysts: their results are inputs, with the constraints their own models enforce (`Judge.SoundMarket`); whether an observation's quality is allowed is an input too.
- An evaluation in which the judge or setup construction raises shows nothing; the results about evaluations are about those that return (`Pipeline.Returns`).
- The cycle's summary status, diagnostics and narrative text: flags computed from facts that are modelled.
- `FlowFeatures.ComputeTakerFlowFeatures`: the cumulative delta covers retained trades only, as in the code; no window status speaks for it, and no theorem equates it with the full stream's.
- `FlowEngines.FlowFeatureEngine.BuildSnapshot`: order book, open interest, funding, price context, cross features, the staleness verdicts that go with them and the source label of a report are not modelled, and the two feeds' buffers lie in one map keyed by feed, symbol and contract.
- `FlowEngines.FlowFeatureEngine.Record`: symbols are upper-cased as ASCII.
- `MacroHistory.EconomicEventHistory.Append`: the provider facts beside the released value are one text field; listings ordered by event time are not modelled.
- `EventGate.EvaluateFamily`: provider event ids are numbers; relevant events with equal time and id may be listed in either order.
- `Issuance.ActionableSurfacesIffStored`: needs distinct trade ids that are not yet stored; `Issuance.CycleShowsEveryFamilyOnce` derives both from the cycle id.
- The pattern a cycle id must match is not needed by any result and is not modelled.
- News, sentiment and on-chain histories: the same bounded log without the settled-value rule.
- The exclusive-create cycle receipt and the polling loops: they rest on the operating system and the event loop.
