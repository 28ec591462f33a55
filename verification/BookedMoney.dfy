/** What the assessments and lifecycles say in terms of the deals' own fields: which
    commissions, fees, profits and swaps a figure adds up, which prices an average
    weighs, and which deals block. */
module BookedMoney {
  import opened Common
  import opened FailClosed
  import opened Deals
  import opened History
  import opened Matching
  import opened PositionLifecycle
  import opened Tracker

  predicate IsTrade(d: Deal) { d.dealType.Buy? || d.dealType.Sell? }

  predicate Closes(d: Deal) { IsTrade(d) && (d.entry.Out? || d.entry.InOut?) }

  predicate Opens(d: Deal) { IsTrade(d) && d.entry.In? }

  /** What every leg of a trade costs. */
  function Charges(d: Deal): real { d.commission + d.fee }

  /** What a leg that closes exposure gains beside. */
  function Gains(d: Deal): real { d.profit + d.swap }

  function Within(start: int, end: int, kind: Deal -> bool): Deal -> bool {
    (d: Deal) => kind(d) && start <= d.time < end
  }

  function OfOwn(p: nat, kind: Deal -> bool): Deal -> bool {
    (d: Deal) => kind(d) && d.positionId == p
  }

  // ---- money --------------------------------------------------------------------------

  function Gated(keep: Deal -> bool, weight: Deal -> real): Deal -> real {
    (d: Deal) => if keep(d) then weight(d) else 0.0
  }

  /** A total whose every amount is the charges of what is traded and the gains of what
      closes is the sum of both. */
  lemma ChargesAndGains(deals: seq<Deal>, amount: Deal -> real, traded: Deal -> bool, closing: Deal -> bool)
    requires forall d :: d in deals ==>
               amount(d) == (if traded(d) then Charges(d) else 0.0) + (if closing(d) then Gains(d) else 0.0)
    ensures Sum(deals, amount) == Sum(Filter(deals, traded), Charges) + Sum(Filter(deals, closing), Gains)
  {
    SumFilter(deals, traded, Charges, Gated(traded, Charges));
    SumFilter(deals, closing, Gains, Gated(closing, Gains));
    SumAdd(deals, Gated(traded, Charges), Gated(closing, Gains), amount);
  }

  /** A READY day is worth the commission and fee of every BUY and SELL deal in it, and
      the profit and swap of those that close exposure. */
  lemma DailyMoney(deals: seq<Deal>, start: int, end: int)
    requires DailyAssessment(deals, start, end).Ready?
    ensures DailyAssessment(deals, start, end).total ==
            Sum(Filter(deals, Within(start, end, IsTrade)), Charges) +
            Sum(Filter(deals, Within(start, end, Closes)), Gains)
  {
    ReadyIffAllSafe(deals, DailyVerdict(start, end), TicketOf, REASON_ORDER);
    var amount, traded, closing := AmountOf(DailyVerdict(start, end)), Within(start, end, IsTrade), Within(start, end, Closes);
    forall d | d in deals
      ensures amount(d) == (if traded(d) then Charges(d) else 0.0) + (if closing(d) then Gains(d) else 0.0)
    {
      DailyAmount(d, start, end);
    }
    ChargesAndGains(deals, amount, traded, closing);
  }

  lemma DailyAmount(d: Deal, start: int, end: int)
    requires !DailyVerdict(start, end)(d).Unsafe?
    ensures AmountOf(DailyVerdict(start, end))(d) ==
            (if Within(start, end, IsTrade)(d) then Charges(d) else 0.0) +
            (if Within(start, end, Closes)(d) then Gains(d) else 0.0)
  {
    KindOf(d);
    assert Within(start, end, IsTrade)(d) <==> IsTrade(d) && start <= d.time < end;
    assert Within(start, end, Closes)(d) <==> Closes(d) && start <= d.time < end;
  }

  lemma KindOf(d: Deal)
    ensures IsTrade(d) || d.dealType.NonTrading? || d.dealType.UnknownType?
    ensures d.entry.In? || d.entry.Out? || d.entry.InOut? || d.entry.OutBy? || d.entry.UnknownEntry?
  {
  }

  lemma PositionAmount(d: Deal, p: nat)
    requires !LifecycleVerdict(d).Unsafe? && d.positionId == p
    ensures AmountOf(LifecycleVerdict)(d) ==
            (if OfOwn(p, IsTrade)(d) then Charges(d) else 0.0) + (if OfOwn(p, Closes)(d) then Gains(d) else 0.0)
  {
    KindOf(d);
    assert OfOwn(p, IsTrade)(d) <==> IsTrade(d);
    assert OfOwn(p, Closes)(d) <==> Closes(d);
  }

  /** And so is a reconstructed lifecycle, over the position's own deals. */
  lemma LifecycleMoney(p: nat, deals: seq<Deal>)
    requires Lifecycle(p, deals).Success? && !Lifecycle(p, deals).value.LifecycleBlocked?
    ensures Lifecycle(p, deals).value.realizedPnl == PnlBooked(deals, p)
  {
    ClosedIff(p, deals);
    PositionMoney(p, deals);
  }

  function PnlBooked(deals: seq<Deal>, p: nat): real {
    Sum(Filter(deals, OfOwn(p, IsTrade)), Charges) + Sum(Filter(deals, OfOwn(p, Closes)), Gains)
  }

  lemma PositionMoney(p: nat, deals: seq<Deal>)
    requires OwnAssessment(deals, p).Ready?
    ensures PositionPnl(deals, p) == PnlBooked(deals, p)
  {
    var own := OfPosition(deals, p);
    ReadyIffAllSafe(own, LifecycleVerdict, TicketOf, REASON_ORDER);
    OwnDeals(deals, p);
    var amount, traded, closing := AmountOf(LifecycleVerdict), OfOwn(p, IsTrade), OfOwn(p, Closes);
    forall d | d in own
      ensures amount(d) == (if traded(d) then Charges(d) else 0.0) + (if closing(d) then Gains(d) else 0.0)
    {
      PositionAmount(d, p);
    }
    ChargesAndGains(own, amount, traded, closing);
    FilterFilter(deals, AtPosition(p), OfOwn(p, IsTrade));
    FilterFilter(deals, AtPosition(p), OfOwn(p, Closes));
  }

  // ---- what blocks ------------------------------------------------------------------------

  /** Why a deal that must be priced cannot be: its own fields decide, in this order. */
  predicate BlocksFor(d: Deal, counted: bool, reason: BlockReason) {
    match reason
    case MalformedTimestamp => d.time <= 0
    case UnmappableDealType => d.time > 0 && counted && d.dealType.UnknownType?
    case UnmappableDealEntry => d.time > 0 && counted && IsTrade(d) && d.entry.UnknownEntry?
    case UnsupportedOutBy => d.time > 0 && counted && IsTrade(d) && d.entry.OutBy?
  }

  predicate BlocksDay(d: Deal, start: int, end: int, reason: BlockReason) {
    BlocksFor(d, start <= d.time < end, reason)
  }

  predicate BlocksPosition(d: Deal, p: nat, reason: BlockReason) {
    d.positionId == p && BlocksFor(d, true, reason)
  }

  lemma CanonicalMembers(reasons: set<BlockReason>, reason: BlockReason)
    ensures reason in Canonical(REASON_ORDER, reasons) <==> reason in reasons
  {
    assert REASON_ORDER[0].MalformedTimestamp? && REASON_ORDER[1].UnmappableDealType?
           && REASON_ORDER[2].UnmappableDealEntry? && REASON_ORDER[3].UnsupportedOutBy?;
    FilterMembers(REASON_ORDER, r => r in reasons);
  }

  lemma ReasonsOf(deals: seq<Deal>, classify: Deal -> Verdict<BlockReason>, reason: BlockReason)
    ensures var a := Assess(deals, classify, TicketOf, REASON_ORDER);
            (a.Blocked? && reason in a.reasons) <==> exists d :: d in deals && classify(d) == Unsafe(reason)
  {
    ReadyIffAllSafe(deals, classify, TicketOf, REASON_ORDER);
    CanonicalMembers(ReasonSet(deals, classify), reason);
    if d :| d in deals && classify(d) == Unsafe(reason) {
      assert classify(d).reason in ReasonSet(deals, classify);
    }
    if reason in ReasonSet(deals, classify) {
      var d :| d in deals && classify(d).Unsafe? && classify(d).reason == reason;
      assert classify(d) == Unsafe(reason);
    }
  }

  lemma DailyBlocks(d: Deal, start: int, end: int, reason: BlockReason)
    ensures DailyVerdict(start, end)(d) == Unsafe(reason) <==> BlocksDay(d, start, end, reason)
  {
  }

  lemma PositionBlocks(d: Deal, reason: BlockReason)
    ensures LifecycleVerdict(d) == Unsafe(reason) <==> BlocksFor(d, true, reason)
  {
  }

  /** A day is blocked for a reason exactly when some deal gives it. */
  lemma DayBlockedFor(deals: seq<Deal>, start: int, end: int, reason: BlockReason)
    ensures var a := DailyAssessment(deals, start, end);
            (a.Blocked? && reason in a.reasons) <==> exists d :: d in deals && BlocksDay(d, start, end, reason)
  {
    forall d | d in deals
      ensures DailyVerdict(start, end)(d) == Unsafe(reason) <==> BlocksDay(d, start, end, reason)
    {
      DailyBlocks(d, start, end, reason);
    }
    ReasonsOf(deals, DailyVerdict(start, end), reason);
  }

  ghost predicate BlocksSomehow(d: Deal, start: int, end: int) {
    exists reason :: BlocksDay(d, start, end, reason)
  }

  /** It lists the tickets of exactly the deals that give a reason. */
  lemma DayTickets(deals: seq<Deal>, start: int, end: int, ticket: nat)
    requires DailyAssessment(deals, start, end).Blocked?
    ensures ticket in DailyAssessment(deals, start, end).tickets <==>
            exists d :: d in deals && d.ticket == ticket && BlocksSomehow(d, start, end)
  {
    var classify := DailyVerdict(start, end);
    forall d | d in deals
      ensures classify(d).Unsafe? <==> BlocksSomehow(d, start, end)
    {
      if classify(d).Unsafe? {
        DailyBlocks(d, start, end, classify(d).reason);
      }
      if reason :| BlocksDay(d, start, end, reason) {
        DailyBlocks(d, start, end, reason);
      }
    }
    TicketsOf(deals, classify, ticket);
  }

  lemma TicketsOf(deals: seq<Deal>, classify: Deal -> Verdict<BlockReason>, ticket: nat)
    ensures ticket in UnsafeTickets(deals, classify, TicketOf) <==>
            exists d :: d in deals && d.ticket == ticket && classify(d).Unsafe?
  {
    var unsafe := Filter(deals, IsUnsafe(classify));
    FilterMembers(deals, IsUnsafe(classify));
    if ticket in UnsafeTickets(deals, classify, TicketOf) {
      var i :| 0 <= i < |unsafe| && unsafe[i].ticket == ticket;
      assert unsafe[i] in unsafe;
    }
    if d :| d in deals && d.ticket == ticket && classify(d).Unsafe? {
      assert d in unsafe;
      var i :| 0 <= i < |unsafe| && unsafe[i] == d;
      assert UnsafeTickets(deals, classify, TicketOf)[i] == ticket;
    }
  }

  /** A lifecycle is blocked for a reason exactly when a deal of the position gives it,
      whenever it was. */
  lemma PositionBlockedFor(deals: seq<Deal>, p: nat, reason: BlockReason)
    ensures var a := OwnAssessment(deals, p);
            (a.Blocked? && reason in a.reasons) <==> exists d :: d in deals && BlocksPosition(d, p, reason)
  {
    var own := OfPosition(deals, p);
    OwnDeals(deals, p);
    ReasonsOf(own, LifecycleVerdict, reason);
    if d :| d in deals && BlocksPosition(d, p, reason) {
      PositionBlocks(d, reason);
      assert d in own;
    }
    if d :| d in own && LifecycleVerdict(d) == Unsafe(reason) {
      PositionBlocks(d, reason);
      assert d in deals && BlocksPosition(d, p, reason);
    }
  }

  /** What a blocked lifecycle reports. */
  lemma BlockedLifecycleReports(deals: seq<Deal>, p: nat)
    requires p > 0 && Lifecycle(p, deals).Success?
    ensures var r := Lifecycle(p, deals).value;
            && (r.LifecycleBlocked? <==> OwnAssessment(deals, p).Blocked?)
            && (r.LifecycleBlocked? ==>
                  r.reasons == OwnAssessment(deals, p).reasons && r.tickets == OwnAssessment(deals, p).tickets)
  {
  }

  // ---- entries and exits ---------------------------------------------------------------------

  /** `average` weighs the prices of the fills by their volumes. */
  predicate Weighs(average: real, fills: seq<Deal>) {
    average * Sum(fills, VolumeOf) == Sum(fills, MoneyOf)
  }

  lemma SidesAreFills(p: nat, deals: seq<Deal>)
    requires OwnAssessment(deals, p).Ready?
    ensures Openings(deals, p) == Filter(deals, OfOwn(p, Opens))
    ensures Closings(deals, p) == Filter(deals, OfOwn(p, Closes))
  {
    var own := OfPosition(deals, p);
    ReadyIffAllSafe(own, LifecycleVerdict, TicketOf, REASON_ORDER);
    OwnDeals(deals, p);
    forall d | d in own
      ensures IsOpening(d) <==> OfOwn(p, Opens)(d)
      ensures IsClosing(d) <==> OfOwn(p, Closes)(d)
    {
      KindOf(d);
      assert OfOwn(p, Opens)(d) <==> Opens(d);
      assert OfOwn(p, Closes)(d) <==> Closes(d);
    }
    FilterSame(own, IsOpening, OfOwn(p, Opens));
    FilterSame(own, IsClosing, OfOwn(p, Closes));
    FilterFilter(deals, AtPosition(p), OfOwn(p, Opens));
    FilterFilter(deals, AtPosition(p), OfOwn(p, Closes));
  }

  lemma {:induction false} FilterSame(s: seq<Deal>, a: Deal -> bool, b: Deal -> bool)
    requires forall d :: d in s ==> (a(d) <==> b(d))
    ensures Filter(s, a) == Filter(s, b)
  {
    if s != [] {
      var init, last := s[..|s| - 1], s[|s| - 1];
      assert last in s && forall d :: d in init ==> d in s;
      FilterSame(init, a, b);
    }
  }

  ghost predicate IsFirst(time: int, fills: seq<Deal>) {
    (exists d :: d in fills && d.time == time) && forall d :: d in fills ==> time <= d.time
  }

  ghost predicate IsLast(time: int, fills: seq<Deal>) {
    (exists d :: d in fills && d.time == time) && forall d :: d in fills ==> d.time <= time
  }

  lemma AverageWeighs(fills: seq<Deal>)
    requires SideOf(fills).Volume() > 0.0
    ensures Weighs(SideOf(fills).Average(), fills)
  {
    QuotientTimes(Sum(fills, MoneyOf), Sum(fills, VolumeOf));
  }

  /** A reconstructed lifecycle in terms of the position's fills: entry and exit weigh
      the prices of all fills of their kind, entry is timed by the first and exit by the
      last, and it is closed exactly when as much volume was closed as opened. */
  lemma LifecycleFromFills(p: nat, deals: seq<Deal>)
    requires Lifecycle(p, deals).Success? && !Lifecycle(p, deals).value.LifecycleBlocked?
    ensures var r := Lifecycle(p, deals).value;
            var entries, exits := Filter(deals, OfOwn(p, Opens)), Filter(deals, OfOwn(p, Closes));
            && Sum(entries, VolumeOf) > 0.0
            && Weighs(r.actualEntry, entries) && IsFirst(r.actualEntryTime, entries)
            && (r.ClosedLifecycle? <==> Sum(exits, VolumeOf) >= Sum(entries, VolumeOf))
            && (r.ClosedLifecycle? ==> Weighs(r.exitPrice, exits) && IsLast(r.exitTime, exits))
  {
    ReadyConclusion(OwnAssessment(deals, p), SideOf(Openings(deals, p)), SideOf(Closings(deals, p)),
                    PositionPnl(deals, p));
    ClosedIff(p, deals);
    SidesAreFills(p, deals);
    VolumesNonnegative(Openings(deals, p));
    VolumesNonnegative(Closings(deals, p));
    AverageWeighs(Openings(deals, p));
    if Lifecycle(p, deals).value.ClosedLifecycle? {
      AverageWeighs(Closings(deals, p));
    }
  }

  // ---- the record -------------------------------------------------------------------------------

  /** What the record of an advanced, matched recommendation says, once its position
      reconstructs: everything the deals booked, weighed and timed. */
  lemma RecordFromFills(t: Tracked, reading: Reading, claimed: set<nat>)
    requires Advance(t, reading, claimed).Success? && Advance(t, reading, claimed).value.matched.Some?
    requires reading.status.HistoryOk?
    requires OwnAssessment(reading.deals, Advance(t, reading, claimed).value.matched.value).Ready?
    ensures var u := Advance(t, reading, claimed).value;
            var p := u.matched.value;
            var entries, exits := Filter(reading.deals, OfOwn(p, Opens)), Filter(reading.deals, OfOwn(p, Closes));
            && u.record.actualEntry.Some? && Weighs(u.record.actualEntry.value, entries)
            && u.record.actualEntryTime.Some? && IsFirst(u.record.actualEntryTime.value, entries)
            && (u.record.status.Open? <==> Sum(exits, VolumeOf) < Sum(entries, VolumeOf))
            && (!u.record.status.Open? ==>
                  && u.record.exitPrice.Some? && Weighs(u.record.exitPrice.value, exits)
                  && u.record.exitTime.Some? && IsLast(u.record.exitTime.value, exits)
                  && u.record.pnl == Some(PnlBooked(reading.deals, p))
                  && (u.record.status.Win? <==> PnlBooked(reading.deals, p) > 0.0)
                  && (u.record.status.Loss? <==> PnlBooked(reading.deals, p) < 0.0)
                  && (u.record.status.Breakeven? <==> PnlBooked(reading.deals, p) == 0.0))
            && u.lastReadAt == Some(reading.asOf)
  {
    var u := Advance(t, reading, claimed).value;
    var p := u.matched.value;
    var before := if t.matched.Some? then t else WithMatch(t, p, reading.asOf);
    NewMatchIsItsOwn(t, reading, claimed);
    LifecycleFromFills(p, reading.deals);
    LifecycleMoney(p, reading.deals);
    SettledFields(before, Lifecycle(p, reading.deals).value, reading.asOf);
    OutcomeFollowsMoney(t, reading, claimed);
  }

  lemma SettledFields(t: Tracked, lifecycle: LifecycleAssessment, asOf: int)
    requires Settled(t, lifecycle, asOf).Success? && !lifecycle.LifecycleBlocked?
    ensures var u := Settled(t, lifecycle, asOf).value;
            && u.record.actualEntry == Some(lifecycle.actualEntry)
            && u.record.actualEntryTime == Some(lifecycle.actualEntryTime)
            && (lifecycle.ClosedLifecycle? ==>
                  && u.record.exitPrice == Some(lifecycle.exitPrice) && u.record.exitTime == Some(lifecycle.exitTime)
                  && u.record.pnl == Some(lifecycle.realizedPnl))
            && u.lastReadAt == Some(asOf)
  {
  }
}
