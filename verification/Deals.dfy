/** Normalized broker deals and their fail-closed classification. */
module Deals {
  import opened Common
  import opened FailClosed

  datatype DealType = Buy | Sell | NonTrading | UnknownType

  datatype DealEntry = In | Out | InOut | OutBy | UnknownEntry

  /** `time` counts microseconds since the Unix epoch. */
  datatype Deal = Deal(
    ticket: nat,
    positionId: nat,
    time: int,
    symbol: Option<string>,
    dealType: DealType,
    entry: DealEntry,
    volume: Amount,
    price: Amount,
    profit: real,
    commission: real,
    swap: real,
    fee: real)

  datatype BlockReason = MalformedTimestamp | UnmappableDealType | UnmappableDealEntry | UnsupportedOutBy

  /** Why tracking one recommendation raises instead of returning. */
  datatype TrackingFault =
    | InvalidPositionId
    | RepeatedUnsafeTickets
    | NoOpeningDeal
    | ZeroEntryVolume
    | NoClosingDeal
    | ZeroExitVolume
    | ExitBeforeEntry

  datatype HistoryStatus = HistoryOk | HistoryUnavailable | HistoryMalformed

  const REASON_ORDER: seq<BlockReason> :=
    [MalformedTimestamp, UnmappableDealType, UnmappableDealEntry, UnsupportedOutBy]

  const EPOCH := 0

  function TicketOf(d: Deal): nat { d.ticket }

  function VolumeOf(d: Deal): real { d.volume }

  function MoneyOf(d: Deal): real { d.price * d.volume }

  /** Commission and fee count on every leg; profit and swap only on a leg that
      closes exposure. A close-by or unrecognized entry cannot be priced. */
  function ClassifyTradingDeal(d: Deal): Verdict<BlockReason> {
    match d.entry
    case In => Counted(d.commission + d.fee)
    case Out => Counted(d.commission + d.fee + d.profit + d.swap)
    case InOut => Counted(d.commission + d.fee + d.profit + d.swap)
    case OutBy => Unsafe(UnsupportedOutBy)
    case UnknownEntry => Unsafe(UnmappableDealEntry)
  }

  function DailyVerdict(start: int, end: int): Deal -> Verdict<BlockReason> {
    (d: Deal) =>
      if d.time <= EPOCH then Unsafe(MalformedTimestamp)
      else if !(start <= d.time < end) then Skipped
      else if d.dealType.NonTrading? then Counted(0.0)
      else if d.dealType.UnknownType? then Unsafe(UnmappableDealType)
      else ClassifyTradingDeal(d)
  }

  function LifecycleVerdict(d: Deal): Verdict<BlockReason> {
    if d.time <= EPOCH then Unsafe(MalformedTimestamp)
    else if d.dealType.NonTrading? then Skipped
    else if d.dealType.UnknownType? then Unsafe(UnmappableDealType)
    else ClassifyTradingDeal(d)
  }

  function AtPosition(p: nat): Deal -> bool {
    (d: Deal) => d.positionId == p
  }

  function OfPosition(deals: seq<Deal>, p: nat): seq<Deal> {
    Filter(deals, AtPosition(p))
  }

  lemma OwnDeals(deals: seq<Deal>, p: nat)
    ensures forall d :: d in OfPosition(deals, p) <==> d in deals && d.positionId == p
  {
    FilterMembers(deals, AtPosition(p));
  }

  function EarliestTime(deals: seq<Deal>): (t: int)
    requires deals != []
    ensures exists d :: d in deals && d.time == t
    ensures forall d :: d in deals ==> t <= d.time
  {
    var last := deals[|deals| - 1];
    if |deals| == 1 then last.time
    else
      var rest := EarliestTime(deals[..|deals| - 1]);
      if rest <= last.time then rest else last.time
  }

  function LatestTime(deals: seq<Deal>): (t: int)
    requires deals != []
    ensures exists d :: d in deals && d.time == t
    ensures forall d :: d in deals ==> d.time <= t
  {
    var last := deals[|deals| - 1];
    if |deals| == 1 then last.time
    else
      var rest := LatestTime(deals[..|deals| - 1]);
      if rest >= last.time then rest else last.time
  }
}
