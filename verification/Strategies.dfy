/** The strategy families every stage of an evaluation speaks of. */
module Strategies {
  datatype Family = TrendFollowing | MeanReversion | Breakout | EventDriven

  /** In declaration order, the order of every pass over the families. */
  const FAMILIES: seq<Family> := [TrendFollowing, MeanReversion, Breakout, EventDriven]
}
