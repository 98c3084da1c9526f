/** The records the pages exchange (src/types/index.ts). Counts are
    integers; prices, sizes and percentages are exact reals. */
module Types {
  import opened Wrappers

  /** A trade direction, the TypeScript union `'long' | 'short'`. */
  datatype Direction = Long | Short

  /** A tracked personality. `yapsL24h` is the optional `yaps_l24h` count
      supplied by the external data source. */
  datatype Yapper = Yapper(
    id: string,
    name: string,
    username: string,
    avatar: string,
    rank: int,
    totalYaps: int,
    earnedYaps: int,
    referralYaps: int,
    smartFollowers: int,
    followers: int,
    smartPercentage: real,
    xIndex: real,
    xIndexChange24h: real,
    yapsL24h: Option<int>)

  /** One day of a yapper's activity history. */
  datatype YapPoint = YapPoint(
    date: string,
    timestamp: int,
    dailyYaps: int,
    changeFromPrevious: int,
    changePercentage: real)

  /** An open position as the wallet page displays it. */
  datatype Position = Position(
    id: string,
    yapperId: string,
    direction: Direction,
    size: real,
    entryPrice: real,
    leverage: real,
    liquidationPrice: real,
    currentPnL: real,
    pnlPercentage: real)

  datatype TradeStatus = Open | Closed

  /** A trade-history entry; optional fields are the optional `?:` fields of the TypeScript type.
      Timestamps are milliseconds since the epoch. */
  datatype Trade = Trade(
    id: string,
    yapperId: string,
    yapperName: Option<string>,
    direction: Direction,
    size: real,
    entryPrice: real,
    exitPrice: Option<real>,
    timestamp: int,
    closedAt: Option<int>,
    pnl: Option<real>,
    pnlPercentage: Option<real>,
    status: TradeStatus)

  /** An opaque object handed out by the wallet library (a provider or a
      signer); the model only tracks which one is held. */
  datatype Handle = Handle(token: nat)
}
