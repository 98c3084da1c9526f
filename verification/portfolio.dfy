/** The wallet page's aggregates (src/pages/MyWalletPage.tsx): portfolio
    totals, the average PnL percentage, the available balance, the profit
    flags and the holding period of a closed trade. */
module Portfolio {
  import opened Wrappers
  import opened Seqs
  import opened Types

  /** The balance the page displays, a figure fixed in the page itself. */
  const Balance: real := 1542660.06

  const MillisPerHour: int := 1000 * 60 * 60

  function PnLOf(p: Position): real { p.currentPnL }
  function PnLPercentageOf(p: Position): real { p.pnlPercentage }
  function SizeOf(p: Position): real { p.size }

  /** `totalPnL`: the `reduce` over `currentPnL` is the sum of the PnLs. */
  function TotalPnL(ps: seq<Position>): (r: real)
    ensures r == Sum(ps, PnLOf)
  {
    FoldLeftIsSum(ps, 0.0, PnLOf);
    FoldLeft(ps, 0.0, PnLOf)
  }

  /** `totalValue`: the sum of the position sizes. */
  function TotalValue(ps: seq<Position>): (r: real)
    ensures r == Sum(ps, SizeOf)
  {
    FoldLeftIsSum(ps, 0.0, SizeOf);
    FoldLeft(ps, 0.0, SizeOf)
  }

  /** `totalPnLPercentage`: the mean of the PnL percentages, 0 when there is
      no position. */
  function TotalPnLPercentage(ps: seq<Position>): (r: real)
    ensures |ps| == 0 ==> r == 0.0
    ensures |ps| > 0 ==> r * |ps| as real == Sum(ps, PnLPercentageOf)
  {
    FoldLeftIsSum(ps, 0.0, PnLPercentageOf);
    if |ps| > 0 then FoldLeft(ps, 0.0, PnLPercentageOf) / |ps| as real else 0.0
  }

  /** The mean lies between the smallest and the largest percentage. */
  lemma MeanWithinBounds(ps: seq<Position>, lo: real, hi: real)
    requires |ps| > 0
    requires forall i :: 0 <= i < |ps| ==> lo <= ps[i].pnlPercentage <= hi
    ensures lo <= TotalPnLPercentage(ps) <= hi
  {
    SumBounds(ps, PnLPercentageOf, lo, hi);
    var n := |ps| as real;
    var m := TotalPnLPercentage(ps);
    assert m * n >= lo * n;
    assert m * n <= hi * n;
  }

  /** The available balance: the balance less the total position value. */
  function AvailableBalance(ps: seq<Position>): (r: real)
    ensures r + Sum(ps, SizeOf) == Balance
  {
    Balance - TotalValue(ps)
  }

  /** Positions of non-negative size never raise the available balance. */
  lemma AvailableAtMostBalance(ps: seq<Position>)
    requires forall i :: 0 <= i < |ps| ==> ps[i].size >= 0.0
    ensures AvailableBalance(ps) <= Balance
  {
    SumNonNegative(ps, SizeOf);
  }

  /** A position row is green when its PnL is zero or more. */
  predicate PositionIsProfit(p: Position) {
    p.currentPnL >= 0.0
  }

  /** A trade row is green when `trade.pnl && trade.pnl >= 0` is truthy: the
      PnL is present and not zero (zero is falsy), and non-negative. */
  function TradeIsProfit(t: Trade): (r: bool)
    ensures r <==> t.pnl.Some? && t.pnl.value > 0.0
  {
    t.pnl.Some? && t.pnl.value != 0.0 && t.pnl.value >= 0.0
  }

  /** The two flags disagree at zero: a break-even position is shown as a
      profit, a break-even trade is not. */
  lemma ProfitFlagsDisagreeAtZero(p: Position, t: Trade)
    requires p.currentPnL == 0.0 && t.pnl == Some(0.0)
    ensures PositionIsProfit(p) && !TradeIsProfit(t)
  {
  }

  /** `closedAt` as a condition: present and not the falsy 0. */
  predicate IsClosedAtSet(t: Trade) {
    t.closedAt.Some? && t.closedAt.value != 0
  }

  /** The holding period in whole hours, rounded down; 0 without a close
      time. */
  function HoldingHours(t: Trade): (h: int)
    ensures IsClosedAtSet(t) ==>
              h * MillisPerHour <= t.closedAt.value - t.timestamp < (h + 1) * MillisPerHour
    ensures !IsClosedAtSet(t) ==> h == 0
  {
    if IsClosedAtSet(t) then (t.closedAt.value - t.timestamp) / MillisPerHour else 0
  }

  /** The exit price and holding-period cells appear only when `exitPrice`
      is truthy (present and not 0). */
  function HoldingHoursCell(t: Trade): (r: Option<int>)
    ensures r.Some? <==> t.exitPrice.Some? && t.exitPrice.value != 0.0
    ensures r.Some? ==> r.value == HoldingHours(t)
  {
    if t.exitPrice.Some? && t.exitPrice.value != 0.0 then Some(HoldingHours(t)) else None
  }
}
