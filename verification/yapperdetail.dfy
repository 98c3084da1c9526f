/** The yapper detail page (src/pages/YapperDetailPage.tsx): looking the
    yapper up by route id, the trade panel's amount guard, the liquidation
    estimate, the Trades/Volume stats and the headline trend. */
module YapperDetail {
  import opened Wrappers
  import opened Types
  import Leaderboard
  import YapChart

  // ---------------------------------------------------------------------
  // Lookup
  // ---------------------------------------------------------------------

  /** The index of the first roster entry whose id is `id`. */
  function FirstIndexOf(roster: seq<Yapper>, id: string): (r: Option<nat>)
    ensures r.Some? ==> r.value < |roster| && roster[r.value].id == id
    ensures r.Some? ==> forall j :: 0 <= j < r.value ==> roster[j].id != id
    ensures r.None? ==> forall j :: 0 <= j < |roster| ==> roster[j].id != id
  {
    if |roster| == 0 then None
    else if roster[0].id == id then Some(0)
    else
      match FirstIndexOf(roster[1..], id)
      case None => None
      case Some(k) => Some(k + 1)
  }

  /** What the page renders: the yapper's page, or "Yapper not found". */
  datatype DetailView = NotFound | Found(yapper: Yapper)

  /** `mockYappers.find((y) => y.id === id)`; a route without an id matches
      nothing. */
  function DetailPage(roster: seq<Yapper>, id: Option<string>): (v: DetailView)
    ensures v.Found? ==> id.Some? && v.yapper.id == id.value
    ensures v.Found? ==> exists i :: 0 <= i < |roster| && roster[i] == v.yapper
                                && forall j :: 0 <= j < i ==> roster[j].id != id.value
    ensures v.NotFound? <==> id.None? || forall j :: 0 <= j < |roster| ==> roster[j].id != id.value
  {
    if id.None? then NotFound
    else
      match FirstIndexOf(roster, id.value)
      case None => NotFound
      case Some(k) => Found(roster[k])
  }

  // ---------------------------------------------------------------------
  // Trade panel
  // ---------------------------------------------------------------------

  /** The leverage slider's range (`min="1" max="10"`). */
  type Leverage = l: int | 1 <= l <= 10 witness 1

  /** The panel's inputs: direction, amount text and leverage. */
  datatype TradePanel = TradePanel(direction: Direction, amount: string, leverage: Leverage)

  /** The trade the page announces when the guard lets it through. */
  datatype Order = Order(direction: Direction, amount: string, leverage: Leverage)

  datatype TradeStep = TradeStep(panel: TradePanel, order: Option<Order>)

  /** `handlePlaceTrade`. `parsed` is `parseFloat(amount)`, `None` standing
      for `NaN`: since `NaN <= 0` is false, an unparsable non-empty amount is
      not rejected. */
  function PlaceTrade(panel: TradePanel, parsed: Option<real>): (s: TradeStep)
    ensures s.order.None? <==> panel.amount == "" || (parsed.Some? && parsed.value <= 0.0)
    ensures s.order.None? ==> s.panel == panel
    ensures s.order.Some? ==> s.panel == panel.(amount := "")
    ensures s.order.Some? ==>
              s.order.value == Order(panel.direction, panel.amount, panel.leverage)
  {
    if panel.amount == "" || (parsed.Some? && parsed.value <= 0.0) then TradeStep(panel, None)
    else TradeStep(panel.(amount := ""), Some(Order(panel.direction, panel.amount, panel.leverage)))
  }

  /** The Place Trade button's `disabled` condition. */
  predicate PlaceTradeDisabled(panel: TradePanel, parsed: Option<real>) {
    !(panel.amount != "") || (parsed.Some? && parsed.value <= 0.0)
  }

  /** The button is disabled exactly when pressing it would do nothing, and
      a placed trade leaves an empty amount, which disables the button. */
  lemma PlaceTradeNoOpIffDisabled(panel: TradePanel, parsed: Option<real>, reparsed: Option<real>)
    ensures PlaceTrade(panel, parsed).order.None? <==> PlaceTradeDisabled(panel, parsed)
    ensures PlaceTrade(panel, parsed).order.Some? ==>
              PlaceTradeDisabled(PlaceTrade(panel, parsed).panel, reparsed)
  {
  }

  // ---------------------------------------------------------------------
  // Liquidation estimate
  // ---------------------------------------------------------------------

  /** The fixed fraction of the margin that triggers liquidation. */
  const MaintenanceFactor: real := 0.8

  /** The entry price the panel uses: the yapper's current index. */
  function EntryPrice(y: Yapper): real {
    y.xIndex
  }

  /** `liquidationPrice`: below the entry for a long, above it for a short,
      by `0.8 / leverage` of the entry. */
  function LiquidationPrice(direction: Direction, entry: real, leverage: Leverage): (r: real)
    ensures entry > 0.0 && direction == Long ==> 0.2 * entry <= r < entry
    ensures entry > 0.0 && direction == Short ==> entry < r <= 1.8 * entry
  {
    var k := MaintenanceFactor / leverage as real;
    assert 0.0 < k <= MaintenanceFactor by {
      assert k * leverage as real == MaintenanceFactor;
    }
    match direction
    case Long => entry * (1.0 - k)
    case Short => entry * (1.0 + k)
  }

  /** The two estimates lie at the same distance from the entry. */
  lemma LiquidationMirror(entry: real, leverage: Leverage)
    ensures entry - LiquidationPrice(Long, entry, leverage)
         == LiquidationPrice(Short, entry, leverage) - entry
  {
  }

  /** The distance between the estimate and the entry. */
  function Distance(direction: Direction, entry: real, leverage: Leverage): real {
    var p := LiquidationPrice(direction, entry, leverage);
    if p >= entry then p - entry else entry - p
  }

  /** The fraction of the entry the estimate sits away from it. */
  function Share(leverage: Leverage): real {
    MaintenanceFactor / leverage as real
  }

  /** Raising the leverage moves the estimate strictly closer to the entry,
      on either side. */
  lemma LiquidationCloserWithLeverage(direction: Direction, entry: real, l1: Leverage, l2: Leverage)
    requires entry > 0.0 && l1 < l2
    ensures Distance(direction, entry, l2) < Distance(direction, entry, l1)
  {
    DistanceIsShare(direction, entry, l1);
    DistanceIsShare(direction, entry, l2);
    ShareShrinks(l1, l2);
    CloserFromShares(Distance(direction, entry, l1), Distance(direction, entry, l2),
                     entry, Share(l1), Share(l2));
  }

  lemma CloserFromShares(d1: real, d2: real, e: real, k1: real, k2: real)
    requires e > 0.0 && k2 < k1 && d1 == e * k1 && d2 == e * k2
    ensures d2 < d1
  {
  }

  lemma ShareShrinks(l1: Leverage, l2: Leverage)
    requires l1 < l2
    ensures Share(l2) < Share(l1)
  {
    QuotientShrinks(MaintenanceFactor, l1 as real, l2 as real);
  }

  /** Dividing a positive amount by a larger divisor gives less. */
  lemma QuotientShrinks(m: real, a: real, b: real)
    requires m > 0.0 && 0.0 < a < b
    ensures m / b < m / a
  {
    var k1, k2 := m / a, m / b;
    QuotientTimesDivisor(m, a);
    QuotientTimesDivisor(m, b);
    MulStrict(k1, a, b);
    BelowBoth(k1 * a, k1 * b, k2 * b, m);
    MulCancel(k2, k1, b);
  }

  lemma QuotientTimesDivisor(m: real, a: real)
    requires a > 0.0
    ensures (m / a) * a == m
  {
  }

  lemma BelowBoth(p: real, q: real, r: real, m: real)
    requires p == m && p < q && r == m
    ensures r < q
  {
  }

  lemma MulCancel(x: real, y: real, c: real)
    requires c > 0.0 && x * c < y * c
    ensures x < y
  {
    if x >= y {
      MulMono(y, x, c);
    }
  }

  lemma MulStrict(c: real, x: real, y: real)
    requires c > 0.0 && x < y
    ensures c * x < c * y
  {
    assert c * y - c * x == c * (y - x);
  }

  lemma MulMono(x: real, y: real, c: real)
    requires c > 0.0 && x <= y
    ensures x * c <= y * c
  {
    assert y * c - x * c == (y - x) * c;
  }

  lemma DistanceIsShare(direction: Direction, entry: real, leverage: Leverage)
    requires entry > 0.0
    ensures Distance(direction, entry, leverage) == entry * Share(leverage)
  {
    var k := Share(leverage);
    var p := LiquidationPrice(direction, entry, leverage);
    match direction
    case Long =>
      assert p == entry - entry * k;
    case Short =>
      assert p == entry + entry * k;
  }

  /** The estimate the panel shows for the yapper and the slider settings:
      on the side of the current index the direction loses on, at the share
      `0.8 / leverage` of that index. */
  function PanelLiquidationPrice(y: Yapper, panel: TradePanel): (r: real)
    ensures EntryPrice(y) > 0.0 ==> (r < EntryPrice(y) <==> panel.direction == Long)
    ensures EntryPrice(y) > 0.0 ==>
              (if r >= EntryPrice(y) then r - EntryPrice(y) else EntryPrice(y) - r)
              == EntryPrice(y) * Share(panel.leverage)
  {
    var r := LiquidationPrice(panel.direction, EntryPrice(y), panel.leverage);
    if EntryPrice(y) > 0.0 then
      DistanceIsShare(panel.direction, EntryPrice(y), panel.leverage);
      r
    else r
  }

  /** An entry of 100 at 5x leverage liquidates a long at 84. */
  lemma LiquidationExample()
    ensures LiquidationPrice(Long, 100.0, 5) == 84.0
    ensures LiquidationPrice(Short, 100.0, 5) == 116.0
  {
  }

  // ---------------------------------------------------------------------
  // Stats and headline
  // ---------------------------------------------------------------------

  /** The "Trades" stat. */
  function TradesStat(y: Yapper): int {
    y.totalYaps * 10000
  }

  /** The "Volume" stat, always five times the "Trades" stat. */
  function VolumeStat(y: Yapper): (r: int)
    ensures r == 5 * TradesStat(y)
  {
    y.totalYaps * 50000
  }

  /** The headline trend next to the chart title: absent for an empty
      series, otherwise whether the last day's change is zero or more. */
  function HeadlineTrend(data: seq<YapPoint>): (r: Option<bool>)
    ensures r.None? <==> |data| == 0
    ensures r.Some? ==> (r.value <==> data[|data| - 1].changeFromPrevious >= 0)
  {
    if |data| > 0 then Some(data[|data| - 1].changeFromPrevious >= 0) else None
  }

  /** The headline agrees with the colour of the chart's last point. */
  lemma HeadlineMatchesChart(data: seq<YapPoint>)
    requires |data| > 0
    ensures HeadlineTrend(data).value
        <==> YapChart.ChartData(data)[|data| - 1].positiveChange.Some?
  {
  }

  /** A history whose deltas are the day-over-day differences. */
  predicate ConsistentHistory(h: seq<YapPoint>) {
    forall i :: 1 <= i < |h| ==> h[i].changeFromPrevious == h[i].dailyYaps - h[i - 1].dailyYaps
  }

  /** On a consistent history of two or more days, the leaderboard card's
      24h change is the last point's delta, so the card's colour agrees with
      a headline drawn from that same history. The detail page draws its
      headline from its own generated series, which need not be this one. */
  lemma CardAgreesWithHeadline(y: Yapper, histories: map<string, seq<YapPoint>>)
    requires var h := Leaderboard.HistoryOf(y, histories); |h| >= 2 && ConsistentHistory(h)
    ensures var h := Leaderboard.HistoryOf(y, histories);
      Leaderboard.YapChange24h(y, histories) == h[|h| - 1].changeFromPrevious
      && (Leaderboard.IsPositive(Leaderboard.YapChange24h(y, histories)) <==> HeadlineTrend(h).value)
  {
    var h := Leaderboard.HistoryOf(y, histories);
    assert h[|h| - 1].changeFromPrevious == h[|h| - 1].dailyYaps - h[|h| - 2].dailyYaps;
  }
}
