/** The activity chart (src/components/YapChart.tsx): each day's change is
    split into a positive series and a negative series, with matching
    area values drawn around the zero line. */
module YapChart {
  import opened Wrappers
  import opened Types

  /** One row of `chartData`. The localised `displayDate` label is not
      modelled; the chart does not carry the point's `timestamp` over. */
  datatype ChartPoint = ChartPoint(
    date: string,
    dailyYaps: int,
    changeFromPrevious: int,
    changePercentage: real,
    positiveChange: Option<int>,
    negativeChange: Option<int>,
    positiveArea: int,
    negativeArea: int)

  /** The row for one history point. */
  function ChartPointOf(p: YapPoint): (c: ChartPoint)
    ensures c.date == p.date && c.dailyYaps == p.dailyYaps
    ensures c.changeFromPrevious == p.changeFromPrevious && c.changePercentage == p.changePercentage
    ensures c.positiveChange.Some? != c.negativeChange.Some?
    ensures c.positiveChange.Some? <==> p.changeFromPrevious >= 0
    ensures c.positiveChange.Some? ==> c.positiveChange.value == p.changeFromPrevious
    ensures c.negativeChange.Some? ==> c.negativeChange.value == p.changeFromPrevious
    ensures c.positiveArea >= 0 && c.negativeArea <= 0
    ensures c.positiveArea + c.negativeArea == p.changeFromPrevious
  {
    var d := p.changeFromPrevious;
    ChartPoint(
      p.date, p.dailyYaps, d, p.changePercentage,
      if d >= 0 then Some(d) else None,
      if d < 0 then Some(d) else None,
      if d >= 0 then d else 0,
      if d < 0 then d else 0)
  }

  /** `chartData`: one row per history point, in the same order. */
  function ChartData(data: seq<YapPoint>): (r: seq<ChartPoint>)
    ensures |r| == |data|
    ensures forall i :: 0 <= i < |r| ==>
              && r[i].date == data[i].date
              && r[i].dailyYaps == data[i].dailyYaps
              && r[i].changeFromPrevious == data[i].changeFromPrevious
              && r[i].changePercentage == data[i].changePercentage
              && r[i].positiveArea + r[i].negativeArea == data[i].changeFromPrevious
              && (r[i].positiveChange.Some? <==> data[i].changeFromPrevious >= 0)
    ensures forall i :: 0 <= i < |r| ==> r[i] == ChartPointOf(data[i])
  {
    seq(|data|, i requires 0 <= i < |data| => ChartPointOf(data[i]))
  }

  /** A day without change is drawn in the positive series. */
  lemma ZeroChangeIsPositive(p: YapPoint)
    requires p.changeFromPrevious == 0
    ensures ChartPointOf(p).positiveChange == Some(0)
    ensures ChartPointOf(p).negativeChange == None
  {
  }

  /** The change a row represents, read back from its two series. */
  function ChangeOfSeries(c: ChartPoint): int {
    match c.positiveChange
    case Some(v) => v
    case None => c.negativeChange.GetOr(0)
  }

  /** The split loses nothing: the original change is recovered from the
      series and from the areas alike. */
  lemma SeriesRecoverChange(data: seq<YapPoint>)
    ensures var r := ChartData(data);
      forall i :: 0 <= i < |r| ==>
        ChangeOfSeries(r[i]) == data[i].changeFromPrevious
        && r[i].positiveArea + r[i].negativeArea == ChangeOfSeries(r[i])
  {
    var r := ChartData(data);
    forall i | 0 <= i < |r|
      ensures ChangeOfSeries(r[i]) == data[i].changeFromPrevious
    {
      assert r[i] == ChartPointOf(data[i]);
    }
  }
}
