/** The leaderboard page (src/pages/LeaderboardPage.tsx): the search filter
    over the roster, the card-size interpolation, the 24h yap-change rule
    and the rank badge of each card. */
module Leaderboard {
  import opened Wrappers
  import opened Text
  import opened Seqs
  import opened Types
  import Numerals

  // ---------------------------------------------------------------------
  // Search filter
  // ---------------------------------------------------------------------

  /** The search test as the page computes it: the lower-cased name or the
      lower-cased handle includes the lower-cased query. */
  predicate MatchesQuery(y: Yapper, query: string) {
    Contains(Lower(y.name), Lower(query)) || Contains(Lower(y.username), Lower(query))
  }

  function Matcher(query: string): Yapper -> bool {
    y => MatchesQuery(y, query)
  }

  /** What the search is meant to keep: yappers whose name or handle has the
      query as a substring, ignoring letter case. */
  ghost predicate Keeps(y: Yapper, query: string) {
    IsSubstring(Lower(query), Lower(y.name)) || IsSubstring(Lower(query), Lower(y.username))
  }

  lemma MatchesIffKeeps(query: string)
    ensures forall y :: MatchesQuery(y, query) <==> Keeps(y, query)
  {
    forall y: Yapper
      ensures MatchesQuery(y, query) <==> Keeps(y, query)
    {
      ContainsIffSubstring(Lower(y.name), Lower(query));
      ContainsIffSubstring(Lower(y.username), Lower(query));
    }
  }

  /** `filteredYappers`: the roster entries the search keeps, unmodified and
      in roster order. */
  function FilterYappers(roster: seq<Yapper>, query: string): (r: seq<Yapper>)
    ensures IsSubsequence(r, roster)
    ensures forall i :: 0 <= i < |r| ==> r[i] in roster && Keeps(r[i], query)
    ensures forall i :: 0 <= i < |roster| && Keeps(roster[i], query) ==> roster[i] in r
    ensures forall y :: multiset(r)[y] == if Keeps(y, query) then multiset(roster)[y] else 0
  {
    MatchesIffKeeps(query);
    FilterIsSubsequence(roster, Matcher(query));
    FilterMembers(roster, Matcher(query));
    FilterMultiplicity(roster, Matcher(query));
    Filter(roster, Matcher(query))
  }

  /** An empty search box shows the whole roster. */
  lemma EmptyQueryKeepsAll(roster: seq<Yapper>)
    ensures FilterYappers(roster, "") == roster
  {
    forall i | 0 <= i < |roster|
      ensures Matcher("")(roster[i])
    {
      ContainsEmpty(Lower(roster[i].name));
    }
    FilterKeepsAll(roster, Matcher(""));
  }

  /** Searching the search result again with the same query changes nothing. */
  lemma FilterYappersIdempotent(roster: seq<Yapper>, query: string)
    ensures FilterYappers(FilterYappers(roster, query), query) == FilterYappers(roster, query)
  {
    FilterIdempotent(roster, Matcher(query));
  }

  // ---------------------------------------------------------------------
  // Card size
  // ---------------------------------------------------------------------

  const MinCardSize: real := 200.0
  const MaxCardSize: real := 400.0

  /** `getCardSize`: linear interpolation between the minimum and maximum
      card heights by `totalYaps / maxYaps`. A zero `maxYaps` makes the
      page divide by zero (a non-finite height); that is `None` here. */
  function CardSize(totalYaps: int, maxYaps: int): (r: Option<real>)
    ensures r.None? <==> maxYaps == 0
  {
    if maxYaps == 0 then None
    else Some(MinCardSize + (MaxCardSize - MinCardSize) * (totalYaps as real / maxYaps as real))
  }

  /** Within the range of the roster the height stays between the two
      bounds, and the largest count gets the largest card. */
  lemma CardSizeBounds(totalYaps: int, maxYaps: int)
    requires 0 <= totalYaps <= maxYaps && maxYaps > 0
    ensures CardSize(totalYaps, maxYaps).Some?
    ensures MinCardSize <= CardSize(totalYaps, maxYaps).value <= MaxCardSize
    ensures totalYaps == maxYaps ==> CardSize(totalYaps, maxYaps).value == MaxCardSize
    ensures totalYaps == 0 ==> CardSize(totalYaps, maxYaps).value == MinCardSize
  {
    var ratio := totalYaps as real / maxYaps as real;
    assert 0.0 <= ratio <= 1.0;
  }

  /** More yaps never give a smaller card; strictly more give a larger one. */
  lemma CardSizeMonotone(t1: int, t2: int, maxYaps: int)
    requires maxYaps > 0 && t1 <= t2
    ensures CardSize(t1, maxYaps).value <= CardSize(t2, maxYaps).value
    ensures t1 < t2 ==> CardSize(t1, maxYaps).value < CardSize(t2, maxYaps).value
  {
    var m := maxYaps as real;
    assert t1 as real / m <= t2 as real / m;
    assert t1 < t2 ==> t1 as real / m < t2 as real / m;
  }

  /** `maxTotalYaps`: `Math.max` over the shown yappers' counts; the page
      gets `-Infinity` for an empty list, which is `None` here. */
  function MaxTotalYaps(s: seq<Yapper>): (r: Option<int>)
    ensures r.None? <==> |s| == 0
    ensures r.Some? ==> forall i :: 0 <= i < |s| ==> s[i].totalYaps <= r.value
    ensures r.Some? ==> exists i :: 0 <= i < |s| && s[i].totalYaps == r.value
  {
    if |s| == 0 then None
    else
      match MaxTotalYaps(s[1..])
      case None => Some(s[0].totalYaps)
      case Some(m) => Some(if s[0].totalYaps >= m then s[0].totalYaps else m)
  }

  // ---------------------------------------------------------------------
  // 24h change and rank badge
  // ---------------------------------------------------------------------

  /** The activity history the page looks up for a yapper (`|| []`). */
  function HistoryOf(y: Yapper, histories: map<string, seq<YapPoint>>): seq<YapPoint> {
    if y.id in histories then histories[y.id] else []
  }

  /** `yapChange24h`: with two or more history points, today's daily count
      minus yesterday's; otherwise the yapper's `yaps_l24h`, or 0 when it is
      absent. */
  function YapChange24h(y: Yapper, histories: map<string, seq<YapPoint>>): (r: int)
    ensures var h := HistoryOf(y, histories);
      |h| >= 2 ==> r == h[|h| - 1].dailyYaps - h[|h| - 2].dailyYaps
    ensures var h := HistoryOf(y, histories);
      |h| < 2 ==> r == y.yapsL24h.GetOr(0)
  {
    var h := HistoryOf(y, histories);
    if |h| >= 2 then h[|h| - 1].dailyYaps - h[|h| - 2].dailyYaps
    else if |h| == 1 then y.yapsL24h.GetOr(0)
    else y.yapsL24h.GetOr(0)
  }

  /** `isPositive`: a change of zero counts as positive. */
  predicate IsPositive(change: int) {
    change >= 0
  }

  /** The rank badge: medals for the first three places, `#rank` after. */
  datatype Badge = Gold | Silver | Bronze | Numbered(caption: string)

  function RankBadge(rank: int): (b: Badge)
    ensures b == Gold <==> rank == 1
    ensures b == Silver <==> rank == 2
    ensures b == Bronze <==> rank <= 3 && rank != 1 && rank != 2
    ensures b.Numbered? <==> rank > 3
    ensures b.Numbered? ==>
              && |b.caption| >= 2 && b.caption[0] == '#'
              && Numerals.AllDigits(b.caption[1..], 10)
              && Numerals.ValueOf(b.caption[1..], 10) == rank
    ensures b.Numbered? ==> b.caption[1] != '0'
  {
    if rank <= 3 then
      (if rank == 1 then Gold else if rank == 2 then Silver else Bronze)
    else
      var digits := Numerals.Render(rank, 10);
      Numerals.RenderRoundTrip(rank, 10);
      assert ("#" + digits)[1..] == digits;
      Numbered("#" + digits)
  }

  /** For the positive ranks the roster uses, the bronze medal goes to rank
      3 alone; the branch the page writes as "not 1, not 2" also catches
      ranks 0 and below. */
  lemma RankBadgeOfPositiveRank(rank: int)
    ensures rank >= 1 ==> (RankBadge(rank) == Bronze <==> rank == 3)
    ensures rank <= 0 ==> RankBadge(rank) == Bronze
  {
  }

  // ---------------------------------------------------------------------
  // Cards
  // ---------------------------------------------------------------------

  /** What one leaderboard card shows. */
  datatype Card = Card(yapper: Yapper, change24h: int, positive: bool, size: Option<real>, badge: Badge)

  function CardOf(y: Yapper, histories: map<string, seq<YapPoint>>, maxYaps: int): Card {
    var change := YapChange24h(y, histories);
    Card(y, change, IsPositive(change), CardSize(y.totalYaps, maxYaps), RankBadge(y.rank))
  }

  /** The grid: one card per kept yapper, in roster order, sized against the
      largest kept count. */
  function Cards(roster: seq<Yapper>, query: string, histories: map<string, seq<YapPoint>>): (r: seq<Card>)
    ensures var f := FilterYappers(roster, query);
      |r| == |f| && forall i :: 0 <= i < |r| ==> r[i].yapper == f[i]
    ensures var f := FilterYappers(roster, query);
      forall i :: 0 <= i < |r| ==>
        && r[i].change24h == YapChange24h(f[i], histories)
        && r[i].positive == IsPositive(r[i].change24h)
        && r[i].badge == RankBadge(f[i].rank)
        && r[i].size == CardSize(f[i].totalYaps, MaxTotalYaps(f).value)
  {
    Grid(FilterYappers(roster, query), histories)
  }

  /** The cards of the shown yappers `f`, in order. */
  function Grid(f: seq<Yapper>, histories: map<string, seq<YapPoint>>): (r: seq<Card>)
    ensures |r| == |f| && forall i :: 0 <= i < |r| ==> r[i].yapper == f[i]
    ensures forall i :: 0 <= i < |r| ==>
              && r[i].change24h == YapChange24h(f[i], histories)
              && r[i].positive == IsPositive(r[i].change24h)
              && r[i].badge == RankBadge(f[i].rank)
              && r[i].size == CardSize(f[i].totalYaps, MaxTotalYaps(f).value)
  {
    var m := MaxTotalYaps(f);
    seq(|f|, i requires 0 <= i < |f| => CardOf(f[i], histories, m.value))
  }

  /** With non-negative counts and a positive maximum, every card height lies
      in range and the top card has the maximum height. */
  lemma CardSizesInRange(roster: seq<Yapper>, query: string, histories: map<string, seq<YapPoint>>)
    requires forall i :: 0 <= i < |roster| ==> roster[i].totalYaps >= 0
    requires var m := MaxTotalYaps(FilterYappers(roster, query)); m.Some? && m.value > 0
    ensures var r := Cards(roster, query, histories);
      forall i :: 0 <= i < |r| ==>
        r[i].size.Some? && MinCardSize <= r[i].size.value <= MaxCardSize
    ensures var r := Cards(roster, query, histories);
      exists i :: 0 <= i < |r| && r[i].size == Some(MaxCardSize)
  {
    var f := FilterYappers(roster, query);
    assert Cards(roster, query, histories) == Grid(f, histories);
    KeptCountsNonNegative(roster, query);
    GridSizesInRange(f, histories);
  }

  /** Non-negative roster counts stay non-negative among the kept yappers. */
  lemma KeptCountsNonNegative(roster: seq<Yapper>, query: string)
    requires forall i :: 0 <= i < |roster| ==> roster[i].totalYaps >= 0
    ensures var f := FilterYappers(roster, query);
      forall i :: 0 <= i < |f| ==> f[i].totalYaps >= 0
  {
    var f := FilterYappers(roster, query);
    forall i | 0 <= i < |f|
      ensures f[i].totalYaps >= 0
    {
      assert f[i] in roster;
    }
  }

  /** The grid-level statement: the shown counts are non-negative. */
  lemma GridSizesInRange(f: seq<Yapper>, histories: map<string, seq<YapPoint>>)
    requires forall i :: 0 <= i < |f| ==> f[i].totalYaps >= 0
    requires var m := MaxTotalYaps(f); m.Some? && m.value > 0
    ensures var r := Grid(f, histories);
      forall i :: 0 <= i < |r| ==>
        r[i].size.Some? && MinCardSize <= r[i].size.value <= MaxCardSize
    ensures var r := Grid(f, histories);
      exists i :: 0 <= i < |r| && r[i].size == Some(MaxCardSize)
  {
    var m := MaxTotalYaps(f).value;
    var r := Grid(f, histories);
    forall i | 0 <= i < |r|
      ensures r[i].size.Some? && MinCardSize <= r[i].size.value <= MaxCardSize
    {
      CardSizeBounds(f[i].totalYaps, m);
    }
    var k :| 0 <= k < |f| && f[k].totalYaps == m;
    CardSizeBounds(m, m);
    assert r[k].size == Some(MaxCardSize);
  }
}
