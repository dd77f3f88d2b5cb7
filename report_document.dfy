/** The figures and the layout that the printable report derives from the
    analysis store: the chunking of the topic cards, the blocks of the
    thematic section, the rounded percentages, the most prevalent sentiment,
    the top topics and the period covered. Locale formatting of dates is a
    parameter. */
module ReportDocument {
  import opened Base
  import opened Text
  import opened ApiTypes

  // ---------------------------------------------------------------------------
  // chunk

  /** `chunk(arr, size)`: the index loop that pushes `arr.slice(i, i + size)`
      for i = 0, size, 2 * size, ... while i < arr.length. */
  method Chunk<T>(arr: seq<T>, size: nat) returns (out: seq<seq<T>>)
    requires size > 0
    ensures out == Chunks(arr, size)
  {
    out := [];
    var i := 0;
    while i < |arr|
      invariant out + Chunks(arr[Min(i, |arr|)..], size) == Chunks(arr, size)
      decreases |arr| - i
    {
      var end := Min(i + size, |arr|);
      assert out + Chunks(arr[i..], size) == Chunks(arr, size);
      ChunksAt(arr, size, i);
      AppendAssoc(out, [arr[i..end]], Chunks(arr[end..], size));
      out := out + [arr[i..end]];
      i := i + size;
      assert out + Chunks(arr[end..], size) == Chunks(arr, size);
    }
    assert arr[Min(i, |arr|)..] == [];
  }

  /** The chunks from index `i` on: the slice of at most `size` elements at
      `i`, then the chunks after it. */
  lemma ChunksAt<T>(arr: seq<T>, size: nat, i: nat)
    requires size > 0 && i < |arr|
    ensures Chunks(arr[i..], size) == [arr[i..Min(i + size, |arr|)]] + Chunks(arr[Min(i + size, |arr|)..], size)
  {
    var end := Min(i + size, |arr|);
    assert arr[i..][..Min(size, |arr| - i)] == arr[i..end];
    assert arr[i..][Min(size, |arr| - i)..] == arr[end..];
  }

  // ---------------------------------------------------------------------------
  // Rounded percentages

  /** A JavaScript number as `Math.round(count / total * 100)` can produce it:
      an integer, +Infinity (a positive count over a zero total) or NaN (0 / 0). */
  datatype JsNumber = Finite(value: int) | PosInfinity | NaN

  /** `Math.round(count / total * 100)`, taking the quotient exactly:
      `Math.round(x)` is `floor(x + 0.5)`. */
  function Percent(count: nat, total: nat): (r: JsNumber)
    ensures total == 0 <==> !r.Finite?
    ensures total == 0 ==> (r.NaN? <==> count == 0)
    ensures r.Finite? ==> 2 * total * r.value <= 200 * count + total < 2 * total * (r.value + 1)
  {
    if total == 0 then (if count == 0 then NaN else PosInfinity)
    else Finite((200 * count + total) / (2 * total))
  }

  /** A count not above its total rounds to a percentage between 0 and 100. */
  lemma PercentRange(count: nat, total: nat)
    requires 0 < total && count <= total
    ensures var r := Percent(count, total); r.Finite? && 0 <= r.value <= 100
  {
    var v := Percent(count, total).value;
    if v > 100 {
      MulMonotone(2 * total, 101, v);
    }
  }

  /** Three counts that make up the total give percentages that add up to
      99, 100 or 101: each is off by at most one half. */
  lemma PercentsNearlySum(a: nat, b: nat, c: nat)
    requires a + b + c > 0
    ensures var t := a + b + c;
      var s := Percent(a, t).value + Percent(b, t).value + Percent(c, t).value;
      99 <= s <= 101
  {
    var t := a + b + c;
    var pa, pb, pc := Percent(a, t).value, Percent(b, t).value, Percent(c, t).value;
    var s := pa + pb + pc;
    var u := 2 * t;
    assert u * s == u * pa + u * pb + u * pc;
    assert u * (s + 3) == u * s + 3 * u;
    if s > 101 {
      MulMonotone(u, 102, s);
    }
    if s < 99 {
      MulMonotone(u, s + 3, 101);
    }
  }

  /** JavaScript `a >= b` on these numbers: false whenever NaN is involved. */
  predicate Ge(a: JsNumber, b: JsNumber)
  {
    match (a, b)
    case (Finite(x), Finite(y)) => x >= y
    case (PosInfinity, Finite(_)) => true
    case (PosInfinity, PosInfinity) => true
    case (_, _) => false
  }

  datatype Sentiment = Positive | Neutral | Negative

  /** The "most prevalent sentiment" expression of the sentiment section. */
  function Prevalent(pos: JsNumber, neu: JsNumber, neg: JsNumber): Sentiment
  {
    if Ge(pos, neu) && Ge(pos, neg) then Positive else if Ge(neu, neg) then Neutral else Negative
  }

  /** The first of Positive, Neutral, Negative whose percentage is the largest. */
  function FirstMaximum(pos: int, neu: int, neg: int): Sentiment
  {
    var m := Max(pos, Max(neu, neg));
    if pos == m then Positive else if neu == m then Neutral else Negative
  }

  /** With finite percentages the expression picks a largest one, and on a tie
      prefers Positive, then Neutral. */
  lemma PrevalentIsFirstMaximum(pos: int, neu: int, neg: int)
    ensures Prevalent(Finite(pos), Finite(neu), Finite(neg)) == FirstMaximum(pos, neu, neg)
  {
  }

  /** The percentages of the summary: 0 without analytics, otherwise the
      rounded shares of the overall total. */
  datatype Shares = Shares(total: nat, pos: JsNumber, neu: JsNumber, neg: JsNumber)

  function SummaryShares(analytics: Option<Analytics>): (r: Shares)
    ensures analytics.None? ==> r == Shares(0, Finite(0), Finite(0), Finite(0))
    ensures analytics.Some? ==> r.total == analytics.value.totalComments
  {
    match analytics
    case None => Shares(0, Finite(0), Finite(0), Finite(0))
    case Some(a) =>
      Shares(a.totalComments, Percent(a.positiveComments, a.totalComments),
             Percent(a.neutralComments, a.totalComments), Percent(a.negativeComments, a.totalComments))
  }

  /** Without analytics the report calls the sentiment Positive (all shares
      are 0); with analytics over zero comments every share is NaN, every
      comparison fails, and it calls the sentiment Negative. */
  lemma PrevalentOfEmpty(a: Analytics)
    requires a.totalComments == 0 && a.positiveComments == 0 && a.neutralComments == 0 && a.negativeComments == 0
    ensures var s := SummaryShares(None); Prevalent(s.pos, s.neu, s.neg) == Positive
    ensures var s := SummaryShares(Some(a)); Prevalent(s.pos, s.neu, s.neg) == Negative
  {
  }

  // ---------------------------------------------------------------------------
  // Top topics

  function ByTotalDescending(c: CategoryStats): int { 0 - c.totalComments as int }

  /** The category rows sorted by decreasing total (a stable sort), first three. */
  function TopStats(stats: seq<CategoryStats>): seq<CategoryStats>
  {
    var sorted := SortBy(stats, ByTotalDescending);
    sorted[..Min(3, |sorted|)]
  }

  /** `topTopics`: the names of the three most mentioned categories, none
      without analytics. */
  function TopTopics(analytics: Option<Analytics>): seq<string>
  {
    match analytics
    case None => []
    case Some(a) =>
      var top := TopStats(a.categoriesStats);
      seq(|top|, i requires 0 <= i < |top| => top[i].category)
  }

  /** The selection has min(3, n) rows taken from the input, in
      non-increasing order of totals. */
  lemma TopStatsOrdered(stats: seq<CategoryStats>)
    ensures var top := TopStats(stats);
      |top| == Min(3, |stats|)
      && multiset(top) <= multiset(stats)
      && (forall i, j :: 0 <= i < j < |top| ==> top[i].totalComments >= top[j].totalComments)
  {
    var sorted := SortBy(stats, ByTotalDescending);
    var k := Min(3, |sorted|);
    var top := sorted[..k];
    SortedPrefix(sorted, ByTotalDescending, k);
    forall i, j | 0 <= i < j < |top|
      ensures top[i].totalComments >= top[j].totalComments
    {
      assert ByTotalDescending(top[i]) <= ByTotalDescending(top[j]);
    }
  }

  /** No row left out of the selection has a larger total than a selected one. */
  lemma TopStatsMaximal(stats: seq<CategoryStats>, x: CategoryStats, y: CategoryStats)
    requires x in stats && x !in TopStats(stats) && y in TopStats(stats)
    ensures x.totalComments <= y.totalComments
  {
    var sorted := SortBy(stats, ByTotalDescending);
    assert x in multiset(stats);
    assert x in sorted by { assert x in multiset(sorted); }
    SortedPrefixMaximal(sorted, ByTotalDescending, Min(3, |sorted|), x, y);
  }

  /** The names come from the selected rows, in order, and there are at most three. */
  lemma TopTopicsSpec(analytics: Option<Analytics>)
    ensures analytics.None? ==> TopTopics(analytics) == []
    ensures analytics.Some? ==>
      var top := TopStats(analytics.value.categoriesStats);
      |TopTopics(analytics)| == Min(3, |analytics.value.categoriesStats|)
      && forall i :: 0 <= i < |top| ==> TopTopics(analytics)[i] == top[i].category
  {
    if analytics.Some? {
      TopStatsOrdered(analytics.value.categoriesStats);
    }
  }

  /** "Top topics: a, b, c" / "Dominant discussion topics: ..." text. */
  function TopicsText(topics: seq<string>): string
  {
    if topics == [] then "N/A" else Join(topics, ", ")
  }

  // ---------------------------------------------------------------------------
  // Period covered

  /** The timestamps of the comments that carry a non-empty `created_time`,
      in comment order; `parse` stands for `new Date(s).getTime()`. */
  function DateNums(comments: seq<CommentAnalysis>, parse: string -> int): seq<int>
  {
    if comments == [] then []
    else
      var c := comments[|comments| - 1];
      DateNums(comments[..|comments| - 1], parse)
      + (if c.createdTime.Some? && c.createdTime.value != "" then [parse(c.createdTime.value)] else [])
  }

  function Identity(x: int): int { x }

  /** First and last of the sorted timestamps, none without one. */
  function DateRange(comments: seq<CommentAnalysis>, parse: string -> int): (r: Option<(int, int)>)
  {
    var sorted := SortBy(DateNums(comments, parse), Identity);
    if sorted == [] then None else Some((sorted[0], sorted[|sorted| - 1]))
  }

  /** The range is absent exactly when no timestamp is; otherwise its ends are
      timestamps of the comments, the start is the earliest, the end the
      latest. */
  lemma DateRangeSpec(comments: seq<CommentAnalysis>, parse: string -> int)
    ensures var nums := DateNums(comments, parse);
      var r := DateRange(comments, parse);
      (r.None? <==> nums == [])
      && (r.Some? ==>
        r.value.0 <= r.value.1 && r.value.0 in nums && r.value.1 in nums
        && forall t :: t in nums ==> r.value.0 <= t <= r.value.1)
  {
    var nums := DateNums(comments, parse);
    var sorted := SortBy(nums, Identity);
    if sorted != [] {
      assert sorted[0] in multiset(nums);
      assert sorted[|sorted| - 1] in multiset(nums);
      forall t | t in nums
        ensures sorted[0] <= t <= sorted[|sorted| - 1]
      {
        assert t in sorted by { assert t in multiset(sorted); }
        SortedEnds(sorted, Identity, t);
      }
    } else {
      assert |nums| == 0;
    }
  }

  /** The formatted ends of the period, "N/A" for both when there is none;
      `fmt` stands for the en-US short date format. */
  function PeriodText(range: Option<(int, int)>, fmt: int -> string): (string, string)
  {
    match range
    case None => ("N/A", "N/A")
    case Some((a, b)) => (fmt(a), fmt(b))
  }

  /** The executive summary mentions the period only when its start is known. */
  function RangeClause(rangeStart: string, rangeEnd: string): string
  {
    if rangeStart != "N/A" then " from " + rangeStart + " to " + rangeEnd else ""
  }

  /** The clause appears exactly when some comment carries a timestamp,
      provided the date format never yields the text "N/A". */
  lemma RangeClausePresent(comments: seq<CommentAnalysis>, parse: string -> int, fmt: int -> string)
    requires forall t :: fmt(t) != "N/A"
    ensures var p := PeriodText(DateRange(comments, parse), fmt);
      RangeClause(p.0, p.1) != "" <==> DateNums(comments, parse) != []
  {
    DateRangeSpec(comments, parse);
  }

  // ---------------------------------------------------------------------------
  // Layout of the thematic section

  /** The blocks of the thematic section, in document order. The stat grids
      hold at most 15 cards and the chart grids at most 6; only the first of
      each carries the page-break marker, and only the first stat grid the
      section introduction. */
  datatype Block =
    | Spacer(heightPx: nat)
    | StatGrid(cards: seq<CategoryStats>, pageBreak: bool, intro: bool)
    | NoTopics
    | Distribution(bars: seq<CategoryStats>)
    | ChartGrid(charts: seq<CategoryStats>, pageBreak: bool)

  const StatsPerGrid: nat := 15
  const ChartsPerGrid: nat := 6

  function StatGrids(stats: seq<CategoryStats>): (r: seq<Block>)
  {
    var chunks := Chunks(stats, StatsPerGrid);
    seq(|chunks|, i requires 0 <= i < |chunks| => StatGrid(chunks[i], i == 0, i == 0))
  }

  function ChartGrids(stats: seq<CategoryStats>): (r: seq<Block>)
  {
    var chunks := Chunks(stats, ChartsPerGrid);
    seq(|chunks|, i requires 0 <= i < |chunks| => ChartGrid(chunks[i], i == 0))
  }

  /** `TopicsSection`: a 100px spacer, the stat grids or the placeholder, the
      distribution chart when there are categories, a 500px spacer and the
      chart grids. */
  function TopicsBlocks(stats: seq<CategoryStats>): seq<Block>
  {
    var grids := StatGrids(stats);
    [Spacer(100)]
    + (if |grids| > 0 then grids else [NoTopics])
    + (if |stats| > 0 then [Distribution(stats)] else [])
    + [Spacer(500)]
    + ChartGrids(stats)
  }

  /** With no categories the section is the placeholder between its two
      spacers: no distribution chart and no chart grid. */
  lemma TopicsBlocksEmpty()
    ensures TopicsBlocks([]) == [Spacer(100), NoTopics, Spacer(500)]
  {
  }

  /** With categories: ceil(n / 15) stat grids and ceil(n / 6) chart grids,
      their cards and charts are the categories in order, each grid is full
      but the last, and the page-break marker is on the first grid of each
      kind only. */
  lemma TopicsGridsSpec(stats: seq<CategoryStats>)
    ensures var g := StatGrids(stats);
      |g| == CeilDiv(|stats|, StatsPerGrid)
      && (forall i :: 0 <= i < |g| ==> g[i].StatGrid? && (g[i].pageBreak <==> i == 0) && (g[i].intro <==> i == 0))
      && (forall i :: 0 <= i < |g| ==> 0 < |g[i].cards| <= StatsPerGrid)
      && (forall i :: 0 <= i < |g| - 1 ==> |g[i].cards| == StatsPerGrid)
      && Flatten(seq(|g|, i requires 0 <= i < |g| => g[i].cards)) == stats
    ensures var c := ChartGrids(stats);
      |c| == CeilDiv(|stats|, ChartsPerGrid)
      && (forall i :: 0 <= i < |c| ==> c[i].ChartGrid? && (c[i].pageBreak <==> i == 0))
      && (forall i :: 0 <= i < |c| ==> 0 < |c[i].charts| <= ChartsPerGrid)
      && (forall i :: 0 <= i < |c| - 1 ==> |c[i].charts| == ChartsPerGrid)
      && Flatten(seq(|c|, i requires 0 <= i < |c| => c[i].charts)) == stats
  {
    var s := Chunks(stats, StatsPerGrid);
    var g := StatGrids(stats);
    ChunksShape(stats, StatsPerGrid);
    ChunksFlatten(stats, StatsPerGrid);
    assert seq(|g|, i requires 0 <= i < |g| => g[i].cards) == s;
    var t := Chunks(stats, ChartsPerGrid);
    var c := ChartGrids(stats);
    ChunksShape(stats, ChartsPerGrid);
    ChunksFlatten(stats, ChartsPerGrid);
    assert seq(|c|, i requires 0 <= i < |c| => c[i].charts) == t;
  }

  /** Twenty categories: two stat grids (15 and 5 cards) and four chart grids
      (6, 6, 6 and 2 charts). */
  lemma TwentyCategories(stats: seq<CategoryStats>)
    requires |stats| == 20
    ensures |StatGrids(stats)| == 2 && |ChartGrids(stats)| == 4
    ensures |StatGrids(stats)[0].cards| == 15 && |StatGrids(stats)[1].cards| == 5
    ensures |ChartGrids(stats)[3].charts| == 2
  {
    var rest15 := stats[15..];
    assert rest15[..5] == rest15 && rest15[5..] == [];
    assert Chunks(rest15, StatsPerGrid) == [rest15];
    assert Chunks(stats, StatsPerGrid) == [stats[..15], rest15];
    var r1 := stats[6..];
    var r2 := r1[6..];
    var r3 := r2[6..];
    assert r3[..2] == r3 && r3[2..] == [];
    assert Chunks(r3, ChartsPerGrid) == [r3];
    assert Chunks(r2, ChartsPerGrid) == [r2[..6], r3];
    assert Chunks(r1, ChartsPerGrid) == [r1[..6], r2[..6], r3];
    assert Chunks(stats, ChartsPerGrid) == [stats[..6], r1[..6], r2[..6], r3];
  }
}
