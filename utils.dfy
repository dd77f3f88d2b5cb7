/** The API's analysis helpers: batching of the comment texts, merging of the
    two models' predictions with the comment metadata, and the counting that
    produces the analytics record. The models themselves are not modelled:
    their predictions are inputs. */
module Utils {
  import opened Base
  import opened Text
  import opened ApiTypes

  // ---------------------------------------------------------------------------
  // chunk_list

  /** The generator `items[i:i+size] for i in range(0, len(items), size)`.
      A negative size gives an empty range; a zero size is an error of
      `range` and is excluded. */
  function ChunkList<T>(items: seq<T>, chunkSize: int): (r: seq<seq<T>>)
    requires chunkSize != 0
    ensures chunkSize < 0 ==> r == []
    ensures chunkSize > 0 ==>
      Flatten(r) == items
      && |r| == CeilDiv(|items|, chunkSize)
      && (forall i :: 0 <= i < |r| ==> 0 < |r[i]| <= chunkSize)
      && (forall i :: 0 <= i < |r| - 1 ==> |r[i]| == chunkSize)
  {
    if chunkSize < 0 then []
    else
      ChunksFlatten(items, chunkSize);
      ChunksShape(items, chunkSize);
      Chunks(items, chunkSize)
  }

  // ---------------------------------------------------------------------------
  // merge_model_outputs

  /** What a classification pipeline returns for one text: a dict whose
      `label` and `score` keys may be missing, a list of such results, or any
      other value. */
  datatype Prediction =
    | PredDict(labelField: Option<string>, scoreField: Option<real>)
    | PredList(items: seq<Prediction>)
    | PredOther

  /** The metadata of one comment, each key possibly missing. */
  datatype Meta = Meta(commentId: Option<string>, text: Option<string>, createdTime: Option<string>)

  /** One merged comment, as the dict `merge_model_outputs` appends. */
  datatype Merged = Merged(
    commentId: Option<string>,
    text: Option<string>,
    sentiment: Option<string>,
    sentimentConf: Option<real>,
    category: Option<string>,
    categoryConf: Option<real>,
    createdTime: Option<string>)

  /** A one-element list stands for its element; anything else for itself. */
  function Unwrap(p: Prediction): (r: Prediction)
    ensures p.PredList? && |p.items| == 1 ==> r == p.items[0]
    ensures !(p.PredList? && |p.items| == 1) ==> r == p
  {
    if p.PredList? && |p.items| == 1 then p.items[0] else p
  }

  /** `item.get("label")` for a dict, `None` otherwise. */
  function LabelOf(p: Prediction): Option<string>
  {
    if p.PredDict? then p.labelField else None
  }

  /** `float(item.get("score", 0.0))` for a dict, `None` otherwise. */
  function ScoreOf(p: Prediction): Option<real>
  {
    if p.PredDict? then Some(if p.scoreField.Some? then p.scoreField.value else 0.0) else None
  }

  /** One iteration of the merge loop. */
  function MergeOne(meta: Meta, s: Prediction, t: Prediction): (m: Merged)
    ensures m.commentId == meta.commentId && m.text == meta.text && m.createdTime == meta.createdTime
    ensures m.sentiment == LabelOf(Unwrap(s)) && m.sentimentConf == ScoreOf(Unwrap(s))
    ensures m.category == LabelOf(Unwrap(t)) && m.categoryConf == ScoreOf(Unwrap(t))
  {
    var sItem := Unwrap(s);
    var tItem := Unwrap(t);
    Merged(meta.commentId, meta.text, LabelOf(sItem), ScoreOf(sItem),
           LabelOf(tItem), ScoreOf(tItem), meta.createdTime)
  }

  /** The shapes a prediction may take and what the merge makes of them: a
      dict gives its label and its score (0.0 when missing), a one-element
      list is unwrapped, and anything else gives no label and no score. */
  lemma PredictionShapes(meta: Meta, d: Prediction, t: Prediction)
    requires d.PredDict?
    ensures MergeOne(meta, d, t).sentiment == d.labelField
    ensures MergeOne(meta, d, t).sentimentConf == Some(if d.scoreField.Some? then d.scoreField.value else 0.0)
    ensures MergeOne(meta, PredList([d]), t) == MergeOne(meta, d, t)
    ensures MergeOne(meta, PredOther, t).sentiment.None? && MergeOne(meta, PredOther, t).sentimentConf.None?
    ensures forall ps :: |ps| != 1 ==>
      MergeOne(meta, PredList(ps), t).sentiment.None? && MergeOne(meta, PredList(ps), t).sentimentConf.None?
  {
  }

  /** `merge_model_outputs`: the loop over `zip` of the three lists. */
  method MergeModelOutputs(metas: seq<Meta>, sentimentPreds: seq<Prediction>, topicsPreds: seq<Prediction>)
    returns (merged: seq<Merged>)
    ensures |merged| == Min(|metas|, Min(|sentimentPreds|, |topicsPreds|))
    ensures forall i :: 0 <= i < |merged| ==> merged[i] == MergeOne(metas[i], sentimentPreds[i], topicsPreds[i])
  {
    var n := Min(|metas|, Min(|sentimentPreds|, |topicsPreds|));
    merged := [];
    for i := 0 to n
      invariant |merged| == i
      invariant forall j :: 0 <= j < i ==> merged[j] == MergeOne(metas[j], sentimentPreds[j], topicsPreds[j])
    {
      merged := merged + [MergeOne(metas[i], sentimentPreds[i], topicsPreds[i])];
    }
  }

  // ---------------------------------------------------------------------------
  // generate_analytics: reference definitions

  /** A Python string is truthy when it is present and non-empty. */
  predicate Truthy(o: Option<string>)
  {
    o.Some? && o.value != ""
  }

  predicate IsPositive(m: Merged) { m.sentiment.Some? && Lower(m.sentiment.value) == "positive" }
  predicate IsNegative(m: Merged) { m.sentiment.Some? && Lower(m.sentiment.value) == "negative" }

  /** Whatever is neither positive nor negative counts as neutral. */
  predicate IsNeutral(m: Merged) { !IsPositive(m) && !IsNegative(m) }

  /** The labels are read in any case: `POSITIVE` and `Positive` count as
      positive, `NEGATIVE` and `Negative` as negative. */
  lemma SentimentAnyCase(m: Merged)
    requires m.sentiment.Some?
    ensures m.sentiment.value in {"POSITIVE", "Positive", "positive"} ==> IsPositive(m) && !IsNeutral(m)
    ensures m.sentiment.value in {"NEGATIVE", "Negative", "negative"} ==> IsNegative(m) && !IsNeutral(m)
  {
    var v := m.sentiment.value;
    if v in {"POSITIVE", "Positive", "positive"} {
      LowerCaseVariants(v, "positive");
    }
    if v in {"NEGATIVE", "Negative", "negative"} {
      LowerCaseVariants(v, "negative");
    }
  }

  predicate HasCategory(m: Merged) { Truthy(m.category) }

  function InCategory(cat: string): Merged -> bool { (m: Merged) => m.category == Some(cat) }
  function PositiveIn(cat: string): Merged -> bool { (m: Merged) => m.category == Some(cat) && IsPositive(m) }
  function NegativeIn(cat: string): Merged -> bool { (m: Merged) => m.category == Some(cat) && IsNegative(m) }
  function NeutralIn(cat: string): Merged -> bool { (m: Merged) => m.category == Some(cat) && IsNeutral(m) }

  /** The distinct truthy categories of the comments. */
  ghost function Categories(ms: seq<Merged>): set<string>
  {
    set i | 0 <= i < |ms| && HasCategory(ms[i]) :: ms[i].category.value
  }

  /** The statistics entry of category `cat` over the comments. */
  function CategoryTally(ms: seq<Merged>, cat: string): CategoryStats
  {
    CategoryStats(cat, CountIf(ms, InCategory(cat)), CountIf(ms, PositiveIn(cat)),
                  CountIf(ms, NegativeIn(cat)), CountIf(ms, NeutralIn(cat)))
  }

  function TotalsOf(stats: seq<CategoryStats>): nat
  {
    if stats == [] then 0 else stats[0].totalComments + TotalsOf(stats[1..])
  }

  /** `list(categories_stats.values())` in insertion order. */
  function StatsValues(order: seq<string>, stats: map<string, CategoryStats>): seq<CategoryStats>
    requires forall j :: 0 <= j < |order| ==> order[j] in stats
  {
    seq(|order|, j requires 0 <= j < |order| => stats[order[j]])
  }

  /** One more comment of the category: its total and one of its three
      sentiment counts go up. */
  function Bump(c: CategoryStats, m: Merged): CategoryStats
  {
    c.(totalComments := c.totalComments + 1,
       positiveComments := c.positiveComments + (if IsPositive(m) then 1 else 0),
       negativeComments := c.negativeComments + (if IsNegative(m) then 1 else 0),
       neutralComments := c.neutralComments + (if IsNeutral(m) then 1 else 0))
  }

  // Lemmas about the reference definitions

  /** The three sentiment counts add up to the number of comments. */
  lemma SentimentsPartition(ms: seq<Merged>)
    ensures CountIf(ms, IsPositive) + CountIf(ms, IsNegative) + CountIf(ms, IsNeutral) == |ms|
  {
    CountIfPartition(ms, Always(), IsPositive, IsNegative, IsNeutral);
    CountIfAlways(ms);
  }

  /** Within a category the three sentiment counts add up to its total. */
  lemma CategoryPartition(ms: seq<Merged>, cat: string)
    ensures var c := CategoryTally(ms, cat);
      c.positiveComments + c.negativeComments + c.neutralComments == c.totalComments
  {
    CountIfPartition(ms, InCategory(cat), PositiveIn(cat), NegativeIn(cat), NeutralIn(cat));
  }

  lemma {:induction false} TotalsAppend(bs: seq<CategoryStats>, b: CategoryStats)
    ensures TotalsOf(bs + [b]) == TotalsOf(bs) + b.totalComments
  {
    if bs == [] {
      assert [b][1..] == [];
    } else {
      assert (bs + [b])[1..] == bs[1..] + [b];
      TotalsAppend(bs[1..], b);
    }
  }

  lemma {:induction false} TotalsUpdate(bs: seq<CategoryStats>, p: nat, b: CategoryStats)
    requires p < |bs|
    ensures TotalsOf(bs[p := b]) + bs[p].totalComments == TotalsOf(bs) + b.totalComments
  {
    if p > 0 {
      assert bs[p := b][1..] == bs[1..][p - 1 := b];
      TotalsUpdate(bs[1..], p - 1, b);
    } else {
      assert bs[p := b][1..] == bs[1..];
    }
  }

  /** The tally of a category after one more comment. */
  lemma TallyStep(ms: seq<Merged>, m: Merged, cat: string)
    ensures CategoryTally(ms + [m], cat) ==
      if m.category == Some(cat) then Bump(CategoryTally(ms, cat), m) else CategoryTally(ms, cat)
  {
    CountIfAppend(ms, m, InCategory(cat));
    CountIfAppend(ms, m, PositiveIn(cat));
    CountIfAppend(ms, m, NegativeIn(cat));
    CountIfAppend(ms, m, NeutralIn(cat));
  }

  lemma CategoriesStep(ms: seq<Merged>, m: Merged)
    ensures Categories(ms + [m]) == Categories(ms) + (if HasCategory(m) then {m.category.value} else {})
  {
    var ms' := ms + [m];
    assert ms'[|ms|] == m;
    forall k | k in Categories(ms) ensures k in Categories(ms') {
      var i :| 0 <= i < |ms| && HasCategory(ms[i]) && ms[i].category.value == k;
      assert ms'[i] == ms[i];
    }
  }

  // ---------------------------------------------------------------------------
  // generate_analytics: the two loops

  /** After the first loop: one zeroed entry per category, in `order`. */
  ghost predicate InitInvariant(cats: set<string>, remaining: set<string>,
                                order: seq<string>, stats: map<string, CategoryStats>)
  {
    Distinct(order)
    && remaining <= cats
    && (forall k :: k in stats <==> k in order)
    && (forall k :: k in stats <==> k in cats && k !in remaining)
    && (forall k :: k in stats ==> stats[k] == CategoryStats(k, 0, 0, 0, 0))
  }

  /** After `i` comments of the second loop. */
  ghost predicate CountInvariant(ms: seq<Merged>, i: nat, order: seq<string>, stats: map<string, CategoryStats>,
                                 positive: nat, negative: nat, neutral: nat)
    requires i <= |ms|
  {
    Counted(ms[..i], Categories(ms), order, stats, positive, negative, neutral)
  }

  /** The state of the second loop once `prefix` has been counted: one entry
      per category of the whole input, each tallied over the prefix. */
  ghost predicate Counted(prefix: seq<Merged>, cats: set<string>, order: seq<string>,
                          stats: map<string, CategoryStats>, positive: nat, negative: nat, neutral: nat)
  {
    Distinct(order)
    && (forall k :: k in stats <==> k in order)
    && (forall k :: k in stats <==> k in cats)
    && (forall k :: k in stats ==> stats[k] == CategoryTally(prefix, k))
    && positive == CountIf(prefix, IsPositive)
    && negative == CountIf(prefix, IsNegative)
    && neutral == CountIf(prefix, IsNeutral)
    && TotalsOf(StatsValues(order, stats)) == CountIf(prefix, HasCategory)
  }

  /** Nothing has been counted before the second loop. */
  lemma CountStart(ms: seq<Merged>, order: seq<string>, stats: map<string, CategoryStats>)
    requires InitInvariant(Categories(ms), {}, order, stats)
    ensures CountInvariant(ms, 0, order, stats, 0, 0, 0)
  {
    assert ms[..0] == [];
    var vs := StatsValues(order, stats);
    assert TotalsOf(vs) == 0 by {
      ZeroTotals(vs);
    }
  }

  lemma {:induction false} ZeroTotals(bs: seq<CategoryStats>)
    requires forall j :: 0 <= j < |bs| ==> bs[j].totalComments == 0
    ensures TotalsOf(bs) == 0
  {
    if bs != [] {
      ZeroTotals(bs[1..]);
    }
  }

  /** How the list of entries changes when one entry is replaced. */
  lemma ValuesUpdate(order: seq<string>, stats: map<string, CategoryStats>, k: string, b: CategoryStats)
    requires forall j :: 0 <= j < |order| ==> order[j] in stats
    requires Distinct(order) && k in stats && (forall k' :: k' in stats <==> k' in order)
    ensures forall j :: 0 <= j < |order| ==> order[j] in stats[k := b]
    ensures TotalsOf(StatsValues(order, stats[k := b])) + stats[k].totalComments
      == TotalsOf(StatsValues(order, stats)) + b.totalComments
  {
    var before := StatsValues(order, stats);
    var p :| 0 <= p < |order| && order[p] == k;
    assert StatsValues(order, stats[k := b]) == before[p := b];
    TotalsUpdate(before, p, b);
  }

  /** The entries after one more comment. */
  lemma StatsStep(prefix: seq<Merged>, m: Merged, order: seq<string>,
                  stats: map<string, CategoryStats>, stats': map<string, CategoryStats>)
    requires Distinct(order) && (forall k :: k in stats <==> k in order)
    requires forall k :: k in stats ==> stats[k] == CategoryTally(prefix, k)
    requires HasCategory(m) ==> m.category.value in stats
    requires "" !in stats
    requires TotalsOf(StatsValues(order, stats)) == CountIf(prefix, HasCategory)
    requires stats' == if HasCategory(m) then stats[m.category.value := Bump(stats[m.category.value], m)] else stats
    ensures forall k :: k in stats' <==> k in stats
    ensures forall k :: k in stats' ==> stats'[k] == CategoryTally(prefix + [m], k)
    ensures TotalsOf(StatsValues(order, stats')) == CountIf(prefix + [m], HasCategory)
  {
    forall k | k in stats' ensures stats'[k] == CategoryTally(prefix + [m], k) {
      EntryStep(prefix, m, stats, stats', k);
    }
    CountIfAppend(prefix, m, HasCategory);
    if HasCategory(m) {
      var cat := m.category.value;
      ValuesUpdate(order, stats, cat, stats'[cat]);
    }
  }

  /** One entry after one more comment. */
  lemma EntryStep(prefix: seq<Merged>, m: Merged, stats: map<string, CategoryStats>,
                  stats': map<string, CategoryStats>, k: string)
    requires k in stats && stats[k] == CategoryTally(prefix, k)
    requires HasCategory(m) ==> m.category.value in stats
    requires "" !in stats
    requires stats' == if HasCategory(m) then stats[m.category.value := Bump(stats[m.category.value], m)] else stats
    ensures stats'[k] == CategoryTally(prefix + [m], k)
  {
    TallyStep(prefix, m, k);
    if HasCategory(m) && k == m.category.value {
      assert m.category == Some(k);
    }
  }

  /** One comment of the second loop keeps the invariant. */
  lemma CountStep(ms: seq<Merged>, i: nat, order: seq<string>, stats: map<string, CategoryStats>,
                  positive: nat, negative: nat, neutral: nat, stats': map<string, CategoryStats>)
    requires i < |ms| && CountInvariant(ms, i, order, stats, positive, negative, neutral)
    requires stats' == if HasCategory(ms[i]) then stats[ms[i].category.value := Bump(stats[ms[i].category.value], ms[i])] else stats
    ensures CountInvariant(ms, i + 1, order, stats',
      positive + (if IsPositive(ms[i]) then 1 else 0),
      negative + (if IsNegative(ms[i]) then 1 else 0),
      neutral + (if IsNeutral(ms[i]) then 1 else 0))
  {
    var m := ms[i];
    var prefix := ms[..i];
    assert ms[..i + 1] == prefix + [m];
    SentimentCountsStep(prefix, m);
    if HasCategory(m) {
      assert m.category.value in Categories(ms);
    }
    assert "" !in Categories(ms);
    StatsStep(prefix, m, order, stats, stats');
  }

  /** The three sentiment counts after one more comment. */
  lemma SentimentCountsStep(prefix: seq<Merged>, m: Merged)
    ensures CountIf(prefix + [m], IsPositive) == CountIf(prefix, IsPositive) + (if IsPositive(m) then 1 else 0)
    ensures CountIf(prefix + [m], IsNegative) == CountIf(prefix, IsNegative) + (if IsNegative(m) then 1 else 0)
    ensures CountIf(prefix + [m], IsNeutral) == CountIf(prefix, IsNeutral) + (if IsNeutral(m) then 1 else 0)
  {
    CountIfAppend(prefix, m, IsPositive);
    CountIfAppend(prefix, m, IsNegative);
    CountIfAppend(prefix, m, IsNeutral);
  }

  /** The first loop of `generate_analytics`: a zeroed entry for each
      distinct truthy category, in the iteration order of the set. */
  method InitStats(ms: seq<Merged>) returns (order: seq<string>, stats: map<string, CategoryStats>)
    ensures InitInvariant(Categories(ms), {}, order, stats)
  {
    ghost var cats := Categories(ms);
    var remaining := set i | 0 <= i < |ms| && HasCategory(ms[i]) :: ms[i].category.value;
    order := [];
    stats := map[];
    while remaining != {}
      invariant InitInvariant(cats, remaining, order, stats)
      decreases |remaining|
    {
      var cat :| cat in remaining;
      assert cat !in order;
      order := order + [cat];
      stats := stats[cat := CategoryStats(cat, 0, 0, 0, 0)];
      remaining := remaining - {cat};
    }
  }

  /** The body of the second loop for one comment with a sentiment. */
  method CountComment(m: Merged, stats0: map<string, CategoryStats>, positive0: nat, negative0: nat, neutral0: nat)
    returns (stats: map<string, CategoryStats>, positive: nat, negative: nat, neutral: nat)
    requires m.sentiment.Some?
    requires HasCategory(m) ==> m.category.value in stats0
    ensures positive == positive0 + (if IsPositive(m) then 1 else 0)
    ensures negative == negative0 + (if IsNegative(m) then 1 else 0)
    ensures neutral == neutral0 + (if IsNeutral(m) then 1 else 0)
    ensures stats == if HasCategory(m) then stats0[m.category.value := Bump(stats0[m.category.value], m)] else stats0
  {
    stats, positive, negative, neutral := stats0, positive0, negative0, neutral0;
    var sentiment := Lower(m.sentiment.value);
    if sentiment == "positive" {
      positive := positive + 1;
    } else if sentiment == "negative" {
      negative := negative + 1;
    } else {
      neutral := neutral + 1;
    }
    if m.category.Some? && m.category.value != "" {
      var cat := m.category.value;
      var c := stats[cat];
      if sentiment == "positive" {
        c := c.(totalComments := c.totalComments + 1, positiveComments := c.positiveComments + 1);
      } else if sentiment == "negative" {
        c := c.(totalComments := c.totalComments + 1, negativeComments := c.negativeComments + 1);
      } else {
        c := c.(totalComments := c.totalComments + 1, neutralComments := c.neutralComments + 1);
      }
      assert c == Bump(stats[cat], m);
      stats := stats[cat := c];
    }
  }

  /** The second loop's body at comment `i`, with the invariant it keeps. */
  method CountNext(ms: seq<Merged>, i: nat, order: seq<string>, stats0: map<string, CategoryStats>,
                   positive0: nat, negative0: nat, neutral0: nat)
    returns (stats: map<string, CategoryStats>, positive: nat, negative: nat, neutral: nat)
    requires i < |ms| && ms[i].sentiment.Some?
    requires CountInvariant(ms, i, order, stats0, positive0, negative0, neutral0)
    ensures CountInvariant(ms, i + 1, order, stats, positive, negative, neutral)
  {
    var m := ms[i];
    assert HasCategory(m) ==> m.category.value in Categories(ms);
    stats, positive, negative, neutral := CountComment(m, stats0, positive0, negative0, neutral0);
    CountStep(ms, i, order, stats0, positive0, negative0, neutral0, stats);
  }

  /** `generate_analytics`. The categories are visited in the (unspecified)
      iteration order of a Python set; a comment whose sentiment is `None`
      makes `.lower()` raise, which the result reports as `None`. */
  method GenerateAnalytics(ms: seq<Merged>) returns (r: Option<Analytics>)
    ensures r.Some? <==> forall i :: 0 <= i < |ms| ==> ms[i].sentiment.Some?
    ensures r.Some? ==>
      var a := r.value;
      var cs := a.categoriesStats;
      a.totalComments == |ms|
      && a.positiveComments == CountIf(ms, IsPositive)
      && a.negativeComments == CountIf(ms, IsNegative)
      && a.neutralComments == CountIf(ms, IsNeutral)
      && (forall j :: 0 <= j < |cs| ==> cs[j] == CategoryTally(ms, cs[j].category) && cs[j].category in Categories(ms))
      && (forall k :: k in Categories(ms) ==> CategoryTally(ms, k) in cs)
      && (forall a, b :: 0 <= a < b < |cs| ==> cs[a].category != cs[b].category)
      && TotalsOf(cs) == CountIf(ms, HasCategory)
  {
    var order, stats := InitStats(ms);
    CountStart(ms, order, stats);
    var positive, negative, neutral := 0, 0, 0;
    for i := 0 to |ms|
      invariant CountInvariant(ms, i, order, stats, positive, negative, neutral)
      invariant forall j :: 0 <= j < i ==> ms[j].sentiment.Some?
    {
      var m := ms[i];
      if m.sentiment.None? {
        return None;
      }
      stats, positive, negative, neutral := CountNext(ms, i, order, stats, positive, negative, neutral);
    }
    CountEnd(ms, order, stats, positive, negative, neutral);
    r := Some(Analytics(|ms|, positive, negative, neutral, StatsValues(order, stats)));
  }

  /** After the last comment the counters and the entries are the analytics. */
  lemma CountEnd(ms: seq<Merged>, order: seq<string>, stats: map<string, CategoryStats>,
                 positive: nat, negative: nat, neutral: nat)
    requires CountInvariant(ms, |ms|, order, stats, positive, negative, neutral)
    ensures forall j :: 0 <= j < |order| ==> order[j] in stats
    ensures var a := Analytics(|ms|, positive, negative, neutral, StatsValues(order, stats));
      var cs := a.categoriesStats;
      a.totalComments == |ms|
      && a.positiveComments == CountIf(ms, IsPositive)
      && a.negativeComments == CountIf(ms, IsNegative)
      && a.neutralComments == CountIf(ms, IsNeutral)
      && (forall j :: 0 <= j < |cs| ==> cs[j] == CategoryTally(ms, cs[j].category) && cs[j].category in Categories(ms))
      && (forall k :: k in Categories(ms) ==> CategoryTally(ms, k) in cs)
      && (forall a, b :: 0 <= a < b < |cs| ==> cs[a].category != cs[b].category)
      && TotalsOf(cs) == CountIf(ms, HasCategory)
  {
    assert ms[..|ms|] == ms;
    AnalyticsFacts(ms, order, stats);
  }

  /** The entries listed in `order`: one per category, each its tally. */
  lemma AnalyticsFacts(ms: seq<Merged>, order: seq<string>, stats: map<string, CategoryStats>)
    requires Distinct(order)
    requires forall k :: k in stats <==> k in order
    requires forall k :: k in stats <==> k in Categories(ms)
    requires forall k :: k in stats ==> stats[k] == CategoryTally(ms, k)
    ensures var cs := StatsValues(order, stats);
      (forall j :: 0 <= j < |cs| ==> cs[j] == CategoryTally(ms, cs[j].category) && cs[j].category in Categories(ms))
      && (forall k :: k in Categories(ms) ==> CategoryTally(ms, k) in cs)
      && (forall a, b :: 0 <= a < b < |cs| ==> cs[a].category != cs[b].category)
  {
    var cs := StatsValues(order, stats);
    forall j | 0 <= j < |cs| ensures cs[j].category == order[j] {
      assert cs[j] == stats[order[j]];
    }
    forall k | k in Categories(ms) ensures CategoryTally(ms, k) in cs {
      var j := Find(order, k);
      assert cs[j] == stats[k];
    }
  }

  /** The conservation laws of the analytics: the sentiment counts add up to
      the total, within each category too, and the category totals add up to
      the comments that have a category, which is at most all of them. */
  lemma AnalyticsConservation(ms: seq<Merged>, cs: seq<CategoryStats>)
    requires forall j :: 0 <= j < |cs| ==> cs[j] == CategoryTally(ms, cs[j].category)
    ensures CountIf(ms, IsPositive) + CountIf(ms, IsNegative) + CountIf(ms, IsNeutral) == |ms|
    ensures forall j :: 0 <= j < |cs| ==>
      cs[j].positiveComments + cs[j].negativeComments + cs[j].neutralComments == cs[j].totalComments
    ensures CountIf(ms, HasCategory) <= |ms|
  {
    SentimentsPartition(ms);
    forall j | 0 <= j < |cs|
      ensures cs[j].positiveComments + cs[j].negativeComments + cs[j].neutralComments == cs[j].totalComments
    {
      CategoryPartition(ms, cs[j].category);
    }
    CountIfBound(ms, HasCategory);
  }
}
