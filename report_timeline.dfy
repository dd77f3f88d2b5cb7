/** The monthly sentiment timeline of the report: comments are bucketed by
    the month of their creation time, each bucket counts the positive,
    neutral and negative comments of its month, and the buckets are sorted
    chronologically. Date parsing and the locale month name are abstracted
    into a month key. */
module ReportTimeline {
  import opened Base
  import opened Text
  import opened ApiTypes

  type MonthIndex = m: nat | m < 12

  /** A calendar month; the bucket name `"<short month> <year>"` stands for it. */
  datatype MonthKey = MonthKey(year: int, month: MonthIndex)

  datatype Bucket = Bucket(key: MonthKey, positive: nat, neutral: nat, negative: nat)

  datatype Label = Pos | Neu | Neg | Other

  /** The lower-cased sentiment, when it is one of the three counted ones. */
  function LabelOf(sentiment: string): Label
  {
    var s := Lower(sentiment);
    if s == "positive" then Pos else if s == "neutral" then Neu else if s == "negative" then Neg else Other
  }

  /** The month of a comment: that of its `created_time` when it has a
      non-empty one, otherwise the current month `now`. */
  function CommentMonth(c: CommentAnalysis, monthOf: string -> MonthKey, now: MonthKey): MonthKey
  {
    if c.createdTime.Some? && c.createdTime.value != "" then monthOf(c.createdTime.value) else now
  }

  /** What the reduce looks at: each comment's month and label. */
  function Entries(comments: seq<CommentAnalysis>, monthOf: string -> MonthKey, now: MonthKey): seq<(MonthKey, Label)>
  {
    seq(|comments|, i requires 0 <= i < |comments| => (CommentMonth(comments[i], monthOf, now), LabelOf(comments[i].sentiment)))
  }

  // ---------------------------------------------------------------------------
  // Reference definitions

  /** Number of entries of month `k` with label `l`. */
  function Count(es: seq<(MonthKey, Label)>, k: MonthKey, l: Label): nat
  {
    if es == [] then 0
    else Count(es[..|es| - 1], k, l) + (if es[|es| - 1] == (k, l) then 1 else 0)
  }

  /** Does month `k` occur among the entries? */
  predicate Occurs(es: seq<(MonthKey, Label)>, k: MonthKey)
  {
    exists m :: 0 <= m < |es| && es[m].0 == k
  }

  /** The bucket of month `k` over all entries. */
  function Tally(es: seq<(MonthKey, Label)>, k: MonthKey): Bucket
  {
    Bucket(k, Count(es, k, Pos), Count(es, k, Neu), Count(es, k, Neg))
  }

  function Recognised(e: (MonthKey, Label)): bool { e.1 != Other }

  /** `acc[key][sentiment] += 1` for a counted sentiment; nothing otherwise. */
  function Bump(b: Bucket, l: Label): Bucket
  {
    match l
    case Pos => b.(positive := b.positive + 1)
    case Neu => b.(neutral := b.neutral + 1)
    case Neg => b.(negative := b.negative + 1)
    case Other => b
  }

  function BucketTotal(b: Bucket): nat { b.positive + b.neutral + b.negative }

  function TotalOf(bs: seq<Bucket>): nat
  {
    if bs == [] then 0 else BucketTotal(bs[0]) + TotalOf(bs[1..])
  }

  /** Sort key: months in calendar order. This is the order
      `new Date(name).getTime()` gives the "Mon YYYY" names when the month
      names are English ones that `Date` can parse back. */
  function Chrono(b: Bucket): int { b.key.year * 12 + b.key.month }

  // ---------------------------------------------------------------------------
  // Lemmas about the reference definitions

  lemma TallyStep(es: seq<(MonthKey, Label)>, k': MonthKey, l: Label, k: MonthKey)
    ensures Tally(es + [(k', l)], k) == if k == k' then Bump(Tally(es, k), l) else Tally(es, k)
  {
    assert (es + [(k', l)])[..|es|] == es;
  }

  lemma {:induction false} TotalAppend(bs: seq<Bucket>, b: Bucket)
    ensures TotalOf(bs + [b]) == TotalOf(bs) + BucketTotal(b)
  {
    if bs == [] {
      assert [b][1..] == [];
    } else {
      assert (bs + [b])[1..] == bs[1..] + [b];
      TotalAppend(bs[1..], b);
    }
  }

  lemma {:induction false} TotalUpdate(bs: seq<Bucket>, p: nat, b: Bucket)
    requires p < |bs|
    ensures TotalOf(bs[p := b]) + BucketTotal(bs[p]) == TotalOf(bs) + BucketTotal(b)
  {
    if p > 0 {
      assert bs[p := b][1..] == bs[1..][p - 1 := b];
      TotalUpdate(bs[1..], p - 1, b);
    } else {
      assert bs[p := b][1..] == bs[1..];
    }
  }

  lemma {:induction false} TotalInsert(x: Bucket, s: seq<Bucket>)
    ensures TotalOf(InsertBy(x, s, Chrono)) == TotalOf(s) + BucketTotal(x)
  {
    if s != [] && Chrono(x) > Chrono(s[0]) {
      TotalInsert(x, s[1..]);
      assert ([s[0]] + InsertBy(x, s[1..], Chrono))[1..] == InsertBy(x, s[1..], Chrono);
    } else if s == [] {
      assert InsertBy(x, s, Chrono) == [x];
      assert [x][1..] == [];
    } else {
      assert InsertBy(x, s, Chrono) == [x] + s;
      assert ([x] + s)[1..] == s;
    }
  }

  /** Sorting does not change the total. */
  lemma {:induction false} TotalSort(s: seq<Bucket>)
    ensures TotalOf(SortBy(s, Chrono)) == TotalOf(s)
  {
    if s != [] {
      TotalSort(s[1..]);
      TotalInsert(s[0], SortBy(s[1..], Chrono));
    }
  }

  // ---------------------------------------------------------------------------
  // The reduce

  /** `Object.values(acc)`: the buckets in the order their months were first seen. */
  function Values(order: seq<MonthKey>, acc: map<MonthKey, Bucket>): seq<Bucket>
    requires forall j :: 0 <= j < |order| ==> order[j] in acc
  {
    seq(|order|, j requires 0 <= j < |order| => acc[order[j]])
  }

  /** The bucket map after `i` comments: exactly the months seen so far, each
      with its tally, listed once in `order`, with the right grand total. */
  ghost predicate AccInvariant(es: seq<(MonthKey, Label)>, order: seq<MonthKey>, acc: map<MonthKey, Bucket>)
  {
    Distinct(order)
    && (forall k :: k in acc <==> k in order)
    && (forall k :: k in acc <==> Occurs(es, k))
    && (forall k :: k in acc ==> acc[k] == Tally(es, k))
    && TotalOf(Values(order, acc)) == CountIf(es, Recognised)
  }

  lemma OccursStep(es: seq<(MonthKey, Label)>, e: (MonthKey, Label), k: MonthKey)
    ensures Occurs(es + [e], k) <==> k == e.0 || Occurs(es, k)
  {
    var es' := es + [e];
    if Occurs(es', k) && k != e.0 {
      var m :| 0 <= m < |es'| && es'[m].0 == k;
      assert m < |es| && es[m] == es'[m];
    }
    if Occurs(es, k) {
      var m :| 0 <= m < |es| && es[m].0 == k;
      assert es'[m] == es[m];
    }
    assert es'[|es|] == e;
  }

  lemma {:induction false} CountAbsent(es: seq<(MonthKey, Label)>, k: MonthKey, l: Label)
    requires !Occurs(es, k)
    ensures Count(es, k, l) == 0
  {
    if es != [] {
      var init := es[..|es| - 1];
      forall m | 0 <= m < |init| ensures init[m].0 != k {
        assert init[m] == es[m];
      }
      CountAbsent(init, k, l);
      assert es[|es| - 1].0 != k;
    }
  }

  /** A month that has not occurred has the empty tally. */
  lemma TallyAbsent(es: seq<(MonthKey, Label)>, k: MonthKey)
    requires !Occurs(es, k)
    ensures Tally(es, k) == Bucket(k, 0, 0, 0)
  {
    CountAbsent(es, k, Pos);
    CountAbsent(es, k, Neu);
    CountAbsent(es, k, Neg);
  }

  /** The grand total after one step. */
  lemma TotalStep(order: seq<MonthKey>, acc: map<MonthKey, Bucket>, k: MonthKey, b: Bucket,
                  order': seq<MonthKey>)
    requires forall j :: 0 <= j < |order| ==> order[j] in acc
    requires Distinct(order) && (k in acc <==> k in order)
    requires order' == if k in acc then order else order + [k]
    ensures forall j :: 0 <= j < |order'| ==> order'[j] in acc[k := b]
    ensures TotalOf(Values(order', acc[k := b]))
      == TotalOf(Values(order, acc)) + BucketTotal(b) - (if k in acc then BucketTotal(acc[k]) else 0)
  {
    var before := Values(order, acc);
    var acc' := acc[k := b];
    if k in acc {
      var p :| 0 <= p < |order| && order[p] == k;
      assert Values(order', acc') == before[p := b];
      TotalUpdate(before, p, b);
    } else {
      assert Values(order', acc') == before + [b] by {
        forall j | 0 <= j < |order| ensures order[j] != k {
          assert order[j] in acc;
        }
      }
      TotalAppend(before, b);
    }
  }

  /** One bucket after one step of the reduce. */
  lemma BucketStep(es: seq<(MonthKey, Label)>, acc: map<MonthKey, Bucket>, e: (MonthKey, Label),
                   acc': map<MonthKey, Bucket>, k: MonthKey)
    requires forall k :: k in acc <==> Occurs(es, k)
    requires forall k :: k in acc ==> acc[k] == Tally(es, k)
    requires acc' == (var start := if e.0 in acc then acc[e.0] else Bucket(e.0, 0, 0, 0);
                      acc[e.0 := Bump(start, e.1)])
    requires k in acc'
    ensures acc'[k] == Tally(es + [e], k)
  {
    TallyStep(es, e.0, e.1, k);
    if k == e.0 && e.0 !in acc {
      TallyAbsent(es, k);
    }
  }

  /** One step of the reduce keeps the invariant. */
  lemma AccStep(es: seq<(MonthKey, Label)>, order: seq<MonthKey>, acc: map<MonthKey, Bucket>,
                e: (MonthKey, Label), order': seq<MonthKey>, acc': map<MonthKey, Bucket>)
    requires AccInvariant(es, order, acc)
    requires order' == if e.0 in acc then order else order + [e.0]
    requires acc' == (var start := if e.0 in acc then acc[e.0] else Bucket(e.0, 0, 0, 0);
                      acc[e.0 := Bump(start, e.1)])
    ensures AccInvariant(es + [e], order', acc')
  {
    var es' := es + [e];
    forall k ensures Occurs(es', k) <==> k == e.0 || Occurs(es, k) {
      OccursStep(es, e, k);
    }
    forall k | k in acc' ensures acc'[k] == Tally(es', k) {
      BucketStep(es, acc, e, acc', k);
    }
    assert Distinct(order') by {
      if e.0 !in acc {
        assert e.0 !in order;
      }
    }
    GrandTotalStep(es, order, acc, e, order', acc');
  }

  /** The grand total after one step of the reduce. */
  lemma GrandTotalStep(es: seq<(MonthKey, Label)>, order: seq<MonthKey>, acc: map<MonthKey, Bucket>,
                       e: (MonthKey, Label), order': seq<MonthKey>, acc': map<MonthKey, Bucket>)
    requires Distinct(order) && (forall k :: k in acc <==> k in order)
    requires TotalOf(Values(order, acc)) == CountIf(es, Recognised)
    requires order' == if e.0 in acc then order else order + [e.0]
    requires acc' == (var start := if e.0 in acc then acc[e.0] else Bucket(e.0, 0, 0, 0);
                      acc[e.0 := Bump(start, e.1)])
    ensures forall j :: 0 <= j < |order'| ==> order'[j] in acc'
    ensures TotalOf(Values(order', acc')) == CountIf(es + [e], Recognised)
  {
    var start := if e.0 in acc then acc[e.0] else Bucket(e.0, 0, 0, 0);
    var b := Bump(start, e.1);
    assert BucketTotal(b) == BucketTotal(start) + (if Recognised(e) then 1 else 0);
    assert acc' == acc[e.0 := b];
    CountIfAppend(es, e, Recognised);
    TotalStep(order, acc, e.0, b, order');
  }

  /** The reduce's callback for the `i`-th comment: its month's bucket is
      created when missing, then counts the comment. */
  method Accumulate(ghost es: seq<(MonthKey, Label)>, ghost i: nat, c: CommentAnalysis,
                    monthOf: string -> MonthKey, now: MonthKey,
                    order0: seq<MonthKey>, acc0: map<MonthKey, Bucket>)
    returns (order: seq<MonthKey>, acc: map<MonthKey, Bucket>)
    requires i < |es| && es[i] == (CommentMonth(c, monthOf, now), LabelOf(c.sentiment))
    requires AccInvariant(es[..i], order0, acc0)
    ensures AccInvariant(es[..i + 1], order, acc)
  {
    order, acc := order0, acc0;
    var key := CommentMonth(c, monthOf, now);
    var lab := LabelOf(c.sentiment);
    if key !in acc {
      acc := acc[key := Bucket(key, 0, 0, 0)];
      order := order + [key];
    }
    acc := acc[key := Bump(acc[key], lab)];
    assert es[..i + 1] == es[..i] + [es[i]];
    AccStep(es[..i], order0, acc0, es[i], order, acc);
  }

  /** The timeline of `useDerivedData`: the reduce over the comments followed
      by the chronological sort of `Object.values`. Every bucket is the tally
      of its month, every month of a comment has a bucket, there is one
      bucket per month, the buckets are in calendar order, and the counts
      add up to the comments with a recognised sentiment (the others only
      create their month's bucket). */
  method Timeline(comments: seq<CommentAnalysis>, monthOf: string -> MonthKey, now: MonthKey)
    returns (timeline: seq<Bucket>)
    ensures var es := Entries(comments, monthOf, now);
      (forall b :: b in timeline ==> b == Tally(es, b.key) && Occurs(es, b.key))
      && (forall m :: 0 <= m < |es| ==> Tally(es, es[m].0) in timeline)
      && (forall a, b :: 0 <= a < b < |timeline| ==> Chrono(timeline[a]) < Chrono(timeline[b]))
      && TotalOf(timeline) == CountIf(es, Recognised)
  {
    ghost var es := Entries(comments, monthOf, now);
    var order: seq<MonthKey> := [];
    var acc: map<MonthKey, Bucket> := map[];
    for i := 0 to |comments|
      invariant AccInvariant(es[..i], order, acc)
    {
      order, acc := Accumulate(es, i, comments[i], monthOf, now, order, acc);
    }
    assert es[..|comments|] == es;
    var values := Values(order, acc);
    timeline := SortBy(values, Chrono);
    TimelineFacts(es, order, acc, values, timeline);
  }

  /** The buckets of `Object.values(acc)`: one per month seen, each its tally. */
  lemma ValuesFacts(es: seq<(MonthKey, Label)>, order: seq<MonthKey>, acc: map<MonthKey, Bucket>)
    requires AccInvariant(es, order, acc)
    ensures var values := Values(order, acc);
      (forall j :: 0 <= j < |values| ==> values[j] == Tally(es, order[j]) && Occurs(es, order[j]))
      && (forall m :: 0 <= m < |es| ==> Tally(es, es[m].0) in values)
      && Distinct(values)
  {
    var values := Values(order, acc);
    forall m | 0 <= m < |es| ensures Tally(es, es[m].0) in values {
      var k := es[m].0;
      assert Occurs(es, k);
      var j :| 0 <= j < |order| && order[j] == k;
      assert values[j] == Tally(es, k);
    }
    forall a, b | 0 <= a < b < |values| ensures values[a] != values[b] {
      assert values[a].key == order[a] && values[b].key == order[b];
    }
  }

  lemma ChronoInjective(x: Bucket, y: Bucket)
    requires x.key != y.key
    ensures Chrono(x) != Chrono(y)
  {
    if x.key.year < y.key.year {
      assert Chrono(x) < x.key.year * 12 + 12 <= Chrono(y);
    } else if x.key.year > y.key.year {
      assert Chrono(y) < y.key.year * 12 + 12 <= Chrono(x);
    }
  }

  /** Sorting buckets of distinct months by `Chrono` orders them strictly. */
  lemma SortedStrictly(values: seq<Bucket>, timeline: seq<Bucket>)
    requires forall a, b :: 0 <= a < b < |values| ==> values[a].key != values[b].key
    requires timeline == SortBy(values, Chrono)
    ensures forall a, b :: 0 <= a < b < |timeline| ==> Chrono(timeline[a]) < Chrono(timeline[b])
  {
    assert Distinct(values);
    DistinctPermutation(values, timeline);
    forall a, b | 0 <= a < b < |timeline| ensures Chrono(timeline[a]) < Chrono(timeline[b]) {
      assert timeline[a] in multiset(values) && timeline[b] in multiset(values);
      var ja :| 0 <= ja < |values| && values[ja] == timeline[a];
      var jb :| 0 <= jb < |values| && values[jb] == timeline[b];
      assert ja != jb;
      ChronoInjective(timeline[a], timeline[b]);
    }
  }

  lemma TimelineFacts(es: seq<(MonthKey, Label)>, order: seq<MonthKey>, acc: map<MonthKey, Bucket>,
                      values: seq<Bucket>, timeline: seq<Bucket>)
    requires AccInvariant(es, order, acc)
    requires values == Values(order, acc) && timeline == SortBy(values, Chrono)
    ensures forall b :: b in timeline ==> b == Tally(es, b.key) && Occurs(es, b.key)
    ensures forall m :: 0 <= m < |es| ==> Tally(es, es[m].0) in timeline
    ensures forall a, b :: 0 <= a < b < |timeline| ==> Chrono(timeline[a]) < Chrono(timeline[b])
    ensures TotalOf(timeline) == CountIf(es, Recognised)
  {
    ValuesFacts(es, order, acc);
    assert multiset(timeline) == multiset(values);
    forall b | b in timeline ensures b == Tally(es, b.key) && Occurs(es, b.key) {
      assert b in multiset(values);
    }
    forall m | 0 <= m < |es| ensures Tally(es, es[m].0) in timeline {
      assert Tally(es, es[m].0) in multiset(values);
    }
    forall a, b | 0 <= a < b < |values| ensures values[a].key != values[b].key {
      assert values[a].key == order[a] && values[b].key == order[b];
    }
    SortedStrictly(values, timeline);
    TotalSort(values);
  }
}
