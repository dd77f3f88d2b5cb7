/** The request bodies the API accepts, with the field defaults and bounds of
    their declarations, and the required fields of the analysis response.
    Request validation is modelled as a function from the fields present in
    the JSON body to the validated request, or `None` when the body is
    rejected with a validation error. */
module Schemas {
  import opened Base
  import opened ApiTypes

  const MinKeyLength: nat := 10
  const DefaultMaxPosts: int := 10
  const MaxMaxPosts: int := 500
  const DefaultMaxComments: int := 500
  const MaxMaxComments: int := 50000
  const DefaultBatchSize: int := 32
  const MaxBatchSize: int := 128

  datatype ScrapeRequest = ScrapeRequest(
    graphApiKey: string,
    page: string,
    maxPosts: int,
    maxComments: int,
    since: Option<string>,
    until: Option<string>)

  datatype AnalyzeCsvRequest = AnalyzeCsvRequest(filePath: string, batchSize: int)

  /** The bounds `ScrapeRequest` enforces. */
  predicate ValidScrapeRequest(r: ScrapeRequest)
  {
    |r.graphApiKey| >= MinKeyLength
    && 0 < r.maxPosts <= MaxMaxPosts
    && 0 < r.maxComments <= MaxMaxComments
  }

  function Default(o: Option<int>, d: int): int
  {
    if o.Some? then o.value else d
  }

  /** Validation of a scrape body: the two required fields must be present,
      the two counts take their defaults when absent, and the result must lie
      within the bounds. */
  function ParseScrapeRequest(graphApiKey: Option<string>, page: Option<string>,
                              maxPosts: Option<int>, maxComments: Option<int>,
                              since: Option<string>, until: Option<string>): (r: Option<ScrapeRequest>)
    ensures r.Some? <==>
      graphApiKey.Some? && page.Some? && |graphApiKey.value| >= MinKeyLength
      && 0 < Default(maxPosts, DefaultMaxPosts) <= MaxMaxPosts
      && 0 < Default(maxComments, DefaultMaxComments) <= MaxMaxComments
    ensures r.Some? ==>
      ValidScrapeRequest(r.value)
      && r.value.graphApiKey == graphApiKey.value && r.value.page == page.value
      && (maxPosts.None? ==> r.value.maxPosts == DefaultMaxPosts)
      && (maxPosts.Some? ==> r.value.maxPosts == maxPosts.value)
      && (maxComments.None? ==> r.value.maxComments == DefaultMaxComments)
      && (maxComments.Some? ==> r.value.maxComments == maxComments.value)
      && r.value.since == since && r.value.until == until
  {
    if graphApiKey.None? || page.None? then None
    else
      var req := ScrapeRequest(graphApiKey.value, page.value,
                               Default(maxPosts, DefaultMaxPosts),
                               Default(maxComments, DefaultMaxComments), since, until);
      if ValidScrapeRequest(req) then Some(req) else None
  }

  /** The defaults are themselves within the bounds: a body with only a long
      enough key and a page is accepted, with 10 posts and 500 comments. */
  lemma ScrapeDefaultsAccepted(graphApiKey: string, page: string)
    ensures ParseScrapeRequest(Some(graphApiKey), Some(page), None, None, None, None).Some?
      <==> |graphApiKey| >= MinKeyLength
    ensures |graphApiKey| >= MinKeyLength ==>
      var r := ParseScrapeRequest(Some(graphApiKey), Some(page), None, None, None, None).value;
      r.maxPosts == 10 && r.maxComments == 500
  {
  }

  /** Validation of a CSV analysis body: the path is required, the batch size
      defaults to 32 and must lie in 1..128. */
  function ParseAnalyzeCsvRequest(filePath: Option<string>, batchSize: Option<int>): (r: Option<AnalyzeCsvRequest>)
    ensures r.Some? <==> filePath.Some? && 0 < Default(batchSize, DefaultBatchSize) <= MaxBatchSize
    ensures r.Some? ==>
      r.value.filePath == filePath.value
      && r.value.batchSize == Default(batchSize, DefaultBatchSize)
      && 0 < r.value.batchSize <= MaxBatchSize
  {
    if filePath.None? then None
    else
      var size := Default(batchSize, DefaultBatchSize);
      if 0 < size <= MaxBatchSize then Some(AnalyzeCsvRequest(filePath.value, size)) else None
  }

  /** The batch size is always a valid chunk size once validated. */
  lemma BatchSizePositive(filePath: Option<string>, batchSize: Option<int>)
    ensures var r := ParseAnalyzeCsvRequest(filePath, batchSize);
      r.Some? ==> r.value.batchSize >= 1
    ensures ParseAnalyzeCsvRequest(filePath, None) == (if filePath.Some? then Some(AnalyzeCsvRequest(filePath.value, 32)) else None)
  {
  }

  /** The analysis response has three required fields and no defaults: a
      body missing any of them does not validate. */
  function ParseAnalyzeResponse(pageId: Option<string>, commentsAnalyzed: Option<seq<CommentResult>>,
                                analytics: Option<Analytics>): (r: Option<AnalyzeResponse>)
    ensures r.Some? <==> pageId.Some? && commentsAnalyzed.Some? && analytics.Some?
    ensures r.Some? ==> r.value == AnalyzeResponse(pageId.value, commentsAnalyzed.value, analytics.value)
  {
    if pageId.Some? && commentsAnalyzed.Some? && analytics.Some? then
      Some(AnalyzeResponse(pageId.value, commentsAnalyzed.value, analytics.value))
    else None
  }

  /** One analysed comment as the API returns it: the id and text are
      required, the labels and scores are absent when the model gave no
      usable prediction. */
  datatype CommentResult = CommentResult(
    commentId: string,
    text: string,
    sentiment: Option<string>,
    sentimentConf: Option<real>,
    category: Option<string>,
    categoryConf: Option<real>,
    createdTime: Option<string>)

  /** The analysis response; its counts are the `Analytics` record the
      front-end reads. */
  datatype AnalyzeResponse = AnalyzeResponse(
    pageId: string,
    commentsAnalyzed: seq<CommentResult>,
    analytics: Analytics)
}
