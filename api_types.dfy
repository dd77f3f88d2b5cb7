/** The records the front-end exchanges with the analysis API, as declared
    by its request hook: the scrape request, one analysed comment, the
    per-category counts, the overall analytics and the whole response. */
module ApiTypes {
  import opened Base
  import opened Text

  /** The scrape request body. The two counts are what `parseInt` made of
      the form fields; an absent optional field is left out of the JSON. */
  datatype ScrapeAnalyzeRequest = ScrapeAnalyzeRequest(
    graphApiKey: string,
    page: string,
    maxPosts: Option<JsInt>,
    maxComments: Option<JsInt>,
    since: Option<string>,
    until: Option<string>)

  /** One analysed comment. The two confidences arrive as JSON numbers, or as
      `null` when the API had no prediction, hence the options. */
  datatype CommentAnalysis = CommentAnalysis(
    commentId: string,
    text: string,
    sentiment: string,
    sentimentConf: Option<real>,
    category: string,
    categoryConf: Option<real>,
    createdTime: Option<string>)

  datatype CategoryStats = CategoryStats(
    category: string,
    totalComments: nat,
    positiveComments: nat,
    negativeComments: nat,
    neutralComments: nat)

  datatype Analytics = Analytics(
    totalComments: nat,
    positiveComments: nat,
    negativeComments: nat,
    neutralComments: nat,
    categoriesStats: seq<CategoryStats>)

  datatype ScrapeAnalyzeResponse = ScrapeAnalyzeResponse(
    pageId: string,
    commentsAnalyzed: seq<CommentAnalysis>,
    analytics: Analytics)
}
