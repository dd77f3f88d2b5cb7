/** The in-memory store of the latest analysis result (not persisted). */
module AnalysisStore {
  import opened Base
  import opened ApiTypes

  class AnalysisState {
    var pageId: string
    var analytics: Option<Analytics>
    var comments: seq<CommentAnalysis>

    /** The empty state: no page, no analytics, no comments. */
    predicate IsEmpty()
      reads this
    {
      pageId == [] && analytics.None? && comments == []
    }

    /** The state the store starts in. */
    constructor ()
      ensures IsEmpty()
    {
      pageId := [];
      analytics := None;
      comments := [];
    }

    /** Replaces the three parts of the state by those of a response. */
    method SetAnalysis(data: ScrapeAnalyzeResponse)
      modifies this
      ensures pageId == data.pageId
      ensures analytics == Some(data.analytics)
      ensures comments == data.commentsAnalyzed
    {
      pageId := data.pageId;
      analytics := Some(data.analytics);
      comments := data.commentsAnalyzed;
    }

    /** Returns the store to its initial state. */
    method ResetAnalysis()
      modifies this
      ensures IsEmpty()
    {
      pageId := [];
      analytics := None;
      comments := [];
    }
  }

  /** Setting the same result twice leaves the store as setting it once:
      `once` is the state after the first call, and the second call ends in
      that same state. */
  method SetTwice(store: AnalysisState, data: ScrapeAnalyzeResponse)
    returns (once: (string, Option<Analytics>, seq<CommentAnalysis>))
    modifies store
    ensures once == (data.pageId, Some(data.analytics), data.commentsAnalyzed)
    ensures (store.pageId, store.analytics, store.comments) == once
  {
    store.SetAnalysis(data);
    once := (store.pageId, store.analytics, store.comments);
    store.SetAnalysis(data);
  }

  /** A reset after a result leaves the store as it started. */
  method SetThenReset(store: AnalysisState, data: ScrapeAnalyzeResponse)
    modifies store
    ensures store.IsEmpty()
  {
    store.SetAnalysis(data);
    store.ResetAnalysis();
  }
}
