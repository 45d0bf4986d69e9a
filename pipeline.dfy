/**
 * The run as a whole: language test, scrape, translation of the scraped
 * titles, word analysis of the translated titles. Browser setup and
 * teardown are not part of this model.
 */
module Pipeline {
  import opened Options
  import opened Scraper
  import opened Translation
  import opened WordFrequency
  import opened Navigation

  /**
   * How the run ends. Image files written before a failure stay on disk,
   * so both outcomes carry the numbers of the files written.
   */
  datatype RunOutcome =
    | Completed(records: seq<ArticleRecord>, saved: set<nat>, titles: seq<string>, report: Report)
    | Failed(saved: set<nat>)

  /**
   * The body of the `__main__` block. `replies[k]` answers the k-th
   * translation request; at most five requests are made.
   */
  method Run(lang: Option<string>, articles: seq<ArticleElement>, replies: seq<Reply>)
    returns (outcome: RunOutcome)
    requires BatchSize <= |replies|
    ensures outcome.Completed? <==> lang.Some? && |articles| >= BatchSize
    ensures outcome.saved == if lang.None? then {} else SavedFiles(articles, if |articles| < BatchSize then |articles| else BatchSize)
    ensures outcome.Completed? ==> outcome.records == Collected(articles, BatchSize)
    ensures outcome.Completed? ==> |outcome.titles| == |outcome.records|
    ensures outcome.Completed? ==> forall k :: 0 <= k < |outcome.records| ==>
              outcome.titles[k] == if CarriesTitle(replies[k]) then replies[k].body.trans.title.value
                                   else outcome.records[k].title
    ensures outcome.Completed? ==> outcome.report == AnalyzeWords(outcome.titles)
  {
    var check := CheckLanguage(lang);
    if check == Crashed {
      return Failed({});
    }
    var scraped, saved := ScrapeOpinionSection(articles);
    if scraped.Aborted? {
      return Failed(saved);
    }
    var records := scraped.records;
    var requests, titles := TranslateArticles(records, replies);
    outcome := Completed(records, saved, titles, AnalyzeWords(titles));
  }
}
