/**
 * The scrape loop of `scrape_opinion_section`: visit the first five
 * `article` elements of the opinion page in document order, build one
 * record per element whose heading could be read, and save the cover image
 * of each such element whose download answered 200.
 *
 * What the browser and the HTTP client return is an input: one
 * `ArticleElement` per `article` element, saying for each field lookup
 * whether it succeeded and, for the image, how the download went.
 */
module Scraper {
  import opened Options

  /** The loop visits positions 0 to 4: `for i in range(5)`. */
  const BatchSize: nat := 5

  /** Stored as `content` when the element has no paragraph. */
  const NoContent: string := "No content available"

  /** The dictionary built for one article: title, content, image_url. */
  datatype ArticleRecord = ArticleRecord(title: string, content: string, imageUrl: Option<string>)

  /** Outcome of `requests.get(img_url)`: it raised, or it answered with a status code. */
  datatype Fetch = FetchRaised | FetchStatus(code: int)

  /** The `img` lookup: not found, or found with its `src` and the download of that URL. */
  datatype ImageLookup = ImageMissing | ImageFound(src: string, fetch: Fetch)

  /** What one `article` element yields: its `h2` text, its `p` text and its image. */
  datatype ArticleElement = ArticleElement(heading: Option<string>, paragraph: Option<string>, image: ImageLookup)

  /**
   * The whole scrape: the records in order, or an abort because fewer than
   * five `article` elements were found (the source raises there, outside
   * every handler).
   */
  datatype ScrapeOutcome = Scraped(records: seq<ArticleRecord>) | Aborted

  /**
   * The record one element contributes: none without a heading; otherwise
   * the heading as title, the paragraph or the sentinel as content, and
   * the image URL unless the download raised.
   */
  function Assemble(e: ArticleElement): (r: Option<ArticleRecord>)
    ensures r.Some? <==> e.heading.Some?
    ensures r.Some? ==> r.value.title == e.heading.value
    ensures r.Some? ==> r.value.content == (if e.paragraph.Some? then e.paragraph.value else NoContent)
    ensures r.Some? ==> (r.value.imageUrl.Some? <==> e.image.ImageFound? && !e.image.fetch.FetchRaised?)
    ensures r.Some? && r.value.imageUrl.Some? ==> r.value.imageUrl.value == e.image.src
  {
    match e.heading
    case None => None
    case Some(title) =>
      var content := e.paragraph.GetOr(NoContent);
      var imageUrl :=
        match e.image
        case ImageMissing => None
        case ImageFound(src, FetchRaised) => None
        case ImageFound(src, FetchStatus(_)) => Some(src);
      Some(ArticleRecord(title, content, imageUrl))
  }

  /**
   * Whether visiting the element writes its cover image: it has a heading
   * (otherwise nothing after the heading lookup runs), an image, and the
   * download answered 200.
   */
  predicate SavesImage(e: ArticleElement): (r: bool)
    ensures r ==> e.image.ImageFound? && Assemble(e).Some? && Assemble(e).value.imageUrl == Some(e.image.src)
  {
    e.heading.Some? && e.image.ImageFound? && e.image.fetch == FetchStatus(200)
  }

  /** Numbers `n` of the files `cover_images/article_n.jpg` written while visiting the first `count` elements. */
  function SavedFiles(articles: seq<ArticleElement>, count: nat): (files: set<nat>)
    requires count <= |articles|
    ensures forall n :: n in files <==> 1 <= n <= count && SavesImage(articles[n - 1])
  {
    set i | 0 <= i < count && SavesImage(articles[i]) :: i + 1
  }

  lemma SavedFilesStep(articles: seq<ArticleElement>, count: nat)
    requires count < |articles|
    ensures SavedFiles(articles, count + 1)
            == SavedFiles(articles, count) + (if SavesImage(articles[count]) then {count + 1} else {})
  {
  }

  /**
   * One pass of the loop body at position `i`: read the heading, then the
   * paragraph, then the image, filling the record field by field, and
   * download the image. Returns the record (none when the heading lookup
   * raised) and the number of the image file written, if any.
   */
  method ProcessArticle(i: nat, article: ArticleElement)
    returns (record: Option<ArticleRecord>, file: Option<nat>)
    ensures record == Assemble(article)
    ensures file == if SavesImage(article) then Some(i + 1) else None
  {
    file := None;
    match article.heading {
      case None =>
        // The heading lookup raised: the article is skipped.
        record := None;
      case Some(title) =>
        var content: string;
        match article.paragraph {
          case Some(text) => content := text;
          case None => content := NoContent;
        }
        var imageUrl: Option<string>;
        match article.image {
          case ImageMissing =>
            imageUrl := None;
          case ImageFound(src, fetch) =>
            imageUrl := Some(src);
            match fetch {
              case FetchRaised =>
                // The handler overwrites the URL already stored.
                imageUrl := None;
              case FetchStatus(code) =>
                if code == 200 {
                  file := Some(i + 1);
                }
            }
        }
        record := Some(ArticleRecord(title, content, imageUrl));
    }
  }

  /** The records assembled from the first `count` elements, in order. */
  function Collected(articles: seq<ArticleElement>, count: nat): (records: seq<ArticleRecord>)
    requires count <= |articles|
    ensures |records| <= count
  {
    if count == 0 then []
    else
      var earlier := Collected(articles, count - 1);
      var record := Assemble(articles[count - 1]);
      if record.Some? then earlier + [record.value] else earlier
  }

  /** The positions among the first `count` whose heading could be read, in ascending order. */
  function HeadingPositions(articles: seq<ArticleElement>, count: nat): (positions: seq<nat>)
    requires count <= |articles|
    ensures forall k :: 0 <= k < |positions| ==> positions[k] < count
    ensures forall k, l :: 0 <= k < l < |positions| ==> positions[k] < positions[l]
    ensures forall i :: i in positions <==> 0 <= i < count && articles[i].heading.Some?
  {
    if count == 0 then []
    else
      var earlier := HeadingPositions(articles, count - 1);
      if articles[count - 1].heading.Some? then earlier + [count - 1] else earlier
  }

  /**
   * Record `k` of the collected records comes from the element at the k-th
   * position that has a heading: one record per such element, in order.
   */
  lemma {:induction false} CollectedInOrder(articles: seq<ArticleElement>, count: nat)
    requires count <= |articles|
    ensures |Collected(articles, count)| == |HeadingPositions(articles, count)|
    ensures forall k :: 0 <= k < |Collected(articles, count)| ==>
              Assemble(articles[HeadingPositions(articles, count)[k]]) == Some(Collected(articles, count)[k])
    decreases count
  {
    if count > 0 {
      CollectedInOrder(articles, count - 1);
      CollectedStep(articles, count - 1, count);
    }
  }

  /** One element more: the inductive step of CollectedInOrder. */
  lemma CollectedStep(articles: seq<ArticleElement>, count: nat, next: nat)
    requires next == count + 1 <= |articles|
    requires |Collected(articles, count)| == |HeadingPositions(articles, count)|
    requires forall k :: 0 <= k < |Collected(articles, count)| ==>
               Assemble(articles[HeadingPositions(articles, count)[k]]) == Some(Collected(articles, count)[k])
    ensures |Collected(articles, next)| == |HeadingPositions(articles, next)|
    ensures forall k :: 0 <= k < |Collected(articles, next)| ==>
              Assemble(articles[HeadingPositions(articles, next)[k]]) == Some(Collected(articles, next)[k])
  {
    var before, earlier := Collected(articles, count), HeadingPositions(articles, count);
    var all, positions := Collected(articles, next), HeadingPositions(articles, next);
    if articles[count].heading.Some? {
      assert all == before + [Assemble(articles[count]).value];
      assert positions == earlier + [count];
    } else {
      assert all == before && positions == earlier;
    }
  }

  /**
   * `scrape_opinion_section` after the page has loaded: the loop over
   * positions 0 to 4. Returns the outcome and the numbers of the image
   * files written, also when the run aborts part way.
   */
  method ScrapeOpinionSection(articles: seq<ArticleElement>)
    returns (outcome: ScrapeOutcome, saved: set<nat>)
    ensures outcome.Scraped? <==> |articles| >= BatchSize
    ensures outcome.Scraped? ==> outcome.records == Collected(articles, BatchSize)
    ensures saved == SavedFiles(articles, if |articles| < BatchSize then |articles| else BatchSize)
  {
    var scraped: seq<ArticleRecord> := [];
    saved := {};
    for i := 0 to BatchSize
      invariant i <= |articles|
      invariant scraped == Collected(articles, i)
      invariant saved == SavedFiles(articles, i)
    {
      if i >= |articles| {
        // `articles[i]` raises IndexError outside every handler.
        outcome := Aborted;
        return;
      }
      SavedFilesStep(articles, i);
      var record, file := ProcessArticle(i, articles[i]);
      if file.Some? {
        saved := saved + {file.value};
      }
      if record.Some? {
        scraped := scraped + [record.value];
      }
    }
    outcome := Scraped(scraped);
  }

  /**
   * File names follow the loop position, not the number of downloads so
   * far: when only the images at positions 0, 2 and 4 answer 200, the
   * files written are `article_1.jpg`, `article_3.jpg` and `article_5.jpg`.
   */
  lemma PositionalFileNames(articles: seq<ArticleElement>)
    requires |articles| == BatchSize
    requires forall i :: 0 <= i < BatchSize ==> articles[i].heading.Some? && articles[i].image.ImageFound?
    requires articles[0].image.fetch == articles[2].image.fetch == articles[4].image.fetch == FetchStatus(200)
    requires articles[1].image.fetch == FetchStatus(404) && articles[3].image.fetch == FetchRaised
    ensures SavedFiles(articles, BatchSize) == {1, 3, 5}
  {
    var files := SavedFiles(articles, BatchSize);
    assert forall n :: n in files <==> n in {1, 3, 5};
  }
}
