/**
 * `translate_articles`: one translation request per scraped article, in
 * order, each collecting either the translated title or, on any failure,
 * the original title.
 *
 * The HTTP round trip is an input: one `Reply` per request, in order.
 */
module Translation {
  import opened Options
  import opened Scraper

  const SourceLanguage: string := "es"
  const TargetLanguage: string := "en"

  /** The JSON body sent for one article: `{"from", "to", "json": {"title", "content"}}`. */
  datatype Request = Request(source: string, target: string, title: string, content: string)

  /** The `trans` member of the reply's JSON object. */
  datatype TransMember =
    | TransMissing                        // no "trans" key: `.get("trans", {})` gives `{}`
    | TransNotObject                      // present but not an object: `.get` raises
    | TransObject(title: Option<string>)  // an object, with or without a string "title"

  /** The reply body as `response.json()` sees it. */
  datatype Body =
    | NotJson                             // `response.json()` raises
    | NotObject                           // valid JSON but not an object: `.get` raises
    | JsonObject(trans: TransMember)

  /** Outcome of `requests.post`: it raised, or it answered with a status and a body. */
  datatype Reply = PostRaised | Replied(status: int, body: Body)

  function RequestFor(item: ArticleRecord): Request {
    Request(SourceLanguage, TargetLanguage, item.title, item.content)
  }

  /** The reply carries a translated title: status 200 and a JSON object with `trans.title`. */
  predicate CarriesTitle(reply: Reply): (r: bool)
    ensures r ==> reply.Replied? && reply.status == 200
    ensures reply.Replied? && (reply.body.NotJson? || reply.body.NotObject?) ==> !r
  {
    && reply.Replied?
    && reply.status == 200
    && reply.body.JsonObject?
    && reply.body.trans.TransObject?
    && reply.body.trans.title.Some?
  }

  /**
   * `translate_articles` over the scraped records and the replies to its
   * requests. Returns the requests sent and the collected titles.
   */
  method TranslateArticles(items: seq<ArticleRecord>, replies: seq<Reply>)
    returns (requests: seq<Request>, titles: seq<string>)
    requires |items| <= |replies|
    ensures |requests| == |items|
    ensures forall k :: 0 <= k < |items| ==>
              requests[k] == Request(SourceLanguage, TargetLanguage, items[k].title, items[k].content)
    ensures |titles| == |items|
    ensures forall k :: 0 <= k < |items| && (replies[k].PostRaised? || replies[k].status != 200) ==>
              titles[k] == items[k].title
    ensures forall k :: 0 <= k < |items| && replies[k].Replied? && replies[k].status == 200 ==>
              titles[k] == if CarriesTitle(replies[k]) then replies[k].body.trans.title.value else items[k].title
  {
    requests, titles := [], [];
    for i := 0 to |items|
      invariant |requests| == |titles| == i
      invariant forall k :: 0 <= k < i ==> requests[k] == RequestFor(items[k])
      invariant forall k :: 0 <= k < i ==>
                  titles[k] == if CarriesTitle(replies[k]) then replies[k].body.trans.title.value else items[k].title
    {
      var item := items[i];
      requests := requests + [RequestFor(item)];
      match replies[i] {
        case PostRaised =>
          // The handler logs the error and keeps the original title.
          titles := titles + [item.title];
        case Replied(status, body) =>
          if status != 200 {
            titles := titles + [item.title];
            continue;
          }
          match body {
            case NotJson =>
              titles := titles + [item.title];
            case NotObject =>
              titles := titles + [item.title];
            case JsonObject(trans) =>
              var title: string;
              match trans {
                case TransMissing =>
                  title := item.title;
                case TransNotObject =>
                  title := item.title;
                case TransObject(translated) =>
                  title := translated.GetOr(item.title);
              }
              titles := titles + [title];
          }
      }
    }
  }
}
