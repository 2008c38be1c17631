/**
 * What the handlers of both Flask entry points share, over one module-level client.
 * A handler reads its query arguments, answers 400 with an `{"error": ...}` body
 * when they are missing or malformed, and otherwise answers with the client's
 * result; an exception the client raises is not caught and becomes Flask's 500.
 */
module Routes {
  import opened Wrappers
  import opened Text
  import opened Upstream
  import opened Search
  import opened WikiTool

  /** A handler's answer: 200 with a JSON body, 400 with an error message, or 500 from an uncaught error. */
  datatype Response<T> = Ok(body: T) | BadRequest(error: string) | ServerError(cause: Error)

  const WikiRequired := "wiki param required"
  const IdNotInteger := "id must be an integer"
  const SearchArgsRequired := "wiki and q param required"

  /** `request.args.get(key)`: the argument's value, or None when it is absent. */
  function Arg(args: map<string, string>, key: string): (a: Option<string>)
    ensures a.Some? <==> key in args
    ensures a.Some? ==> a.value == args[key]
  {
    if key in args then Some(args[key]) else None
  }

  /** A client result as the handler answers it: the value with 200, an uncaught error as 500. */
  function Answer<T>(r: Result<T, Error>): (resp: Response<T>)
    ensures r.Success? <==> resp.Ok?
    ensures resp.Ok? ==> resp.body == r.value
    ensures resp.ServerError? ==> resp.cause == r.error
  {
    match r
    case Success(v) => Ok(v)
    case Failure(e) => ServerError(e)
  }

  /** The arguments of `GET /page` are missing: no `wiki`, or neither `path` nor `id`. */
  predicate PageArgsMissing(args: map<string, string>) {
    !Truthy(Arg(args, "wiki")) || (!Truthy(Arg(args, "path")) && !Truthy(Arg(args, "id")))
  }

  /**
   * How `GET /page` answers once its arguments are present: a non-empty `path` wins over
   * `id`; otherwise `id` must read as an integer (400 if not). Either way exactly one
   * selector reaches the client.
   */
  ghost predicate ServesPage(tool: WikiClient, args: map<string, string>, up: Service, r: Response<Option<string>>)
    requires !PageArgsMissing(args)
  {
    if Truthy(Arg(args, "path")) then
      r == Answer(tool.GetPageContent(args["wiki"], Some(args["path"]), None, up))
    else
      match ParseInt(args["id"])
      case None => r == BadRequest(IdNotInteger)
      case Some(n) => r == Answer(tool.GetPageContent(args["wiki"], None, Some(n), up))
  }

  /**
   * Since exactly one selector reaches the client, and an id that `int()` accepts is within
   * the digit limit, the client never refuses the call: the only 500 a served page can give
   * is a failed request.
   */
  lemma ServedPageNeverRefused(tool: WikiClient, args: map<string, string>, up: Service, r: Response<Option<string>>)
    requires !PageArgsMissing(args) && ServesPage(tool, args, up, r)
    ensures r.ServerError? ==> r.cause.RequestError?
    ensures r.BadRequest? ==> r.error == IdNotInteger && !Truthy(Arg(args, "path")) && ParseInt(args["id"]).None?
  {
    if Truthy(Arg(args, "path")) {
      assert !SelectorRejected(Some(args["path"]), None);
    } else if ParseInt(args["id"]).Some? {
      ParseIntWithinLimit(args["id"]);
      assert !SelectorRejected(None, Some(ParseInt(args["id"]).value));
    }
  }

  /**
   * A page served by id is the one its canonical decimal form names: `id=str(n)` with no
   * `path`, for an `n` within the digit limit, requests page `n` and answers with its content.
   */
  lemma ServedPageById(tool: WikiClient, args: map<string, string>, up: Service, r: Response<Option<string>>, n: int)
    requires Truthy(Arg(args, "wiki")) && !Truthy(Arg(args, "path"))
    requires Arg(args, "id") == Some(IntToString(n)) && Decimals(n) <= MaxStrDigits
    ensures !PageArgsMissing(args)
    ensures ServesPage(tool, args, up, r) <==>
      r == match up.page(tool.PageRequest(args["wiki"], None, Some(n)))
        case Failure(m) => ServerError(RequestError(m))
        case Success(body) => Ok(body.content)
  {
    ParseIntOfIntToString(n);
    assert !SelectorRejected(None, Some(n));
  }

  /** What `/search` answers once both arguments are present: one snippet per matching page. */
  function SearchAnswer(q: string, crawl: Result<seq<CrawlEntry>, Error>): (r: Response<seq<SearchMatch>>)
    ensures !r.BadRequest?
    ensures crawl.Failure? <==> r.ServerError?
    ensures r.Ok? ==> |r.body| == |SearchOf(q, crawl.value)|
    ensures r.Ok? ==> forall k :: 0 <= k < |r.body| ==> r.body[k] == ToMatch(SearchOf(q, crawl.value)[k])
  {
    match crawl
    case Failure(e) => ServerError(e)
    case Success(entries) => Ok(Snippets(SearchOf(q, entries)))
  }

  /**
   * Each snippet `/search` returns belongs to a crawled page whose fetch succeeded,
   * that had content containing `q`, and is that content cut to at most 250 characters;
   * every matching entry gives one, so there are as many snippets as matches and never
   * more than pages in the listing.
   */
  lemma SearchRouteSnippets(tool: WikiClient, wiki: string, q: string, up: Service, pages: seq<PageRef>)
    requires q != ""
    requires tool.ListPages(wiki, up) == Success(pages)
    ensures var r := SearchAnswer(q, tool.Crawl(wiki, up));
      var entries := tool.CrawlOf(wiki, up, pages);
      && r.Ok?
      && |r.body| == |SearchOf(q, entries)| <= |entries| <= |pages|
      && forall k :: 0 <= k < |r.body| ==>
        var e := SearchOf(q, entries)[k];
        && e in entries
        && Matches(q, e) && e.content.Some? && e.error.None?
        && r.body[k].path == e.path
        && r.body[k].snippet <= e.content.value
        && |r.body[k].snippet| == if |e.content.value| < SnippetLength then |e.content.value| else SnippetLength
  {
    var entries := tool.CrawlOf(wiki, up, pages);
    SearchOfLength(q, entries);
    CrawlOfLength(tool, wiki, up, pages);
    SearchOfSelectsMatches(q, entries);
    SearchSkipsFailedPages(tool, wiki, up, pages, q);
    var idx := MatchIndices(q, entries);
    assert forall k :: 0 <= k < |idx| ==> idx[k] < |entries| && Matches(q, entries[idx[k]]);
  }
}
