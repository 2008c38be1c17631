/**
 * The handlers of `app_server.py`, the second Flask entry point: `/pages`, `/page` and
 * `/search` over the module-level client.
 */
module AppServer {
  import opened Wrappers
  import opened Text
  import opened Upstream
  import opened Search
  import opened WikiTool
  import opened Routes
  import App

  /** This entry point's message when `/page` is missing its arguments. */
  const PageArgsRequired := "wiki and (path or id param required)"

  /** `list_pages_route`: 400 exactly when `wiki` is absent or empty, else the wiki's page listing. */
  function ListPagesRoute(tool: WikiClient, args: map<string, string>, up: Service): (r: Response<seq<PageRef>>)
    ensures r == BadRequest(WikiRequired) <==> !Truthy(Arg(args, "wiki"))
    ensures Truthy(Arg(args, "wiki")) ==>
      var req := tool.ListPagesRequest(args["wiki"]);
      && (r.Ok? <==> up.pages(req).Success?)
      && (r.Ok? ==> r.body == up.pages(req).value.value.GetOr([]))
      && (r.ServerError? ==> r.cause == RequestError(up.pages(req).error))
  {
    var wiki := Arg(args, "wiki");
    if !Truthy(wiki) then BadRequest(WikiRequired)
    else Answer(tool.ListPages(wiki.value, up))
  }

  /** `get_page`: 400 exactly when the arguments are missing, otherwise the page as `ServesPage` describes. */
  function GetPage(tool: WikiClient, args: map<string, string>, up: Service): (r: Response<Option<string>>)
    ensures r == BadRequest(PageArgsRequired) <==> PageArgsMissing(args)
    ensures !PageArgsMissing(args) ==> ServesPage(tool, args, up, r)
  {
    var wiki := Arg(args, "wiki");
    var pagePath := Arg(args, "path");
    var pageId := Arg(args, "id");
    if !Truthy(wiki) || (!Truthy(pagePath) && !Truthy(pageId)) then BadRequest(PageArgsRequired)
    else if Truthy(pagePath) then
      Answer(tool.GetPageContent(wiki.value, pagePath, None, up))
    else
      match ParseInt(pageId.value)
      case None => BadRequest(IdNotInteger)
      case Some(n) => Answer(tool.GetPageContent(wiki.value, None, Some(n), up))
  }

  /**
   * `search_route`: 400 when either argument is absent or empty; otherwise the crawl's entries
   * are scanned in order and each one whose content contains `q` (ignoring case) contributes
   * its path and the first 250 characters of its content; a failed listing is a 500.
   */
  method SearchRoute(tool: WikiClient, args: map<string, string>, up: Service)
    returns (r: Response<seq<SearchMatch>>)
    ensures r == BadRequest(SearchArgsRequired) <==> !Truthy(Arg(args, "wiki")) || !Truthy(Arg(args, "q"))
    ensures Truthy(Arg(args, "wiki")) && Truthy(Arg(args, "q")) ==>
      r == SearchAnswer(args["q"], tool.Crawl(args["wiki"], up))
  {
    var wiki := Arg(args, "wiki");
    var keyword := Arg(args, "q");
    if !Truthy(wiki) || !Truthy(keyword) {
      return BadRequest(SearchArgsRequired);
    }
    var crawled := tool.CrawlWiki(wiki.value, up);
    if crawled.Failure? {
      return ServerError(crawled.error);
    }
    var pages := crawled.value;
    var matches: seq<SearchMatch> := [];
    var lower := Lower(keyword.value);
    var i := 0;
    while i < |pages|
      invariant 0 <= i <= |pages|
      invariant matches == Snippets(SearchOf(keyword.value, pages[..i]))
    {
      assert pages[..i + 1][..i] == pages[..i];
      var content := OrEmpty(pages[i].content);
      if Contains(lower, Lower(content)) {
        SnippetsSnoc(SearchOf(keyword.value, pages[..i]), pages[i]);
        matches := matches + [SearchMatch(pages[i].path, Take(content, SnippetLength))];
      }
      i := i + 1;
    }
    assert pages[..i] == pages;
    return Ok(matches);
  }

  /**
   * The two entry points answer `/page` identically except for the wording of the
   * missing-argument message.
   */
  lemma GetPageMatchesApp(tool: WikiClient, args: map<string, string>, up: Service)
    ensures PageArgsMissing(args) ==>
      App.GetPage(tool, args, up) == BadRequest(App.PageArgsRequired) &&
      GetPage(tool, args, up) == BadRequest(PageArgsRequired)
    ensures !PageArgsMissing(args) ==> App.GetPage(tool, args, up) == GetPage(tool, args, up)
  {
  }
}
