/**
 * The Azure DevOps Wiki client: credential check and Basic authentication header,
 * the shape of each request it sends, how responses are read back, the crawl of a
 * whole wiki and the keyword search over it, and the create-or-update call.
 */
module WikiTool {
  import opened Wrappers
  import opened Text
  import Base64
  import Percent
  import opened Upstream
  import opened Search

  const DefaultApiVersion := "7.1-preview.2"
  const CredentialsMessage :=
    "Organization, project, and PAT must all be provided either via parameters or environment variables"
  const SelectorMessage := "Exactly one of page_path or page_id must be supplied to get_page_content"
  /** CPython's ValueError when `str()` of an integer would pass the digit limit. */
  const StrDigitsMessage :=
    "Exceeds the limit (4300 digits) for integer string conversion; use sys.set_int_max_str_digits() to increase the limit"

  /**
   * The Basic authentication header of section 2 of RFC 7617 for an empty user-id and
   * the access token as password: "Basic " followed by the base 64 form of the UTF-8
   * bytes of ":" + pat.
   */
  function AuthHeader(pat: string): (h: string)
    ensures |h| >= 6 && h[..6] == "Basic "
    ensures Base64.Decode(h[6..]) == Some([':' as int] + Utf8Encode(pat))
  {
    var credentials := Utf8Encode(":" + pat);
    Base64.DecodeEncode(credentials);
    Utf8EncodeAppend(":", pat);
    assert ("Basic " + Base64.Encode(credentials))[6..] == Base64.Encode(credentials);
    "Basic " + Base64.Encode(credentials)
  }

  /** The header carries only characters of the base 64 alphabet after the scheme name. */
  lemma AuthHeaderAlphabet(pat: string)
    ensures forall i :: 6 <= i < |AuthHeader(pat)| ==> Base64.IsEncodingChar(AuthHeader(pat)[i])
  {
    var credentials := Utf8Encode(":" + pat);
    Base64.EncodeAlphabet(credentials);
    assert AuthHeader(pat)[6..] == Base64.Encode(credentials);
  }

  function BaseUrl(org: string, project: string): (url: string) {
    "https://dev.azure.com/" + org + "/" + project + "/_apis/wiki"
  }

  /** The constructor's check: ValueError unless org, project and pat are all non-empty. */
  function CheckCredentials(org: Option<string>, project: Option<string>, pat: Option<string>): (r: Option<Error>)
    ensures r.None? <==> Truthy(org) && Truthy(project) && Truthy(pat)
    ensures r.Some? ==> r.value == ValueError(CredentialsMessage)
  {
    if !Truthy(org) || !Truthy(project) || !Truthy(pat) then Some(ValueError(CredentialsMessage)) else None
  }

  /** The exactly-one-of check of `get_page_content`, judged by Python truthiness. */
  predicate SelectorRejected(pagePath: Option<string>, pageId: Option<int>) {
    (pagePath.None? && pageId.None?) || (Truthy(pagePath) && IntTruthy(pageId))
  }

  /** The id URL is wanted, but `str(page_id)` is past the digit limit and raises ValueError. */
  predicate IdUnprintable(pagePath: Option<string>, pageId: Option<int>) {
    pagePath.None? && pageId.Some? && Decimals(pageId.value) > MaxStrDigits
  }

  /**
   * The cases: both missing and both given (non-empty, non-zero) are refused; an empty
   * path with no id, a path with id 0, and an empty path with an id are accepted.
   */
  lemma SelectorCases(p: string, n: int)
    ensures SelectorRejected(None, None)
    ensures p != "" && n != 0 ==> SelectorRejected(Some(p), Some(n))
    ensures !SelectorRejected(Some(""), None)
    ensures !SelectorRejected(Some(p), Some(0))
    ensures !SelectorRejected(Some(""), Some(n))
    ensures !SelectorRejected(Some(p), None) && !SelectorRejected(None, Some(n))
  {
  }

  class WikiClient {
    const org: string
    const project: string
    const pat: string
    const apiVersion: string
    const headers: map<string, string>
    const baseUrl: string

    constructor (org: string, project: string, pat: string, apiVersion: string)
      requires CheckCredentials(Some(org), Some(project), Some(pat)).None?
      ensures this.org == org && this.project == project && this.pat == pat && this.apiVersion == apiVersion
      ensures headers == map["Authorization" := AuthHeader(pat)]
      ensures baseUrl == BaseUrl(org, project)
    {
      this.org := org;
      this.project := project;
      this.pat := pat;
      this.apiVersion := apiVersion;
      this.headers := map["Authorization" := AuthHeader(pat)];
      this.baseUrl := BaseUrl(org, project);
    }

    /** `AzureDevOpsWikiTool(org, project, pat, api_version)`, with its ValueError as a Failure. */
    static method Create(org: Option<string>, project: Option<string>, pat: Option<string>, apiVersion: string := DefaultApiVersion)
      returns (r: Result<WikiClient, Error>)
      ensures r.Failure? <==> CheckCredentials(org, project, pat).Some?
      ensures r.Failure? ==> r.error == ValueError(CredentialsMessage)
      ensures r.Success? ==> fresh(r.value)
      ensures r.Success? ==> r.value.org == org.value && r.value.project == project.value && r.value.pat == pat.value
      ensures r.Success? ==> r.value.apiVersion == apiVersion
      ensures r.Success? ==> r.value.headers == map["Authorization" := AuthHeader(pat.value)]
      ensures r.Success? ==> r.value.baseUrl == BaseUrl(org.value, project.value)
    {
      var check := CheckCredentials(org, project, pat);
      if check.Some? {
        return Failure(check.value);
      }
      var client := new WikiClient(org.value, project.value, pat.value, apiVersion);
      return Success(client);
    }

    /** What `_request` hands to the transport for a GET: the instance's headers, no payload. */
    function Get(url: string, params: Params): (req: Request) {
      Request("GET", url, params, headers, None)
    }

    function ListWikisRequest(): (req: Request) {
      Get(baseUrl + "/wikis?api-version=" + apiVersion, [])
    }

    function ListPagesRequest(wiki: string): (req: Request) {
      Get(baseUrl + "/wikis/" + wiki + "/pages?api-version=" + apiVersion, [])
    }

    /** `list_wikis`: the response's `value` list, `[]` when the key is absent. */
    function ListWikis(up: Service): (r: Result<seq<WikiRef>, Error>)
      ensures up.wikis(ListWikisRequest()).Failure? ==>
        r == Failure(RequestError(up.wikis(ListWikisRequest()).error))
      ensures up.wikis(ListWikisRequest()).Success? ==>
        var body := up.wikis(ListWikisRequest()).value;
        r.Success? && (body.value.None? ==> r.value == []) && (body.value.Some? ==> r.value == body.value.value)
    {
      match up.wikis(ListWikisRequest())
      case Failure(m) => Failure(RequestError(m))
      case Success(body) => Success(body.value.GetOr([]))
    }

    /** `list_pages`: the response's `value` list, `[]` when the key is absent. */
    function ListPages(wiki: string, up: Service): (r: Result<seq<PageRef>, Error>)
      ensures up.pages(ListPagesRequest(wiki)).Failure? ==>
        r == Failure(RequestError(up.pages(ListPagesRequest(wiki)).error))
      ensures up.pages(ListPagesRequest(wiki)).Success? ==>
        var body := up.pages(ListPagesRequest(wiki)).value;
        r.Success? && (body.value.None? ==> r.value == []) && (body.value.Some? ==> r.value == body.value.value)
    {
      match up.pages(ListPagesRequest(wiki))
      case Failure(m) => Failure(RequestError(m))
      case Success(body) => Success(body.value.GetOr([]))
    }

    /** The GET for a page's content: by path as a query parameter when a path is given, else by id. */
    function PageRequest(wiki: string, pagePath: Option<string>, pageId: Option<int>): (req: Request)
      requires pagePath.Some? || pageId.Some?
      ensures req.verb == "GET" && req.headers == headers && req.payload.None?
      ensures req.params == [("includeContent", "true"), ("api-version", apiVersion)]
    {
      var params := [("includeContent", "true"), ("api-version", apiVersion)];
      if pagePath.Some? then
        Get(baseUrl + "/wikis/" + wiki + "/pages?path=" + Percent.Quote(pagePath.value), params)
      else
        Get(baseUrl + "/wikis/" + wiki + "/pages/" + IntToString(pageId.value), params)
    }

    /**
     * `get_page_content`: refused with ValueError before any request when the selector is
     * rejected, or when the id URL cannot be formatted; otherwise the page's `content`
     * (None when absent), or the request's failure.
     */
    function GetPageContent(wiki: string, pagePath: Option<string>, pageId: Option<int>, up: Service)
      : (r: Result<Option<string>, Error>)
      ensures SelectorRejected(pagePath, pageId) <==> r == Failure(ValueError(SelectorMessage))
      ensures !SelectorRejected(pagePath, pageId) && IdUnprintable(pagePath, pageId) <==>
        r == Failure(ValueError(StrDigitsMessage))
      ensures !SelectorRejected(pagePath, pageId) && !IdUnprintable(pagePath, pageId) ==>
        match up.page(PageRequest(wiki, pagePath, pageId))
        case Failure(m) => r == Failure(RequestError(m))
        case Success(body) => r == Success(body.content)
    {
      if SelectorRejected(pagePath, pageId) then Failure(ValueError(SelectorMessage))
      else if IdUnprintable(pagePath, pageId) then Failure(ValueError(StrDigitsMessage))
      else
        match up.page(PageRequest(wiki, pagePath, pageId))
        case Failure(m) => Failure(RequestError(m))
        case Success(body) => Success(body.content)
    }

    /** The entry the crawl records for one listed path. */
    function EntryFor(wiki: string, up: Service, path: string): (e: CrawlEntry)
      ensures e.path == path
      ensures e.error.Some? ==> e.content.None?
    {
      match GetPageContent(wiki, Some(path), None, up)
      case Success(content) => CrawlEntry(path, content, None)
      case Failure(err) => CrawlEntry(path, None, Some(err.message))
    }

    /** The entries for the pages listed so far: one per page with a truthy path, in order. */
    function CrawlOf(wiki: string, up: Service, pages: seq<PageRef>): (entries: seq<CrawlEntry>)
      decreases |pages|
    {
      if |pages| == 0 then []
      else
        var last := pages[|pages| - 1];
        CrawlOf(wiki, up, pages[..|pages| - 1])
        + (if Truthy(last.path) then [EntryFor(wiki, up, last.path.value)] else [])
    }

    /** What `crawl_wiki` returns: the listing's failure, or the entries of every listed page. */
    function Crawl(wiki: string, up: Service): (r: Result<seq<CrawlEntry>, Error>) {
      match ListPages(wiki, up)
      case Failure(e) => Failure(e)
      case Success(pages) => Success(CrawlOf(wiki, up, pages))
    }

    /** `crawl_wiki`: fetch every listed page in turn; a failed fetch is recorded, never fatal. */
    method CrawlWiki(wiki: string, up: Service) returns (r: Result<seq<CrawlEntry>, Error>)
      ensures r == Crawl(wiki, up)
      ensures r.Failure? <==> ListPages(wiki, up).Failure?
    {
      var listed := ListPages(wiki, up);
      if listed.Failure? {
        return Failure(listed.error);
      }
      var pages := listed.value;
      var results: seq<CrawlEntry> := [];
      var i := 0;
      while i < |pages|
        invariant 0 <= i <= |pages|
        invariant results == CrawlOf(wiki, up, pages[..i])
      {
        assert pages[..i + 1][..i] == pages[..i];
        var path := pages[i].path;
        if !Truthy(path) {
          i := i + 1;
          continue;
        }
        var content := GetPageContent(wiki, Some(path.value), None, up);
        match content {
          case Success(c) =>
            results := results + [CrawlEntry(path.value, c, None)];
          case Failure(err) =>
            results := results + [CrawlEntry(path.value, None, Some(err.message))];
        }
        i := i + 1;
      }
      assert pages[..i] == pages;
      return Success(results);
    }

    /** `search_keyword`: the crawl entries whose content contains the keyword, case-insensitively. */
    method SearchKeyword(wiki: string, keyword: string, up: Service) returns (r: Result<seq<CrawlEntry>, Error>)
      ensures Crawl(wiki, up).Failure? ==> r == Failure(Crawl(wiki, up).error)
      ensures Crawl(wiki, up).Success? ==> r == Success(SearchOf(keyword, Crawl(wiki, up).value))
    {
      var keywordLower := Lower(keyword);
      var crawled := CrawlWiki(wiki, up);
      if crawled.Failure? {
        return Failure(crawled.error);
      }
      var pages := crawled.value;
      var matches: seq<CrawlEntry> := [];
      var i := 0;
      while i < |pages|
        invariant 0 <= i <= |pages|
        invariant matches == SearchOf(keyword, pages[..i])
      {
        assert pages[..i + 1][..i] == pages[..i];
        var entry := pages[i];
        var content := OrEmpty(entry.content);
        if Contains(keywordLower, Lower(content)) {
          matches := matches + [entry];
        }
        i := i + 1;
      }
      assert pages[..i] == pages;
      return Success(matches);
    }

    /**
     * `create_or_update_page`: the PUT it sends (returned as `sent`) and the response.
     * Query parameters: always `api-version` and `path`; `comment` only when truthy; each
     * `versionDescriptor.*` only when its key is present. Headers: a copy of the instance's
     * with `If-Match` added only when an etag is truthy.
     */
    method CreateOrUpdatePage(
      wiki: string, path: string, content: string,
      comment: Option<string>, etag: Option<string>, versionDescriptor: Option<map<string, string>>,
      up: Service)
      returns (sent: Request, r: Result<PageMetadata, Error>)
      ensures sent.verb == "PUT" && sent.url == baseUrl + "/wikis/" + wiki + "/pages"
      ensures sent.payload == Some(map["content" := content])
      ensures sent.params == UpsertParams(apiVersion, path, comment, versionDescriptor)
      ensures UpsertParamsShape(sent.params, apiVersion, path, comment, versionDescriptor)
      ensures sent.headers == if Truthy(etag) then headers["If-Match" := etag.value] else headers
      ensures up.put(sent).Failure? ==> r == Failure(RequestError(up.put(sent).error))
      ensures up.put(sent).Success? ==> r == Success(up.put(sent).value)
    {
      var params := UpsertQuery(apiVersion, path, comment, versionDescriptor);
      var url := baseUrl + "/wikis/" + wiki + "/pages";
      var putHeaders := headers;
      if Truthy(etag) {
        putHeaders := putHeaders["If-Match" := etag.value];
      }
      sent := Request("PUT", url, params, putHeaders, Some(map["content" := content]));
      match up.put(sent) {
        case Failure(m) => r := Failure(RequestError(m));
        case Success(meta) => r := Success(meta);
      }
    }
  }

  /**
   * The query parameters of a create-or-update call, built key by key as the source does:
   * `api-version` and `path`, then `comment` when truthy, then each `versionDescriptor.*`
   * whose key the descriptor has.
   */
  method UpsertQuery(apiVersion: string, path: string, comment: Option<string>, versionDescriptor: Option<map<string, string>>)
    returns (params: Params)
    ensures params == UpsertParams(apiVersion, path, comment, versionDescriptor)
    ensures UpsertParamsShape(params, apiVersion, path, comment, versionDescriptor)
  {
    params := [("api-version", apiVersion), ("path", path)];
    if Truthy(comment) {
      params := params + [("comment", comment.value)];
    }
    ghost var upToComment := params;
    assert upToComment == [("api-version", apiVersion), ("path", path)] + CommentParam(comment);
    if versionDescriptor.Some? && versionDescriptor.value != map[] {
      var vd := versionDescriptor.value;
      if "version" in vd {
        params := params + [("versionDescriptor.version", vd["version"])];
      }
      assert params == upToComment + VersionParam(versionDescriptor, "version", "versionDescriptor.version");
      ghost var upToVersion := params;
      if "versionOptions" in vd {
        params := params + [("versionDescriptor.versionOptions", vd["versionOptions"])];
      }
      assert params == upToVersion
        + VersionParam(versionDescriptor, "versionOptions", "versionDescriptor.versionOptions");
      ghost var upToOptions := params;
      if "versionType" in vd {
        params := params + [("versionDescriptor.versionType", vd["versionType"])];
      }
      assert params == upToOptions + VersionParam(versionDescriptor, "versionType", "versionDescriptor.versionType");
    } else {
      assert VersionParam(versionDescriptor, "version", "versionDescriptor.version") == [];
      assert VersionParam(versionDescriptor, "versionOptions", "versionDescriptor.versionOptions") == [];
      assert VersionParam(versionDescriptor, "versionType", "versionDescriptor.versionType") == [];
    }
    UpsertParamsCorrect(apiVersion, path, comment, versionDescriptor);
  }

  const UpsertParamNames: set<string> := {
    "api-version", "path", "comment",
    "versionDescriptor.version", "versionDescriptor.versionOptions", "versionDescriptor.versionType"}

  /**
   * What the query parameters of a create-or-update call promise: names are distinct and
   * drawn from the six known ones; `api-version` and `path` are always there, `comment`
   * exactly when it is truthy, each `versionDescriptor.*` exactly when its key is present.
   */
  ghost predicate UpsertParamsShape(
    params: Params, apiVersion: string, path: string,
    comment: Option<string>, versionDescriptor: Option<map<string, string>>)
  {
    && DistinctNames(params)
    && (forall i :: 0 <= i < |params| ==> params[i].0 in UpsertParamNames)
    && Lookup(params, "api-version") == Some(apiVersion)
    && Lookup(params, "path") == Some(path)
    && Lookup(params, "comment") == (if Truthy(comment) then comment else None)
    && Lookup(params, "versionDescriptor.version") == VersionValue(versionDescriptor, "version")
    && Lookup(params, "versionDescriptor.versionOptions") == VersionValue(versionDescriptor, "versionOptions")
    && Lookup(params, "versionDescriptor.versionType") == VersionValue(versionDescriptor, "versionType")
  }

  /** `version_descriptor[k]` when the descriptor is given and has the key. */
  function VersionValue(versionDescriptor: Option<map<string, string>>, k: string): (v: Option<string>) {
    if versionDescriptor.Some? && k in versionDescriptor.value then Some(versionDescriptor.value[k]) else None
  }

  function CommentParam(comment: Option<string>): (params: Params) {
    if Truthy(comment) then [("comment", comment.value)] else []
  }

  function VersionParam(versionDescriptor: Option<map<string, string>>, k: string, name: string): (params: Params) {
    if versionDescriptor.Some? && k in versionDescriptor.value then [(name, versionDescriptor.value[k])] else []
  }

  /** The parameter list in the order the source inserts its keys. */
  ghost function UpsertParams(
    apiVersion: string, path: string, comment: Option<string>, versionDescriptor: Option<map<string, string>>): (params: Params)
  {
    [("api-version", apiVersion), ("path", path)] + CommentParam(comment)
    + VersionParam(versionDescriptor, "version", "versionDescriptor.version")
    + VersionParam(versionDescriptor, "versionOptions", "versionDescriptor.versionOptions")
    + VersionParam(versionDescriptor, "versionType", "versionDescriptor.versionType")
  }

  lemma UpsertParamsCorrect(
    apiVersion: string, path: string, comment: Option<string>, versionDescriptor: Option<map<string, string>>)
    ensures UpsertParamsShape(UpsertParams(apiVersion, path, comment, versionDescriptor), apiVersion, path, comment, versionDescriptor)
  {
    UpsertParamsNames(apiVersion, path, comment, versionDescriptor);
    UpsertParamsLookups(apiVersion, path, comment, versionDescriptor);
  }

  lemma UpsertParamsNames(
    apiVersion: string, path: string, comment: Option<string>, versionDescriptor: Option<map<string, string>>)
    ensures DistinctNames(UpsertParams(apiVersion, path, comment, versionDescriptor))
    ensures NamesWithin(UpsertParams(apiVersion, path, comment, versionDescriptor), UpsertParamNames)
  {
    var fixed: Params := [("api-version", apiVersion), ("path", path)];
    var c := CommentParam(comment);
    var v1 := VersionParam(versionDescriptor, "version", "versionDescriptor.version");
    var v2 := VersionParam(versionDescriptor, "versionOptions", "versionDescriptor.versionOptions");
    var v3 := VersionParam(versionDescriptor, "versionType", "versionDescriptor.versionType");
    var n0, n1, n2, n3, n4 := FixedNames, CommentNames, VersionNames, OptionsNames, TypeNames;
    UpsertNameGroups();
    UpsertPieces(apiVersion, path, comment, versionDescriptor);
    UpsertNames(fixed, c, v1, v2, v3, n0, n1, n2, n3, n4);
  }

  lemma UpsertParamsLookups(
    apiVersion: string, path: string, comment: Option<string>, versionDescriptor: Option<map<string, string>>)
    ensures var params := UpsertParams(apiVersion, path, comment, versionDescriptor);
      && Lookup(params, "api-version") == Some(apiVersion)
      && Lookup(params, "path") == Some(path)
      && Lookup(params, "comment") == (if Truthy(comment) then comment else None)
      && Lookup(params, "versionDescriptor.version") == VersionValue(versionDescriptor, "version")
      && Lookup(params, "versionDescriptor.versionOptions") == VersionValue(versionDescriptor, "versionOptions")
      && Lookup(params, "versionDescriptor.versionType") == VersionValue(versionDescriptor, "versionType")
  {
    var fixed: Params := [("api-version", apiVersion), ("path", path)];
    var c := CommentParam(comment);
    var v1 := VersionParam(versionDescriptor, "version", "versionDescriptor.version");
    var v2 := VersionParam(versionDescriptor, "versionOptions", "versionDescriptor.versionOptions");
    var v3 := VersionParam(versionDescriptor, "versionType", "versionDescriptor.versionType");
    var n0, n1, n2, n3, n4 := FixedNames, CommentNames, VersionNames, OptionsNames, TypeNames;
    UpsertNameGroups();
    UpsertPieces(apiVersion, path, comment, versionDescriptor);
    UpsertLookup(fixed, c, v1, v2, v3, n0, n1, n2, n3, n4, "api-version");
    UpsertLookup(fixed, c, v1, v2, v3, n0, n1, n2, n3, n4, "path");
    UpsertLookup(fixed, c, v1, v2, v3, n0, n1, n2, n3, n4, "comment");
    UpsertLookup(fixed, c, v1, v2, v3, n0, n1, n2, n3, n4, "versionDescriptor.version");
    UpsertLookup(fixed, c, v1, v2, v3, n0, n1, n2, n3, n4, "versionDescriptor.versionOptions");
    UpsertLookup(fixed, c, v1, v2, v3, n0, n1, n2, n3, n4, "versionDescriptor.versionType");
  }

  const FixedNames: set<string> := {"api-version", "path"}
  const CommentNames: set<string> := {"comment"}
  const VersionNames: set<string> := {"versionDescriptor.version"}
  const OptionsNames: set<string> := {"versionDescriptor.versionOptions"}
  const TypeNames: set<string> := {"versionDescriptor.versionType"}

  /** The parameter names fall into five disjoint groups, one per step that may add them. */
  lemma UpsertNameGroups()
    ensures FixedNames !! CommentNames + VersionNames + OptionsNames + TypeNames
    ensures CommentNames !! VersionNames + OptionsNames + TypeNames
    ensures VersionNames !! OptionsNames + TypeNames && OptionsNames !! TypeNames
    ensures FixedNames + CommentNames + VersionNames + OptionsNames + TypeNames == UpsertParamNames
  {
  }

  /** The parameter list as five pieces, each naming only parameters of its own group. */
  lemma UpsertPieces(
    apiVersion: string, path: string, comment: Option<string>, versionDescriptor: Option<map<string, string>>)
    ensures var fixed: Params := [("api-version", apiVersion), ("path", path)];
      var c := CommentParam(comment);
      var v1 := VersionParam(versionDescriptor, "version", "versionDescriptor.version");
      var v2 := VersionParam(versionDescriptor, "versionOptions", "versionDescriptor.versionOptions");
      var v3 := VersionParam(versionDescriptor, "versionType", "versionDescriptor.versionType");
      && UpsertParams(apiVersion, path, comment, versionDescriptor) == fixed + (c + (v1 + (v2 + v3)))
      && DistinctNames(fixed) && |c| <= 1 && |v1| <= 1 && |v2| <= 1 && |v3| <= 1
      && NamesWithin(fixed, FixedNames) && NamesWithin(c, CommentNames)
      && NamesWithin(v1, VersionNames) && NamesWithin(v2, OptionsNames) && NamesWithin(v3, TypeNames)
  {
    var fixed: Params := [("api-version", apiVersion), ("path", path)];
    var c := CommentParam(comment);
    var v1 := VersionParam(versionDescriptor, "version", "versionDescriptor.version");
    var v2 := VersionParam(versionDescriptor, "versionOptions", "versionDescriptor.versionOptions");
    var v3 := VersionParam(versionDescriptor, "versionType", "versionDescriptor.versionType");
    assert fixed + c + v1 + v2 + v3 == fixed + (c + (v1 + (v2 + v3)));
    assert NamesWithin(fixed, FixedNames) && DistinctNames(fixed);
  }

  lemma UpsertNames(p0: Params, p1: Params, p2: Params, p3: Params, p4: Params,
                    n0: set<string>, n1: set<string>, n2: set<string>, n3: set<string>, n4: set<string>)
    requires NamesWithin(p0, n0) && NamesWithin(p1, n1) && NamesWithin(p2, n2) && NamesWithin(p3, n3) && NamesWithin(p4, n4)
    requires DistinctNames(p0) && |p1| <= 1 && |p2| <= 1 && |p3| <= 1 && |p4| <= 1
    requires n0 !! n1 + n2 + n3 + n4 && n1 !! n2 + n3 + n4 && n2 !! n3 + n4 && n3 !! n4
    ensures DistinctNames(p0 + (p1 + (p2 + (p3 + p4)))) && NamesWithin(p0 + (p1 + (p2 + (p3 + p4))), n0 + n1 + n2 + n3 + n4)
  {
    AppendDistinct(p3, p4, n3, n4);
    AppendDistinct(p2, p3 + p4, n2, n3 + n4);
    AppendDistinct(p1, p2 + (p3 + p4), n1, n2 + n3 + n4);
    AppendDistinct(p0, p1 + (p2 + (p3 + p4)), n0, n1 + n2 + n3 + n4);
    assert n0 + (n1 + n2 + n3 + n4) == n0 + n1 + n2 + n3 + n4;
  }

  lemma UpsertLookup(p0: Params, p1: Params, p2: Params, p3: Params, p4: Params,
                     n0: set<string>, n1: set<string>, n2: set<string>, n3: set<string>, n4: set<string>, key: string)
    requires NamesWithin(p0, n0) && NamesWithin(p1, n1) && NamesWithin(p2, n2) && NamesWithin(p3, n3) && NamesWithin(p4, n4)
    requires key in n0 + n1 + n2 + n3 + n4
    requires n0 !! n1 + n2 + n3 + n4 && n1 !! n2 + n3 + n4 && n2 !! n3 + n4 && n3 !! n4
    ensures Lookup(p0 + (p1 + (p2 + (p3 + p4))), key) ==
      if key in n0 then Lookup(p0, key)
      else if key in n1 then Lookup(p1, key)
      else if key in n2 then Lookup(p2, key)
      else if key in n3 then Lookup(p3, key)
      else Lookup(p4, key)
  {
    LookupAppend(p0, p1 + (p2 + (p3 + p4)), key);
    LookupAppend(p1, p2 + (p3 + p4), key);
    LookupAppend(p2, p3 + p4, key);
    LookupAppend(p3, p4, key);
    if key !in n0 { LookupAbsent(p0, n0, key); }
    if key !in n1 { LookupAbsent(p1, n1, key); }
    if key !in n2 { LookupAbsent(p2, n2, key); }
    if key !in n3 { LookupAbsent(p3, n3, key); }
  }

  // ---------------------------------------------------------------------------
  // What is proved about the requests and the crawl

  /**
   * Once the selector is accepted, the path form is used whenever a path is given (even
   * an empty one, and even beside an id): the query value after "path=" percent-decodes
   * to exactly the UTF-8 bytes of the path. Otherwise the id form is used (it is formed
   * only for an id within the digit limit), and the last URL segment reads back as the id.
   */
  lemma PageUrlIdentifiesPage(c: WikiClient, wiki: string, pagePath: Option<string>, pageId: Option<int>)
    requires !SelectorRejected(pagePath, pageId) && !IdUnprintable(pagePath, pageId)
    ensures pagePath.Some? ==>
      var prefix := c.baseUrl + "/wikis/" + wiki + "/pages?path=";
      var url := c.PageRequest(wiki, pagePath, pageId).url;
      |prefix| <= |url| && url[..|prefix|] == prefix && Percent.Unquote(url[|prefix|..]) == Some(Utf8Encode(pagePath.value))
    ensures pagePath.None? ==>
      var prefix := c.baseUrl + "/wikis/" + wiki + "/pages/";
      var url := c.PageRequest(wiki, pagePath, pageId).url;
      pageId.Some? && |prefix| <= |url| && url[..|prefix|] == prefix && ParseInt(url[|prefix|..]) == Some(pageId.value)
  {
    var url := c.PageRequest(wiki, pagePath, pageId).url;
    if pagePath.Some? {
      var prefix := c.baseUrl + "/wikis/" + wiki + "/pages?path=";
      assert url == prefix + Percent.Quote(pagePath.value);
      assert url[|prefix|..] == Percent.Quote(pagePath.value);
      Percent.UnquoteQuote(pagePath.value);
    } else {
      var prefix := c.baseUrl + "/wikis/" + wiki + "/pages/";
      assert url == prefix + IntToString(pageId.value);
      assert url[|prefix|..] == IntToString(pageId.value);
      ParseIntOfIntToString(pageId.value);
    }
  }

  /**
   * A listed path is non-empty, so the crawl's fetch is never refused locally: its entry is
   * `{path, content}` with the page's content when the request succeeds, and
   * `{path, content: None, error}` carrying the request's message when it fails.
   */
  lemma EntryForOutcome(c: WikiClient, wiki: string, up: Service, path: string)
    requires path != ""
    ensures c.EntryFor(wiki, up, path) ==
      match up.page(c.PageRequest(wiki, Some(path), None))
      case Failure(m) => CrawlEntry(path, None, Some(m))
      case Success(body) => CrawlEntry(path, body.content, None)
  {
    assert !SelectorRejected(Some(path), None);
  }

  predicate Listed(page: PageRef) {
    Truthy(page.path)
  }

  /** The positions of the pages the crawl visits: those with a non-empty path. */
  ghost function ListedIndices(pages: seq<PageRef>): (idx: seq<nat>)
    decreases |pages|
  {
    if |pages| == 0 then []
    else
      var n := |pages| - 1;
      ListedIndices(pages[..n]) + (if Listed(pages[n]) then [n] else [])
  }

  lemma {:induction false} ListedIndicesExact(pages: seq<PageRef>)
    ensures Increasing(ListedIndices(pages), |pages|)
    ensures forall i :: 0 <= i < |pages| ==> (i in ListedIndices(pages) <==> Listed(pages[i]))
    decreases |pages|
  {
    if |pages| > 0 {
      var n := |pages| - 1;
      var front := pages[..n];
      ListedIndicesExact(front);
      var idx := ListedIndices(front);
      assert forall i :: 0 <= i < n ==> front[i] == pages[i];
      assert forall i :: i in idx ==> i < n;
    }
  }

  /** `r` holds, in order, the crawl entries of the listed pages at positions `idx`. */
  ghost predicate EntriesAt(c: WikiClient, wiki: string, up: Service, r: seq<CrawlEntry>, pages: seq<PageRef>, idx: seq<nat>) {
    && |r| == |idx|
    && forall k :: 0 <= k < |idx| ==>
      idx[k] < |pages| && Listed(pages[idx[k]]) && r[k] == c.EntryFor(wiki, up, pages[idx[k]].path.value)
  }

  /** Entries for a prefix are entries for the whole listing; the last page's entry may be added. */
  lemma EntriesAtStep(c: WikiClient, wiki: string, up: Service, r: seq<CrawlEntry>, pages: seq<PageRef>, idx: seq<nat>)
    requires |pages| > 0
    requires EntriesAt(c, wiki, up, r, pages[..|pages| - 1], idx)
    ensures var n := |pages| - 1;
      EntriesAt(c, wiki, up,
        r + (if Listed(pages[n]) then [c.EntryFor(wiki, up, pages[n].path.value)] else []),
        pages, idx + (if Listed(pages[n]) then [n] else []))
  {
    var front := pages[..|pages| - 1];
    assert forall k :: 0 <= k < |idx| ==> front[idx[k]] == pages[idx[k]];
  }

  lemma {:induction false} CrawlOfEntries(c: WikiClient, wiki: string, up: Service, pages: seq<PageRef>)
    ensures EntriesAt(c, wiki, up, c.CrawlOf(wiki, up, pages), pages, ListedIndices(pages))
    decreases |pages|
  {
    if |pages| > 0 {
      var n := |pages| - 1;
      CrawlOfEntries(c, wiki, up, pages[..n]);
      EntriesAtStep(c, wiki, up, c.CrawlOf(wiki, up, pages[..n]), pages, ListedIndices(pages[..n]));
    }
  }

  /**
   * The crawl emits exactly one entry per listed page with a non-empty path, in listing
   * order: its k-th entry is the one for the k-th such page, and no other page is visited.
   */
  lemma CrawlOfVisitsListedPages(c: WikiClient, wiki: string, up: Service, pages: seq<PageRef>)
    ensures Increasing(ListedIndices(pages), |pages|)
    ensures forall i :: 0 <= i < |pages| ==> (i in ListedIndices(pages) <==> Listed(pages[i]))
    ensures |c.CrawlOf(wiki, up, pages)| == |ListedIndices(pages)|
    ensures forall k :: 0 <= k < |ListedIndices(pages)| ==>
      var page := pages[ListedIndices(pages)[k]];
      Listed(page) && c.CrawlOf(wiki, up, pages)[k] == c.EntryFor(wiki, up, page.path.value)
  {
    ListedIndicesExact(pages);
    CrawlOfEntries(c, wiki, up, pages);
  }

  /** The crawl never yields more entries than there are listed pages. */
  lemma CrawlOfLength(c: WikiClient, wiki: string, up: Service, pages: seq<PageRef>)
    ensures |c.CrawlOf(wiki, up, pages)| <= |pages|
  {
    CrawlOfVisitsListedPages(c, wiki, up, pages);
    IncreasingBound(ListedIndices(pages), |pages|);
  }

  /** Every crawl entry that carries an error has no content. */
  lemma {:induction false} CrawlOfErrorsHaveNoContent(c: WikiClient, wiki: string, up: Service, pages: seq<PageRef>)
    ensures forall k :: 0 <= k < |c.CrawlOf(wiki, up, pages)| ==>
      c.CrawlOf(wiki, up, pages)[k].error.Some? ==> c.CrawlOf(wiki, up, pages)[k].content.None?
    decreases |pages|
  {
    if |pages| > 0 {
      CrawlOfErrorsHaveNoContent(c, wiki, up, pages[..|pages| - 1]);
    }
  }

  /**
   * A search with a non-empty keyword never returns a page without content, so in
   * particular never a page whose fetch failed.
   */
  lemma SearchSkipsFailedPages(c: WikiClient, wiki: string, up: Service, pages: seq<PageRef>, keyword: string)
    requires keyword != ""
    ensures forall k :: 0 <= k < |SearchOf(keyword, c.CrawlOf(wiki, up, pages))| ==>
      SearchOf(keyword, c.CrawlOf(wiki, up, pages))[k].content.Some? &&
      SearchOf(keyword, c.CrawlOf(wiki, up, pages))[k].error.None?
  {
    var entries := c.CrawlOf(wiki, up, pages);
    SearchOfHasContent(keyword, entries);
    SearchOfSelectsMatches(keyword, entries);
    CrawlOfErrorsHaveNoContent(c, wiki, up, pages);
  }
}
