# Azure DevOps Wiki client and HTTP facade: a Dafny model

The system is a thin HTTP facade over the Azure DevOps Wiki REST API. A client class
(`AzureDevOpsWikiTool`) does the following:

- checks its credentials;
- builds a Basic authentication header (section 2 of RFC 7617, with base 64 as in section 4 of RFC 4648);
- lists a project's wikis and a wiki's pages;
- fetches one page by path or by id;
- crawls every page of a wiki, recording a failed fetch instead of aborting;
- searches the crawl for a keyword, case-insensitively;
- creates or updates a page with a PUT.

Two Flask entry points (`app.py`, `app_server.py`) expose `/pages`, `/page` and `/search`
on top of that client. They validate the query arguments and answer 400 when those are
missing or malformed. `/search` reduces each matching page to `{path, snippet}`, where the
snippet is the first 250 characters of the page's content.

The HTTP exchange is replaced by an oracle, `Upstream.Service`. It holds one total
function per kind of response. Each takes the exact request the client would send and
returns either the decoded body or the message of the exception raised (`str(exc)`).
Everything the client decides is modelled against that oracle:

- the URLs, query parameters, headers and payloads it sends;
- which requests it sends at all;
- how it reads the responses back;
- which exceptions it raises.

There is one module per layer:

| module | file | what it holds |
|---|---|---|
| `Wrappers` | `wrappers.dfy` | `Option` and `Result` |
| `Text` | `text.dfy` | Python truthiness, ASCII `lower()`, the `in` substring test, slicing, `str(int)`, `int(str)`, UTF-8 encoding |
| `Base64` | `base64.dfy` | the encoder, a decoder, and the round trip between them |
| `Percent` | `percent.dfy` | `urllib.parse.quote(s, safe="/")`, a decoder, and the round trip between them |
| `Upstream` | `upstream.dfy` | requests, response bodies, the oracle, the client's two error kinds |
| `Search` | `search.dfy` | crawl entries, the keyword filter, snippets |
| `WikiTool` | `wiki_tool.dfy` | class `WikiClient`: its constant fields, the request builders, the crawl and search loops, create-or-update |
| `Routes` | `routes.dfy` | the argument handling and answers shared by both entry points |
| `App` | `app.dfy` | the handlers of `app.py` |
| `AppServer` | `app_server.dfy` | the handlers of `app_server.py` |

How the model is written:

- The crawl and search loops are methods, each proved against a specification function.
  `CrawlOf` and `SearchOf` recurse on the last element, so the crawl loop's invariant is
  "the entries so far are `CrawlOf` of the pages scanned", and the search loop's is "the
  matches so far are `SearchOf` of the entries scanned". The `/search` loops keep
  `Snippets(SearchOf(q, prefix))`, where `Snippets` is a sequence comprehension.
- The properties of those functions are lemmas. The main ones: one entry per listed page
  with a non-empty path, in order; exactly the matching entries, unchanged and in order;
  bounded length; snippet prefix and length.
- An empty path given together with an id is accepted by `get_page_content`. The path
  then wins, and a request for the empty path is sent.
- `int()` and `str()` keep CPython's default limit of 4300 digits for decimal
  conversions: a longer `id` is answered 400, and the client refuses to format an id
  past the limit.

## Model

| member | source | states |
|---|---|---|
| `Text.ParseIntOfIntToString` | app.py:48-50 | `int()` reads back `str(n)` for every integer of at most 4300 digits, so `id=<n>` selects page `n` |
| `Text.ParseIntBeyondLimit` | app.py:48-51 | past 4300 digits `int(str(n))` raises ValueError, so such an `id` is answered 400 |
| `Text.ParseIntWithinLimit` | app.py:48-52 | every integer `int()` accepts has at most 4300 digits, so the id handed to the client can always be formatted |
| `Text.ParseIntBlank` | app.py:48-51 | a blank or all-whitespace `id` does not parse, so it is answered 400 and never sent |
| `Base64.DecodeEncode` | azure_devops_wiki_tool.py:109-111 | decoding the base 64 encoding of any byte string gives that byte string back |
| `Percent.UnquoteQuote` | azure_devops_wiki_tool.py:225 | percent-decoding the quoted path gives exactly the path's UTF-8 bytes |
| `Percent.QuoteUrlChars` | azure_devops_wiki_tool.py:225 | a quoted path contains only unreserved characters, `/` and `%XX` escapes |
| `Percent.QuoteKeepsSlash` | azure_devops_wiki_tool.py:225 | `/` is left unescaped: quoting `s/t` gives quote(s), `/`, quote(t) |
| `Percent.QuoteSafeIdentity` | azure_devops_wiki_tool.py:225 | a path made only of safe characters is sent unchanged |
| `WikiTool.AuthHeader` | azure_devops_wiki_tool.py:107-112 | the header is `Basic ` followed by text that base 64 decodes to `:` plus the PAT's UTF-8 bytes |
| `WikiTool.AuthHeaderAlphabet` | azure_devops_wiki_tool.py:111 | after `Basic `, the header uses only the base 64 alphabet and `=` |
| `WikiTool.CheckCredentials` | azure_devops_wiki_tool.py:102-105 | ValueError with the source's message exactly when org, project or pat is missing or empty |
| `WikiTool.SelectorCases` | azure_devops_wiki_tool.py:216-219 | both selectors missing, or both truthy, are refused; an empty path alone, a path with id 0, and an empty path with an id are accepted |
| `WikiTool.WikiClient.constructor` | azure_devops_wiki_tool.py:100-116 | the fields keep the credentials; the headers are exactly `{Authorization: AuthHeader(pat)}`; the base URL is `https://dev.azure.com/{org}/{project}/_apis/wiki` |
| `WikiTool.WikiClient.Create` | azure_devops_wiki_tool.py:90-116 | construction fails with the credentials ValueError exactly when the check refuses; otherwise it gives a fresh client holding those fields; the API version defaults to `7.1-preview.2` |
| `WikiTool.WikiClient.ListWikis` | azure_devops_wiki_tool.py:163-165 | the response's `value` list, or `[]` when `value` is absent; a failed request propagates its message |
| `WikiTool.WikiClient.ListPages` | azure_devops_wiki_tool.py:180-182 | the response's `value` list, or `[]` when `value` is absent; a failed request propagates its message |
| `WikiTool.WikiClient.PageRequest` | azure_devops_wiki_tool.py:221-230 | a GET with the instance's headers, no body, and parameters `includeContent=true` and `api-version` |
| `WikiTool.WikiClient.GetPageContent` | azure_devops_wiki_tool.py:216-232 | refused with the selector ValueError exactly when the selector is rejected, and with `str()`'s ValueError exactly when an id URL is wanted for an id past 4300 digits, both before any request; otherwise the page's `content` (None when absent), or the request's failure |
| `WikiTool.PageUrlIdentifiesPage` | azure_devops_wiki_tool.py:223-228 | once the URL is formed, any given path (even empty, even beside an id) uses the `pages?path=` form, whose value decodes to the path; otherwise the `pages/{id}` form, whose last segment reads back as the id |
| `WikiTool.WikiClient.EntryFor` | azure_devops_wiki_tool.py:256-268 | an entry keeps its page's path, and one with an error has no content |
| `WikiTool.EntryForOutcome` | azure_devops_wiki_tool.py:256-268 | for a listed path, the entry is `{path, content}` from a successful fetch, or `{path, None, error}` with the failure's message |
| `WikiTool.WikiClient.CrawlWiki` | azure_devops_wiki_tool.py:249-269 | the loop returns the crawl of the listing; it fails only when the listing fails; a failed page fetch never stops it |
| `WikiTool.CrawlOfVisitsListedPages` | azure_devops_wiki_tool.py:251-260 | one entry per listed page whose path is non-empty, in listing order; the k-th entry is the k-th such page's entry, and no other page is visited |
| `WikiTool.CrawlOfLength` | azure_devops_wiki_tool.py:249-269 | the crawl never has more entries than the listing has pages |
| `WikiTool.CrawlOfErrorsHaveNoContent` | azure_devops_wiki_tool.py:261-268 | every crawl entry that carries an error has no content |
| `WikiTool.WikiClient.SearchKeyword` | azure_devops_wiki_tool.py:294-301 | the loop returns `SearchOf(keyword, crawl)`, or the listing's failure |
| `WikiTool.SearchSkipsFailedPages` | azure_devops_wiki_tool.py:297-300 | with a non-empty keyword, every entry found has content and no error |
| `WikiTool.WikiClient.CreateOrUpdatePage` | azure_devops_wiki_tool.py:373-397 | a PUT to `.../wikis/{w}/pages` with body `{content}`; query parameters exactly the insertion-ordered `UpsertParams`, which satisfy `UpsertParamsShape`; headers are the instance's plus `If-Match` only for a truthy etag; the instance's headers are unchanged, and the response or failure is relayed |
| `WikiTool.UpsertQuery` | azure_devops_wiki_tool.py:374-384 | the parameters, built key by key, are the insertion-ordered list `UpsertParams` and satisfy `UpsertParamsShape` |
| `WikiTool.UpsertParamsCorrect` | azure_devops_wiki_tool.py:374-384 | parameter names are distinct and among the six known ones; `api-version` and `path` are always present; `comment` is present exactly when truthy; each `versionDescriptor.*` is present exactly when the descriptor has that key |
| `Search.SearchOfSelectsMatches` | azure_devops_wiki_tool.py:294-301 | the search result is exactly the matching entries, each once, unchanged and in crawl order; an entry is selected if and only if it matches |
| `Search.SearchOfLength` | azure_devops_wiki_tool.py:297-300 | never more matches than crawl entries |
| `Search.SearchOfEmptyKeyword` | azure_devops_wiki_tool.py:294-300 | an empty keyword returns the whole crawl |
| `Search.SearchOfHasContent` | azure_devops_wiki_tool.py:298-299 | with a non-empty keyword, an entry without content never matches |
| `Search.SearchOfLowerKeyword` | azure_devops_wiki_tool.py:294 | the search gives the same result for a keyword and its lower-cased form |
| `Search.ToMatch` | app.py:66-68 | the snippet keeps the entry's path and is a prefix of its content, of length min(250, len(content)) |
| `Search.Snippets` | app.py:65-68 | one match per entry, in order: it keeps the entry's path, and its snippet is a prefix of the content of length min(250, len(content)) |
| `Routes.ServedPageNeverRefused` | app.py:45-52 | with arguments present, `/page` never reaches a ValueError of the client; its only 400 is "id must be an integer", for an unparsable id without a path |
| `Routes.ServedPageById` | app.py:47-52 | `id=str(n)` without a path, for `n` of at most 4300 digits, counts as present arguments, and is served exactly by requesting page `n` by id: its content, or 500 on failure |
| `Routes.SearchRouteSnippets` | app.py:59-69 | each snippet belongs to a crawled page whose fetch succeeded and whose content contains `q`, cut to at most 250 characters; every search match gives exactly one snippet, in order, and there are never more snippets than listed pages |
| `App.ListPagesRoute` | app.py:29-35 | 400 "wiki param required" exactly when `wiki` is absent or empty; otherwise the listing, or 500 with the request's failure |
| `App.GetPage` | app.py:37-52 | 400 "wiki and (path or id) param required" exactly when `wiki` is empty or both `path` and `id` are; otherwise a non-empty path wins over the id, and the id must parse |
| `App.SearchRoute` | app.py:54-69 | 400 "wiki and q param required" exactly when either argument is empty; otherwise the loop returns `SearchAnswer(q, crawl)` |
| `AppServer.ListPagesRoute` | app_server.py:21-26 | as in `app.py`: 400 exactly when `wiki` is absent or empty; otherwise the listing |
| `AppServer.GetPage` | app_server.py:28-42 | 400 "wiki and (path or id param required)" exactly when the arguments are missing; otherwise as in `app.py` |
| `AppServer.SearchRoute` | app_server.py:44-57 | 400 exactly when `wiki` or `q` is empty; otherwise the loop returns `SearchAnswer(q, crawl)` |
| `AppServer.GetPageMatchesApp` | app_server.py:33-34 | the two entry points answer `/page` identically, except for the wording of the missing-argument message |

## Left out

- The HTTP exchange itself is replaced by the `Upstream.Service` oracle: `requests`, `raise_for_status` and JSON decoding. Reason: this is I/O.
  - A response body of the wrong JSON shape is folded into the oracle's failure.
  - A JSON `null` under `value` is read as an absent key, giving `[]`; the code would return `None` there.
- The wiki and page objects of the listings are reduced to the fields their docstrings name: `id` and `name` for a wiki, `path` and `id` for a page. The client itself reads only a page's `path`. `/pages` relays every field of each page object unread; the model's answer carries only those two.
- Full recursion of the page listing is not modelled: `list_pages` does not request it, and the model sends exactly its URL.
- A result limit on search is not modelled: `search_keyword` has none and returns every match.
- Exception types are not modelled beyond two kinds: every exception is reduced to its message (`str(exc)`), as either a ValueError or a request failure.
- `_request`'s merging of caller headers into the authentication header is not modelled, because no modelled caller passes extra headers.
- How `requests` appends the query parameters to the URL is not modelled: a request carries its URL and its parameters separately.
- The environment-variable fallback for org, project and pat, and the startup `print`s, are left out: the client takes its credentials as given. The module-level construction of the client each Flask entry point performs is also left out; each handler receives the client as a parameter.
- Flask plumbing is left out: app construction, routing, `jsonify`, `app.run` and port parsing.
  - Responses are `Ok`/`BadRequest`/`ServerError`.
  - `ServerError` stands for Flask's 500 page for an uncaught exception; its HTML is not modelled.
- The `/` and `/wikis` routes of both entry points are left out. They return a constant, or `list_wikis` unchanged.
- The command-line `_main` in `azure_devops_wiki_tool.py` is left out: argument parsing, file I/O, printing.
- `str.lower()` is modelled only on ASCII letters. Full Unicode case mapping is not part of this model.
- `int()` is modelled only on ASCII digits, `_` separators, an optional sign and ASCII whitespace. Non-ASCII digits and spaces, which Python also accepts, are not.
- The digit limit of `int()` and `str()` is fixed at CPython's default of 4300. Changing it with `sys.set_int_max_str_digits`, and Python versions without the limit, are not modelled.
- `Search.SearchOfLowerKeyword`: states keyword-case insensitivity only for the ASCII lower-casing modelled here.
