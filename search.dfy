/**
 * What a crawl produces and how a keyword search filters it: the entries of
 * `crawl_wiki`, the case-insensitive substring test shared by `search_keyword`
 * and the `/search` routes, and the `{path, snippet}` records the routes return.
 */
module Search {
  import opened Wrappers
  import opened Text

  /** `{path, content}` for a fetched page, `{path, content: None, error}` for a failed one. */
  datatype CrawlEntry = CrawlEntry(path: string, content: Option<string>, error: Option<string>)

  datatype SearchMatch = SearchMatch(path: string, snippet: string)

  /** The routes keep the first 250 characters of a matching page. */
  const SnippetLength: nat := 250

  /** `idx` lists positions below `n` in strictly increasing order. */
  ghost predicate Increasing(idx: seq<nat>, n: nat) {
    && (forall k :: 0 <= k < |idx| ==> idx[k] < n)
    && (forall j, k :: 0 <= j < k < |idx| ==> idx[j] < idx[k])
  }

  /** `keyword.lower() in (entry.get("content") or "").lower()`. */
  predicate Matches(keyword: string, e: CrawlEntry) {
    Contains(Lower(keyword), Lower(OrEmpty(e.content)))
  }

  /** The entries that match, in crawl order (the list `search_keyword` returns). */
  function SearchOf(keyword: string, entries: seq<CrawlEntry>): (found: seq<CrawlEntry>)
    decreases |entries|
  {
    if |entries| == 0 then []
    else
      var last := entries[|entries| - 1];
      SearchOf(keyword, entries[..|entries| - 1]) + (if Matches(keyword, last) then [last] else [])
  }

  /** The positions of the matching entries, in crawl order. */
  ghost function MatchIndices(keyword: string, entries: seq<CrawlEntry>): (idx: seq<nat>)
    decreases |entries|
  {
    if |entries| == 0 then []
    else
      var n := |entries| - 1;
      MatchIndices(keyword, entries[..n]) + (if Matches(keyword, entries[n]) then [n] else [])
  }

  /** The matching positions are increasing and are exactly the positions whose entry matches. */
  lemma {:induction false} MatchIndicesExact(keyword: string, entries: seq<CrawlEntry>)
    ensures Increasing(MatchIndices(keyword, entries), |entries|)
    ensures forall i :: 0 <= i < |entries| ==> (i in MatchIndices(keyword, entries) <==> Matches(keyword, entries[i]))
    decreases |entries|
  {
    if |entries| > 0 {
      var n := |entries| - 1;
      var front := entries[..n];
      MatchIndicesExact(keyword, front);
      var idx := MatchIndices(keyword, front);
      assert forall i :: 0 <= i < n ==> front[i] == entries[i];
      assert forall i :: i in idx ==> i < n;
    }
  }

  /** `r` is the entries at positions `idx`, in that order. */
  ghost predicate PicksAt(r: seq<CrawlEntry>, entries: seq<CrawlEntry>, idx: seq<nat>) {
    |r| == |idx| && forall k :: 0 <= k < |idx| ==> idx[k] < |entries| && r[k] == entries[idx[k]]
  }

  /** Picking from a prefix is picking from the whole sequence; the last entry may be added. */
  lemma PicksAtStep(r: seq<CrawlEntry>, entries: seq<CrawlEntry>, idx: seq<nat>, pick: bool)
    requires |entries| > 0
    requires PicksAt(r, entries[..|entries| - 1], idx)
    ensures PicksAt(r + (if pick then [entries[|entries| - 1]] else []),
                    entries, idx + (if pick then [|entries| - 1] else []))
  {
    var front := entries[..|entries| - 1];
    assert forall k :: 0 <= k < |idx| ==> front[idx[k]] == entries[idx[k]];
  }

  lemma {:induction false} SearchOfPicks(keyword: string, entries: seq<CrawlEntry>)
    ensures PicksAt(SearchOf(keyword, entries), entries, MatchIndices(keyword, entries))
    decreases |entries|
  {
    if |entries| > 0 {
      var n := |entries| - 1;
      SearchOfPicks(keyword, entries[..n]);
      PicksAtStep(SearchOf(keyword, entries[..n]), entries, MatchIndices(keyword, entries[..n]),
                  Matches(keyword, entries[n]));
    }
  }

  /**
   * The search result is exactly the matching entries, each once, unchanged and in
   * crawl order: its k-th element is the entry at the k-th matching position.
   */
  lemma SearchOfSelectsMatches(keyword: string, entries: seq<CrawlEntry>)
    ensures Increasing(MatchIndices(keyword, entries), |entries|)
    ensures forall i :: 0 <= i < |entries| ==> (i in MatchIndices(keyword, entries) <==> Matches(keyword, entries[i]))
    ensures |SearchOf(keyword, entries)| == |MatchIndices(keyword, entries)|
    ensures forall k :: 0 <= k < |SearchOf(keyword, entries)| ==>
      SearchOf(keyword, entries)[k] == entries[MatchIndices(keyword, entries)[k]]
  {
    MatchIndicesExact(keyword, entries);
    SearchOfPicks(keyword, entries);
  }

  /** Never more matches than crawled pages. */
  lemma SearchOfLength(keyword: string, entries: seq<CrawlEntry>)
    ensures |SearchOf(keyword, entries)| <= |entries|
  {
    SearchOfSelectsMatches(keyword, entries);
    var idx := MatchIndices(keyword, entries);
    IncreasingBound(idx, |entries|);
  }

  lemma {:induction false} IncreasingBound(idx: seq<nat>, n: nat)
    requires Increasing(idx, n)
    ensures |idx| <= n
    decreases |idx|
  {
    if |idx| > 0 {
      var front := idx[..|idx| - 1];
      assert Increasing(front, idx[|idx| - 1]);
      IncreasingBound(front, idx[|idx| - 1]);
    }
  }

  /** An empty keyword matches every entry, so the search returns the whole crawl. */
  lemma {:induction false} SearchOfEmptyKeyword(entries: seq<CrawlEntry>)
    ensures SearchOf("", entries) == entries
    decreases |entries|
  {
    if |entries| > 0 {
      var n := |entries| - 1;
      SearchOfEmptyKeyword(entries[..n]);
      ContainsEmpty(Lower(OrEmpty(entries[n].content)), "");
      assert Lower("") == "";
      assert entries[..n] + [entries[n]] == entries;
    }
  }

  /** A non-empty keyword never matches an entry without content. */
  lemma NoContentNoMatch(keyword: string, e: CrawlEntry)
    requires keyword != "" && e.content.None?
    ensures !Matches(keyword, e)
  {
    assert Lower(OrEmpty(e.content)) == "";
    ContainsEmpty("", Lower(keyword));
  }

  /** With a non-empty keyword every match has content. */
  lemma {:induction false} SearchOfHasContent(keyword: string, entries: seq<CrawlEntry>)
    requires keyword != ""
    ensures forall k :: 0 <= k < |SearchOf(keyword, entries)| ==> SearchOf(keyword, entries)[k].content.Some?
    decreases |entries|
  {
    if |entries| > 0 {
      var n := |entries| - 1;
      SearchOfHasContent(keyword, entries[..n]);
      if entries[n].content.None? {
        NoContentNoMatch(keyword, entries[n]);
      }
    }
  }

  /** The search is insensitive to the case of the keyword. */
  lemma {:induction false} SearchOfLowerKeyword(keyword: string, entries: seq<CrawlEntry>)
    ensures SearchOf(Lower(keyword), entries) == SearchOf(keyword, entries)
    decreases |entries|
  {
    LowerIdempotent(keyword);
    if |entries| > 0 {
      SearchOfLowerKeyword(keyword, entries[..|entries| - 1]);
    }
  }

  /** `{"path": entry["path"], "snippet": content[:250]}` with `content = entry["content"] or ""`. */
  function ToMatch(e: CrawlEntry): (m: SearchMatch)
    ensures m.path == e.path
    ensures m.snippet <= OrEmpty(e.content)
    ensures |m.snippet| == if |OrEmpty(e.content)| < SnippetLength then |OrEmpty(e.content)| else SnippetLength
  {
    SearchMatch(e.path, Take(OrEmpty(e.content), SnippetLength))
  }

  /**
   * The `/search` answer for a list of entries: one match per entry, in order, keeping the
   * entry's path, with a snippet that is the first min(250, len) characters of its content.
   */
  function Snippets(entries: seq<CrawlEntry>): (ms: seq<SearchMatch>)
    ensures |ms| == |entries|
    ensures forall k :: 0 <= k < |entries| ==>
      var content := OrEmpty(entries[k].content);
      && ms[k].path == entries[k].path
      && ms[k].snippet <= content
      && |ms[k].snippet| == if |content| < SnippetLength then |content| else SnippetLength
  {
    seq(|entries|, k requires 0 <= k < |entries| => ToMatch(entries[k]))
  }

  /** The one-step unfolding the route loops rely on. */
  lemma SnippetsSnoc(entries: seq<CrawlEntry>, e: CrawlEntry)
    ensures Snippets(entries + [e]) == Snippets(entries) + [ToMatch(e)]
  {
  }
}
