/**
 * The boundary to the Azure DevOps Wiki REST service. An HTTP exchange is
 * replaced by an oracle: one total function per kind of response body, taking
 * the request that would have been sent and returning either the decoded body
 * or the message of the exception raised on the way (`str(exc)` of a transport
 * error, of `raise_for_status` or of a failed JSON decode).
 */
module Upstream {
  import opened Wrappers

  /** Query parameters as an insertion-ordered list of (name, value) pairs, like a Python dict. */
  type Params = seq<(string, string)>

  datatype Request = Request(
    verb: string,
    url: string,
    params: Params,
    headers: map<string, string>,
    payload: Option<map<string, string>>)

  /** An entry of the `value` list of GET .../wikis. */
  datatype WikiRef = WikiRef(id: string, name: string)

  /** An entry of the `value` list of GET .../wikis/{w}/pages; either key may be absent. */
  datatype PageRef = PageRef(path: Option<string>, id: Option<int>)

  /** A list response: its `value` key may be absent. */
  datatype ListBody<T> = ListBody(value: Option<seq<T>>)

  /** A page response: its `content` key may be absent (or null). */
  datatype PageBody = PageBody(content: Option<string>)

  /** The metadata object a create-or-update call returns, passed through unread. */
  type PageMetadata = map<string, string>

  datatype Service = Service(
    wikis: Request -> Result<ListBody<WikiRef>, string>,
    pages: Request -> Result<ListBody<PageRef>, string>,
    page: Request -> Result<PageBody, string>,
    put: Request -> Result<PageMetadata, string>)

  /** The two exceptions the client raises: its own ValueError, and whatever the request raised. */
  datatype Error = ValueError(message: string) | RequestError(message: string)

  /** `params.get(key)`: the value stored under the first pair with that name. */
  function Lookup(params: Params, key: string): (r: Option<string>)
    ensures r.Some? <==> exists i :: 0 <= i < |params| && params[i].0 == key
    ensures r.Some? ==> exists i :: 0 <= i < |params| && params[i] == (key, r.value)
    decreases |params|
  {
    if |params| == 0 then None
    else if params[0].0 == key then Some(params[0].1)
    else
      assert forall i :: 1 <= i < |params| ==> params[i] == params[1..][i - 1];
      Lookup(params[1..], key)
  }

  /** No name occurs twice, as in a dict. */
  predicate DistinctNames(params: Params) {
    forall i, j :: 0 <= i < j < |params| ==> params[i].0 != params[j].0
  }

  lemma {:induction false} LookupAppend(a: Params, b: Params, key: string)
    ensures Lookup(a + b, key) == if Lookup(a, key).Some? then Lookup(a, key) else Lookup(b, key)
    decreases |a|
  {
    if |a| == 0 {
      assert a + b == b;
    } else {
      assert (a + b)[1..] == a[1..] + b;
      LookupAppend(a[1..], b, key);
    }
  }

  /** Every name in `params` is drawn from `names`. */
  predicate NamesWithin(params: Params, names: set<string>) {
    forall i :: 0 <= i < |params| ==> params[i].0 in names
  }

  lemma AppendDistinct(a: Params, b: Params, na: set<string>, nb: set<string>)
    requires DistinctNames(a) && DistinctNames(b) && NamesWithin(a, na) && NamesWithin(b, nb) && na !! nb
    ensures DistinctNames(a + b) && NamesWithin(a + b, na + nb)
  {
    forall i, j | 0 <= i < j < |a + b|
      ensures (a + b)[i].0 != (a + b)[j].0
    {
      if j < |a| {
      } else if i >= |a| {
        assert (a + b)[i] == b[i - |a|] && (a + b)[j] == b[j - |a|];
      } else {
        assert (a + b)[i].0 in na && (a + b)[j].0 in nb;
      }
    }
  }

  lemma LookupAbsent(params: Params, names: set<string>, key: string)
    requires NamesWithin(params, names) && key !in names
    ensures Lookup(params, key) == None
  {
  }
}
