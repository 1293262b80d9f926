/**
 * The paginated fetcher `fetch_all_pages`: it follows `@odata.nextLink`, the
 * continuation link of section 4.5.5 of OData JSON Format v4.01, until a page
 * has none, concatenating every page's `value` list. The HTTP client is an
 * object whose responses come from an abstract server.
 */
module Refresh {
  import opened Wrappers

  /** The query parameters of a request. */
  type Params = map<string, string>

  /** One GET the client issued: its URL and its query parameters. */
  datatype Request = Request(url: string, params: Option<Params>)

  /** A response: the HTTP status, and the `value` and `@odata.nextLink`
      members of its JSON body (None when absent or null). */
  datatype Response<Item> = Response(status: int, value: Option<seq<Item>>, nextLink: Option<string>)

  /** What the upstream service answers to a GET of a URL with parameters. */
  type Server<Item> = (string, Option<Params>) -> Response<Item>

  /** `raise_for_status` lets exactly the 2xx statuses through. */
  predicate IsSuccess(status: int) {
    200 <= status < 300
  }

  /** The statuses let through are exactly the 2xx class. */
  lemma SuccessIsStatusClassTwo(status: int)
    ensures IsSuccess(status) <==> status / 100 == 2
  {
  }

  /** `data.get("value", [])`. */
  function PageItems<Item>(resp: Response<Item>): (r: seq<Item>)
    ensures resp.value.Some? ==> r == resp.value.value
    ensures resp.value.None? ==> r == []
  {
    resp.value.GetOr([])
  }

  /** `data.get("@odata.nextLink")`, with an absent link as the falsy `""`. */
  function NextUrl<Item>(resp: Response<Item>): (r: string)
    ensures resp.nextLink.Some? ==> r == resp.nextLink.value
    ensures resp.nextLink.None? ==> r == ""
  {
    resp.nextLink.GetOr("")
  }

  /** How a walk along the links ends: all items, the status of the page
      that was refused, or (in the specification only) out of fuel. */
  datatype Outcome<Item> = Fetched(items: seq<Item>) | Rejected(status: int) | Unfinished

  /** A walk: its outcome and the requests it issued, in order. */
  datatype Walk<Item> = Walk(outcome: Outcome<Item>, requests: seq<Request>)

  /** Items fetched before a walk's outcome come in front of it. */
  function Prepend<Item>(items: seq<Item>, o: Outcome<Item>): Outcome<Item> {
    match o
    case Fetched(rest) => Fetched(items + rest)
    case _ => o
  }

  /** The walk `fetch_all_pages` makes from `url`, following at most `fuel`
      pages. */
  function Follow<Item>(server: Server<Item>, url: string, params: Option<Params>, fuel: nat): (w: Walk<Item>)
    ensures |w.requests| <= fuel
    decreases fuel
  {
    if url == "" then Walk(Fetched([]), [])
    else if fuel == 0 then Walk(Unfinished, [])
    else
      var resp := server(url, params);
      if !IsSuccess(resp.status) then Walk(Rejected(resp.status), [Request(url, params)])
      else
        var rest := Follow(server, NextUrl(resp), None, fuel - 1);
        Walk(Prepend(PageItems(resp), rest.outcome), [Request(url, params)] + rest.requests)
  }

  /** The concatenation of the `value` lists the server answers to `requests`. */
  function Gathered<Item>(server: Server<Item>, requests: seq<Request>): seq<Item>
    decreases |requests|
  {
    if requests == [] then []
    else PageItems(server(requests[0].url, requests[0].params)) + Gathered(server, requests[1..])
  }

  /** The response the server gives to a request. */
  function Answer<Item>(server: Server<Item>, req: Request): Response<Item> {
    server(req.url, req.params)
  }

  function Last<T>(s: seq<T>): T
    requires s != []
  {
    s[|s| - 1]
  }

  /** What the caller of `fetch_all_pages` sees of a finished walk. */
  function Returned<Item>(o: Outcome<Item>): Result<seq<Item>, int>
    requires !o.Unfinished?
  {
    match o
    case Fetched(items) => Success(items)
    case Rejected(status) => Failure(status)
  }

  /** The HTTP client. `sent` records every request in the order issued. */
  class Client<Item> {
    const server: Server<Item>
    var sent: seq<Request>

    constructor (server: Server<Item>)
      ensures this.server == server && sent == []
    {
      this.server := server;
      sent := [];
    }

    /** `client.get(url, params=params)`. */
    method Get(url: string, params: Option<Params>) returns (resp: Response<Item>)
      modifies this
      ensures sent == old(sent) + [Request(url, params)]
      ensures resp == server(url, params)
    {
      sent := sent + [Request(url, params)];
      resp := server(url, params);
    }
  }

  /** `fetch_all_pages`. The ghost `bound` is a number of pages within which
      the chain of links ends, which makes the loop terminate. */
  method FetchAllPages<Item>(client: Client<Item>, url: string, params: Option<Params>, ghost bound: nat)
    returns (r: Result<seq<Item>, int>)
    requires !Follow(client.server, url, params, bound).outcome.Unfinished?
    modifies client
    ensures client.sent == old(client.sent) + Follow(client.server, url, params, bound).requests
    ensures r == Returned(Follow(client.server, url, params, bound).outcome)
  {
    var server := client.server;
    ghost var whole := Follow(server, url, params, bound);
    var items: seq<Item> := [];
    var next, query := url, params;
    ghost var fuel := bound;
    ghost var issued: seq<Request> := [];
    while next != ""
      invariant !Follow(server, next, query, fuel).outcome.Unfinished?
      invariant Prepend(items, Follow(server, next, query, fuel).outcome) == whole.outcome
      invariant issued + Follow(server, next, query, fuel).requests == whole.requests
      invariant client.sent == old(client.sent) + issued
      decreases fuel
    {
      Advance(server, whole, items, issued, next, query, fuel);
      var resp := client.Get(next, query);
      issued := issued + [Request(next, query)];
      if !IsSuccess(resp.status) {
        return Failure(resp.status);
      }
      items := items + PageItems(resp);
      next := NextUrl(resp);
      query := None;
      fuel := fuel - 1;
    }
    assert items + [] == items;
    return Success(items);
  }

  /** What one iteration of the loop of `FetchAllPages` needs: the walk still
      to go from `next` either ends at this request with a refusal, or
      continues from the page's link after this page's items. */
  lemma Advance<Item>(server: Server<Item>, whole: Walk<Item>, items: seq<Item>, issued: seq<Request>,
                      next: string, query: Option<Params>, fuel: nat)
    requires next != ""
    requires !Follow(server, next, query, fuel).outcome.Unfinished?
    requires Prepend(items, Follow(server, next, query, fuel).outcome) == whole.outcome
    requires issued + Follow(server, next, query, fuel).requests == whole.requests
    ensures fuel > 0
    ensures var resp, req := server(next, query), Request(next, query);
            if !IsSuccess(resp.status) then
              issued + [req] == whole.requests && whole.outcome == Rejected(resp.status)
            else
              var rest := Follow(server, NextUrl(resp), None, fuel - 1);
              && !rest.outcome.Unfinished?
              && Prepend(items + PageItems(resp), rest.outcome) == whole.outcome
              && (issued + [req]) + rest.requests == whole.requests
  {
    FollowStep(server, next, query, fuel);
    var resp, req := server(next, query), Request(next, query);
    if IsSuccess(resp.status) {
      var rest := Follow(server, NextUrl(resp), None, fuel - 1);
      PrependTwice(items, PageItems(resp), rest.outcome);
      assert issued + ([req] + rest.requests) == (issued + [req]) + rest.requests;
    }
  }

  /** One step of the walk: the first request, then the walk from its link. */
  lemma FollowStep<Item>(server: Server<Item>, url: string, params: Option<Params>, fuel: nat)
    requires url != "" && fuel > 0
    ensures var resp := server(url, params);
            Follow(server, url, params, fuel) ==
              if !IsSuccess(resp.status) then Walk(Rejected(resp.status), [Request(url, params)])
              else
                var rest := Follow(server, NextUrl(resp), None, fuel - 1);
                Walk(Prepend(PageItems(resp), rest.outcome), [Request(url, params)] + rest.requests)
  {
  }

  lemma PrependTwice<Item>(items: seq<Item>, page: seq<Item>, o: Outcome<Item>)
    ensures Prepend(items, Prepend(page, o)) == Prepend(items + page, o)
  {
    if o.Fetched? {
      assert items + (page + o.items) == (items + page) + o.items;
    }
  }

  /** A finished walk is the same with any larger page bound: the bound
      only makes the loop terminate and never changes what it does. */
  lemma {:induction false} FuelIrrelevant<Item>(server: Server<Item>, url: string, params: Option<Params>, n: nat, m: nat)
    requires !Follow(server, url, params, n).outcome.Unfinished?
    requires n <= m
    ensures Follow(server, url, params, m) == Follow(server, url, params, n)
    decreases n
  {
    if url != "" && n > 0 {
      var resp := server(url, params);
      if IsSuccess(resp.status) {
        var rest := Follow(server, NextUrl(resp), None, n - 1);
        assert !rest.outcome.Unfinished?;
        FuelIrrelevant(server, NextUrl(resp), None, n - 1, m - 1);
      }
    }
  }

  /** Query parameters go with the first request only. */
  lemma {:induction false} ParamsOnlyFirst<Item>(server: Server<Item>, url: string, params: Option<Params>, fuel: nat)
    ensures var reqs := Follow(server, url, params, fuel).requests;
            (|reqs| > 0 ==> reqs[0] == Request(url, params)) &&
            forall i :: 0 < i < |reqs| ==> reqs[i].params.None?
    decreases fuel
  {
    if url != "" && fuel > 0 {
      var resp := server(url, params);
      if IsSuccess(resp.status) {
        ParamsOnlyFirst(server, NextUrl(resp), None, fuel - 1);
      }
    }
  }

  /** Every request is for a non-empty URL, and each next request is for the
      link the previous page's body carried; every page but possibly the last
      was a success. */
  lemma {:induction false} RequestsFollowLinks<Item>(server: Server<Item>, url: string, params: Option<Params>, fuel: nat)
    ensures var reqs := Follow(server, url, params, fuel).requests;
            && (forall i :: 0 <= i < |reqs| ==> reqs[i].url != "")
            && (forall i :: 0 <= i < |reqs| - 1 ==>
                  IsSuccess(server(reqs[i].url, reqs[i].params).status) &&
                  NextUrl(server(reqs[i].url, reqs[i].params)) == reqs[i + 1].url)
    decreases fuel
  {
    if url != "" && fuel > 0 {
      var resp := server(url, params);
      if IsSuccess(resp.status) {
        RequestsFollowLinks(server, NextUrl(resp), None, fuel - 1);
        ParamsOnlyFirst(server, NextUrl(resp), None, fuel - 1);
      }
    }
  }

  /** The walk stops exactly where the source's loop does: a complete walk
      ends with a successful page that has no link (or issues nothing when
      the start URL is empty), a refused walk ends with the refused page. */
  lemma {:induction false} StopsAtLastPage<Item>(server: Server<Item>, url: string, params: Option<Params>, fuel: nat)
    ensures var w := Follow(server, url, params, fuel);
            && (w.requests == [] <==> url == "" || fuel == 0)
            && (w.requests == [] ==> (w.outcome == Fetched([]) <==> url == ""))
            && (w.outcome.Fetched? && w.requests != [] ==>
                  IsSuccess(Answer(server, Last(w.requests)).status) && NextUrl(Answer(server, Last(w.requests))) == "")
            && (w.outcome.Rejected? ==>
                  w.requests != [] && Answer(server, Last(w.requests)).status == w.outcome.status &&
                  !IsSuccess(w.outcome.status))
    decreases fuel
  {
    if url != "" && fuel > 0 {
      var resp := server(url, params);
      if IsSuccess(resp.status) {
        var next := NextUrl(resp);
        StopsAtLastPage(server, next, None, fuel - 1);
        var rest := Follow(server, next, None, fuel - 1);
        if rest.requests != [] {
          assert Last(Follow(server, url, params, fuel).requests) == Last(rest.requests);
        }
      }
    }
  }

  /** The items of a complete walk are, in page order, every page's `value`
      list. */
  lemma {:induction false} ItemsInPageOrder<Item>(server: Server<Item>, url: string, params: Option<Params>, fuel: nat)
    requires Follow(server, url, params, fuel).outcome.Fetched?
    ensures var w := Follow(server, url, params, fuel); w.outcome.items == Gathered(server, w.requests)
    decreases fuel
  {
    if url != "" && fuel > 0 {
      var resp := server(url, params);
      var rest := Follow(server, NextUrl(resp), None, fuel - 1);
      ItemsInPageOrder(server, NextUrl(resp), None, fuel - 1);
      assert ([Request(url, params)] + rest.requests)[1..] == rest.requests;
    }
  }

  /** The parameters of the i-th request of a walk. */
  function ParamsAt(params: Option<Params>, i: nat): Option<Params> {
    if i == 0 then params else None
  }

  /** `urls` is a chain of successful pages: each page links to the next and
      the last has no link. */
  ghost predicate IsChain<Item>(server: Server<Item>, urls: seq<string>, params: Option<Params>) {
    && |urls| > 0
    && (forall i :: 0 <= i < |urls| ==> urls[i] != "" && IsSuccess(server(urls[i], ParamsAt(params, i)).status))
    && (forall i :: 0 <= i < |urls| - 1 ==> NextUrl(server(urls[i], ParamsAt(params, i))) == urls[i + 1])
    && NextUrl(server(urls[|urls| - 1], ParamsAt(params, |urls| - 1))) == ""
  }

  /** The requests a walk along `urls` issues. */
  function ChainRequests(urls: seq<string>, params: Option<Params>): (reqs: seq<Request>)
    ensures |reqs| == |urls|
    ensures forall i :: 0 <= i < |urls| ==> reqs[i] == Request(urls[i], ParamsAt(params, i))
  {
    seq(|urls|, i requires 0 <= i < |urls| => Request(urls[i], ParamsAt(params, i)))
  }

  /** The pages after the first of a chain form a chain. */
  lemma ChainTail<Item>(server: Server<Item>, urls: seq<string>, params: Option<Params>)
    requires IsChain(server, urls, params) && |urls| > 1
    ensures IsChain(server, urls[1..], None)
  {
    var tail := urls[1..];
    forall i | 0 <= i < |tail|
      ensures tail[i] != "" && IsSuccess(server(tail[i], ParamsAt(None, i)).status)
    {
      assert tail[i] == urls[i + 1] && ParamsAt(None, i) == ParamsAt(params, i + 1);
    }
    forall i | 0 <= i < |tail| - 1
      ensures NextUrl(server(tail[i], ParamsAt(None, i))) == tail[i + 1]
    {
      assert tail[i] == urls[i + 1] && ParamsAt(None, i) == ParamsAt(params, i + 1);
    }
    assert tail[|tail| - 1] == urls[|urls| - 1];
  }

  /** Exhaustive pagination: along a chain of N pages the fetcher issues
      exactly N requests, one per page in order, and returns the
      concatenation of all N pages' items. */
  lemma {:induction false} ChainFetchedWhole<Item>(server: Server<Item>, urls: seq<string>, params: Option<Params>)
    requires IsChain(server, urls, params)
    ensures Follow(server, urls[0], params, |urls|) ==
            Walk(Fetched(Gathered(server, ChainRequests(urls, params))), ChainRequests(urls, params))
    decreases |urls|
  {
    var reqs := ChainRequests(urls, params);
    var first := Request(urls[0], params);
    var resp := server(urls[0], params);
    assert reqs[0] == first && ParamsAt(params, 0) == params;
    assert urls[0] != "" && IsSuccess(resp.status);
    FollowStep(server, urls[0], params, |urls|);
    if |urls| == 1 {
      assert NextUrl(resp) == "";
      assert reqs == [first];
      assert Gathered(server, reqs) == PageItems(resp) + Gathered(server, reqs[1..]);
      assert PageItems(resp) + [] == PageItems(resp);
    } else {
      var tail := urls[1..];
      assert NextUrl(resp) == tail[0];
      ChainTail(server, urls, params);
      ChainFetchedWhole(server, tail, None);
      var rest := ChainRequests(tail, None);
      assert reqs == [first] + rest by {
        forall i | 0 <= i < |rest| ensures reqs[i + 1] == rest[i] {
          assert ParamsAt(None, i) == ParamsAt(params, i + 1);
        }
      }
      assert reqs[1..] == rest;
      assert Gathered(server, reqs) == PageItems(resp) + Gathered(server, rest);
    }
  }
}
