/** The listing fetcher: requests the search pages in order, normalises every
    item it reads, and stops each page once the running count reaches the limit.
    The HTTP side is an input: the response the upstream gives to each page. */
module Fetcher {
  import opened Wrappers
  import opened Catalog
  import opened Listings

  /** Items asked for per request (`per_page`). */
  const PageSize: int := 50

  /** Number of pages the loop runs over: `limit // 50 + 1`. Dafny's `/` with a
      positive divisor rounds down like Python's `//`, negative limits included.
      Zero or less means no page is requested. */
  function PageCount(limit: int): (n: int)
    ensures n >= 1 <==> limit >= 0
    ensures limit >= 0 ==> PageSize * (n - 1) <= limit < PageSize * n
  {
    limit / PageSize + 1
  }

  /** The query parameters of one request. */
  datatype Params = Params(searchText: string, perPage: int, page: int, catalogIds: Option<int>)

  /** What the upstream gave for one page: a failed request (transport error,
      non-success status or undecodable body), or a decoded body whose `items`
      key may be absent. */
  datatype PageResponse = RequestFailed | Received(items: Option<seq<RawItem>>)

  /** The items of a received page; an absent `items` key reads as no items. */
  function PageItems(response: PageResponse): seq<RawItem>
    requires response.Received?
  {
    response.items.GetOr([])
  }

  /** The response to page `page` (1-based); pages past the given sequence fail. */
  function ResponseFor(responses: seq<PageResponse>, page: int): PageResponse {
    if 1 <= page <= |responses| then responses[page - 1] else RequestFailed
  }

  /** The parameters of the request for `page`; an unknown category is the
      KeyError of the category lookup, raised before the request is sent. */
  function RequestParams(searchTerm: string, category: string, page: int): (r: Result<Params, KeyError>)
    ensures r.Failure? <==> category !in CategoryMap
    ensures r.Failure? ==> r.error == KeyError(category)
    ensures r.Success? ==>
      && r.value.searchText == searchTerm
      && r.value.perPage == PageSize
      && r.value.page == page
      && (r.value.catalogIds.None? <==> category == "All")
      && (r.value.catalogIds.Some? ==> CategoryMap[category] == r.value.catalogIds)
  {
    match Resolve(category)
    case Failure(e) => Failure(e)
    case Success(NoFilter) => Success(Params(searchTerm, PageSize, page, None))
    case Success(CatalogId(id)) => Success(Params(searchTerm, PageSize, page, Some(id)))
  }

  /** What a fetch has produced so far: the records in order, the requests
      sent in order, and whether the loop stopped on a failed request. */
  datatype Progress = Progress(listings: seq<Listing>, requests: seq<Params>, requestFailed: bool)

  const Start: Progress := Progress([], [], false)

  /** How many items of a page of `m` items are appended when `count` records
      are already collected: all of them while the count stays under the limit,
      up to the one that reaches it, and once the limit is reached, one. */
  function Taken(count: int, limit: int, m: nat): (n: nat)
    ensures n <= m
    ensures count < limit ==> n == if m < limit - count then m else limit - count
    ensures count >= limit ==> n == if m == 0 then 0 else 1
  {
    var room := if limit - count < 1 then 1 else limit - count;
    if m < room then m else room
  }

  /** The inner loop over one page's items: normalise and append each item,
      stop after an append that brings the count to the limit. */
  function TakePage(items: seq<RawItem>, acc: seq<Listing>, limit: int): (r: Result<seq<Listing>, KeyError>)
    ensures r.Success? ==> |r.value| == |acc| + Taken(|acc|, limit, |items|) && r.value[..|acc|] == acc
    decreases |items|
  {
    if items == [] then Success(acc)
    else
      match Normalise(items[0])
      case Failure(e) => Failure(e)
      case Success(l) =>
        if |acc| + 1 >= limit then Success(acc + [l])
        else TakePage(items[1..], acc + [l], limit)
  }

  /** One pass of the outer loop for `page`: build the parameters, request the
      page, and on a response run the inner loop. A failed request appends the
      request, keeps the records and marks the stop. */
  function PageStep(searchTerm: string, category: string, limit: int, responses: seq<PageResponse>,
                    page: int, st: Progress): (r: Result<Progress, KeyError>)
    ensures category !in CategoryMap ==> r == Failure(KeyError(category))
    ensures r.Success? ==>
      && |r.value.requests| == |st.requests| + 1
      && (r.value.requestFailed <==> ResponseFor(responses, page).RequestFailed?)
  {
    match RequestParams(searchTerm, category, page)
    case Failure(e) => Failure(e)
    case Success(p) =>
      match ResponseFor(responses, page)
      case RequestFailed => Success(Progress(st.listings, st.requests + [p], true))
      case Received(_) =>
        match TakePage(PageItems(ResponseFor(responses, page)), st.listings, limit)
        case Failure(e) => Failure(e)
        case Success(ls) => Success(Progress(ls, st.requests + [p], false))
  }

  /** The outer loop over pages `page`..`last`, from the progress `st`; a
      failed request ends it. */
  function RunPages(searchTerm: string, category: string, limit: int, responses: seq<PageResponse>,
                    page: int, last: int, st: Progress): (r: Result<Progress, KeyError>)
    ensures r.Success? && !r.value.requestFailed ==>
      |r.value.requests| == |st.requests| + (if page <= last then last - page + 1 else 0)
    decreases if page <= last then last - page + 1 else 0
  {
    if page > last then Success(st)
    else
      match PageStep(searchTerm, category, limit, responses, page, st)
      case Failure(e) => Failure(e)
      case Success(s) =>
        if s.requestFailed then Success(s)
        else RunPages(searchTerm, category, limit, responses, page + 1, last, s)
  }

  /** The fetch restricted to its first `n` pages: what is collected from pages 1..n. */
  function FetchFirstPages(searchTerm: string, category: string, limit: int, responses: seq<PageResponse>, n: int)
    : Result<Progress, KeyError>
  {
    RunPages(searchTerm, category, limit, responses, 1, n, Start)
  }

  /** The whole fetch. Success carries the (possibly partial) records; a
      KeyError (unknown category, item missing a required key) fails it all. */
  function Fetch(searchTerm: string, category: string, limit: int, responses: seq<PageResponse>)
    : (r: Result<Progress, KeyError>)
    ensures PageCount(limit) < 1 ==> r == Success(Start)
    ensures PageCount(limit) >= 1 && category !in CategoryMap ==> r == Failure(KeyError(category))
  {
    FetchFirstPages(searchTerm, category, limit, responses, PageCount(limit))
  }

  /** The fetch loop as the source runs it: a `for` over pages, an inner `for`
      over the page's items with a running counter, and a `break` out of each. */
  method FetchItems(searchTerm: string, category: string, limit: int, responses: seq<PageResponse>)
    returns (r: Result<Progress, KeyError>)
    ensures r == Fetch(searchTerm, category, limit, responses)
  {
    var items: seq<Listing> := [];
    var requests: seq<Params> := [];
    var requestFailed := false;
    var pages := limit / PageSize + 1;
    var fetched := 0;
    var page := 1;
    while page <= pages
      invariant fetched == |items|
      invariant Fetch(searchTerm, category, limit, responses)
             == RunPages(searchTerm, category, limit, responses, page, pages, Progress(items, requests, false))
      decreases pages - page
    {
      ghost var step := PageStep(searchTerm, category, limit, responses, page, Progress(items, requests, false));
      var params := RequestParams(searchTerm, category, page);
      if params.Failure? {
        assert step == Failure(params.error);
        return Failure(params.error);
      }
      var response := ResponseFor(responses, page);
      requests := requests + [params.value];
      if response.RequestFailed? {
        assert step == Success(Progress(items, requests, true));
        requestFailed := true;
        break;
      }
      var pageItems := PageItems(response);
      ghost var pageResult := TakePage(pageItems, items, limit);
      assert step == match pageResult
        case Failure(e) => Failure(e)
        case Success(ls) => Success(Progress(ls, requests, false));
      var i := 0;
      while i < |pageItems|
        invariant 0 <= i <= |pageItems|
        invariant fetched == |items|
        invariant pageResult == TakePage(pageItems[i..], items, limit)
        decreases |pageItems| - i
      {
        assert pageItems[i..][0] == pageItems[i] && pageItems[i..][1..] == pageItems[i + 1..];
        var rec := Normalise(pageItems[i]);
        if rec.Failure? {
          assert pageResult == Failure(rec.error);
          return Failure(rec.error);
        }
        items := items + [rec.value];
        fetched := fetched + 1;
        if fetched >= limit {
          assert pageResult == Success(items);
          break;
        }
        i := i + 1;
      }
      assert pageResult == Success(items);
      assert step == Success(Progress(items, requests, false));
      page := page + 1;
    }
    r := Success(Progress(items, requests, requestFailed));
  }
}
