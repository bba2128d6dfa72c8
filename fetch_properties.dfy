/** What the fetch loop guarantees: which items of a page are taken, the order
    and number of requests, partial results after a failed request, and how far
    the result can exceed the limit. */
module FetchProperties {
  import opened Wrappers
  import opened Catalog
  import opened Listings
  import opened Fetcher

  /** Normalises every item, in order; the first failure fails the whole sequence. */
  function NormaliseAll(items: seq<RawItem>): (r: Result<seq<Listing>, KeyError>)
    ensures r.Success? ==> |r.value| == |items|
  {
    if items == [] then Success([])
    else
      match Normalise(items[0])
      case Failure(e) => Failure(e)
      case Success(l) =>
        match NormaliseAll(items[1..])
        case Failure(e) => Failure(e)
        case Success(ls) => Success([l] + ls)
  }

  /** NormaliseAll succeeds with one record per item, in order, or fails with
      the error of the first item that does not normalise. */
  lemma {:induction false} NormaliseAllSpec(items: seq<RawItem>)
    ensures var r := NormaliseAll(items);
      && (r.Success? ==> forall i :: 0 <= i < |items| ==> Normalise(items[i]) == Success(r.value[i]))
      && (r.Failure? ==>
            exists i :: 0 <= i < |items| && Normalise(items[i]) == Failure(r.error)
              && forall j :: 0 <= j < i ==> Normalise(items[j]).Success?)
  {
    if items != [] {
      NormaliseAllSpec(items[1..]);
      var r := NormaliseAll(items);
      if r.Failure? && Normalise(items[0]).Success? {
        var i :| 0 <= i < |items[1..]| && Normalise(items[1..][i]) == Failure(r.error)
                 && forall j :: 0 <= j < i ==> Normalise(items[1..][j]).Success?;
        assert Normalise(items[i + 1]) == Failure(r.error);
      }
    }
  }

  /** Puts `acc` in front of the records of a successful result; a failure passes through. */
  function Prepend(acc: seq<Listing>, r: Result<seq<Listing>, KeyError>): Result<seq<Listing>, KeyError> {
    match r
    case Success(ls) => Success(acc + ls)
    case Failure(e) => Failure(e)
  }

  /** NormaliseAll of a non-empty sequence: the head, then the rest. */
  lemma NormaliseAllCons(s: seq<RawItem>)
    requires s != []
    ensures NormaliseAll(s) == match Normalise(s[0])
      case Failure(e) => Failure(e)
      case Success(l) => Prepend([l], NormaliseAll(s[1..]))
  {
  }

  /** One page appends exactly the normalised first `Taken` items, in page
      order, and inspects no item after them: a malformed item past the cut
      does not fail the fetch. */
  lemma {:induction false} TakePageIsNormalisedPrefix(items: seq<RawItem>, acc: seq<Listing>, limit: int)
    ensures TakePage(items, acc, limit) == Prepend(acc, NormaliseAll(items[..Taken(|acc|, limit, |items|)]))
    decreases |items|
  {
    if items == [] {
      assert acc + [] == acc;
    } else if Normalise(items[0]).Failure? {
      FirstItemFails(items, acc, limit);
    } else if |acc| + 1 >= limit {
      LimitReachedAtFirstItem(items, acc, limit);
    } else {
      var l := Normalise(items[0]).value;
      var prefix := items[..Taken(|acc|, limit, |items|)];
      assert prefix[0] == items[0];
      assert prefix[1..] == items[1..][..Taken(|acc + [l]|, limit, |items| - 1)];
      TakePageIsNormalisedPrefix(items[1..], acc + [l], limit);
      NormaliseAllCons(prefix);
      PrependTwice(acc, l, NormaliseAll(prefix[1..]));
    }
  }

  /** Prepending in two steps is prepending the joined prefix. */
  lemma PrependTwice(acc: seq<Listing>, l: Listing, r: Result<seq<Listing>, KeyError>)
    ensures Prepend(acc, Prepend([l], r)) == Prepend(acc + [l], r)
  {
    if r.Success? {
      assert acc + ([l] + r.value) == acc + [l] + r.value;
    }
  }

  /** The case of TakePageIsNormalisedPrefix where the page's first item does not normalise. */
  lemma FirstItemFails(items: seq<RawItem>, acc: seq<Listing>, limit: int)
    requires items != [] && Normalise(items[0]).Failure?
    ensures TakePage(items, acc, limit) == Prepend(acc, NormaliseAll(items[..Taken(|acc|, limit, |items|)]))
  {
    var prefix := items[..Taken(|acc|, limit, |items|)];
    assert prefix != [] && prefix[0] == items[0];
    NormaliseAllCons(prefix);
  }

  /** The case of TakePageIsNormalisedPrefix where the first item's record reaches the limit. */
  lemma LimitReachedAtFirstItem(items: seq<RawItem>, acc: seq<Listing>, limit: int)
    requires items != [] && Normalise(items[0]).Success? && |acc| + 1 >= limit
    ensures TakePage(items, acc, limit) == Prepend(acc, NormaliseAll(items[..Taken(|acc|, limit, |items|)]))
  {
    var prefix := items[..Taken(|acc|, limit, |items|)];
    assert prefix == [items[0]] && prefix[1..] == [];
    NormaliseAllCons(prefix);
    assert acc + ([Normalise(items[0]).value] + []) == acc + [Normalise(items[0]).value];
  }

  /** The over-limit behaviour of the inner `break`: once the limit is reached,
      a later non-empty page still appends its first item, and only that one. */
  lemma PastLimitAppendsOne(items: seq<RawItem>, acc: seq<Listing>, limit: int)
    requires |acc| >= limit && items != []
    ensures TakePage(items, acc, limit) == Prepend(acc, NormaliseAll([items[0]]))
  {
    TakePageIsNormalisedPrefix(items, acc, limit);
    assert items[..1] == [items[0]];
  }

  /** Running pages `page..mid` and then `mid+1..last` is running `page..last`,
      unless a request failed on the way, which ends the loop. */
  lemma {:induction false} RunPagesSplit(searchTerm: string, category: string, limit: int, responses: seq<PageResponse>,
                                         page: int, mid: int, last: int, st: Progress)
    requires page - 1 <= mid <= last
    requires !st.requestFailed
    ensures RunPages(searchTerm, category, limit, responses, page, last, st)
         == match RunPages(searchTerm, category, limit, responses, page, mid, st)
            case Failure(e) => Failure(e)
            case Success(s) =>
              if s.requestFailed then Success(s)
              else RunPages(searchTerm, category, limit, responses, mid + 1, last, s)
    decreases mid - page + 1
  {
    if page <= mid {
      var step := PageStep(searchTerm, category, limit, responses, page, st);
      if step.Success? && !step.value.requestFailed {
        RunPagesSplit(searchTerm, category, limit, responses, page + 1, mid, last, step.value);
      }
    }
  }

  /** A run of pages keeps the records it started with and sends requests
      for consecutive pages, each with that page's own parameters. */
  lemma {:induction false} RunPagesRequests(searchTerm: string, category: string, limit: int,
                                            responses: seq<PageResponse>, page: int, last: int, st: Progress)
    requires |st.requests| == page - 1
    requires forall i :: 0 <= i < |st.requests| ==> RequestParams(searchTerm, category, i + 1) == Success(st.requests[i])
    ensures var r := RunPages(searchTerm, category, limit, responses, page, last, st);
      r.Success? ==>
        && st.listings <= r.value.listings
        && forall i :: 0 <= i < |r.value.requests| ==>
             RequestParams(searchTerm, category, i + 1) == Success(r.value.requests[i])
    decreases if page <= last then last - page + 1 else 0
  {
    if page <= last {
      var step := PageStep(searchTerm, category, limit, responses, page, st);
      if step.Success? && !step.value.requestFailed {
        RunPagesRequests(searchTerm, category, limit, responses, page + 1, last, step.value);
      }
    }
  }

  /** Where a run of pages stops: at the first failed page, which is the last
      one requested; without a failure, after requesting every page up to
      `last`, also those after the limit is reached. */
  lemma {:induction false} RunPagesStop(searchTerm: string, category: string, limit: int,
                                        responses: seq<PageResponse>, page: int, last: int, st: Progress)
    requires !st.requestFailed
    requires |st.requests| == page - 1
    ensures var r := RunPages(searchTerm, category, limit, responses, page, last, st);
      r.Success? ==>
        && (r.value.requestFailed ==>
              && page <= |r.value.requests| <= last
              && ResponseFor(responses, |r.value.requests|).RequestFailed?
              && forall k :: page <= k < |r.value.requests| ==> ResponseFor(responses, k).Received?)
        && (!r.value.requestFailed ==>
              && |r.value.requests| == (if last < page then page - 1 else last)
              && forall k :: page <= k <= last ==> ResponseFor(responses, k).Received?)
    decreases if page <= last then last - page + 1 else 0
  {
    if page <= last {
      var step := PageStep(searchTerm, category, limit, responses, page, st);
      if step.Success? && !step.value.requestFailed {
        RunPagesStop(searchTerm, category, limit, responses, page + 1, last, step.value);
      }
    }
  }

  /** Pages are requested as 1, 2, 3, ... with the search term, `per_page` 50 and
      the category's filter; a failed request is the last one sent; without a
      failure all `limit // 50 + 1` pages are requested. */
  lemma FetchRequestsInOrder(searchTerm: string, category: string, limit: int, responses: seq<PageResponse>)
    ensures var r := Fetch(searchTerm, category, limit, responses);
      r.Success? ==>
        && (forall i :: 0 <= i < |r.value.requests| ==>
              RequestParams(searchTerm, category, i + 1) == Success(r.value.requests[i]))
        && (r.value.requestFailed <==>
              exists k :: 1 <= k <= PageCount(limit) && ResponseFor(responses, k).RequestFailed?)
        && (r.value.requestFailed ==>
              && 1 <= |r.value.requests| <= PageCount(limit)
              && ResponseFor(responses, |r.value.requests|).RequestFailed?)
        && (!r.value.requestFailed ==> |r.value.requests| == if PageCount(limit) < 1 then 0 else PageCount(limit))
  {
    RunPagesRequests(searchTerm, category, limit, responses, 1, PageCount(limit), Start);
    RunPagesStop(searchTerm, category, limit, responses, 1, PageCount(limit), Start);
  }

  /** A failed request for page k, the first failed page, ends the fetch and
      adds no error of its own: the result is what pages 1..k-1 produced (the
      error of a malformed item they read, otherwise their records), and page k
      is the last page requested. */
  lemma FailedPageKeepsEarlierRecords(searchTerm: string, category: string, limit: int,
                                      responses: seq<PageResponse>, k: int)
    requires category in CategoryMap
    requires 1 <= k <= PageCount(limit)
    requires ResponseFor(responses, k).RequestFailed?
    requires forall j :: 1 <= j < k ==> ResponseFor(responses, j).Received?
    ensures match FetchFirstPages(searchTerm, category, limit, responses, k - 1)
      case Failure(e) => Fetch(searchTerm, category, limit, responses) == Failure(e)
      case Success(s) =>
        Fetch(searchTerm, category, limit, responses)
          == Success(Progress(s.listings, s.requests + [RequestParams(searchTerm, category, k).value], true))
  {
    RunPagesStop(searchTerm, category, limit, responses, 1, k - 1, Start);
    RunPagesSplit(searchTerm, category, limit, responses, 1, k - 1, PageCount(limit), Start);
  }

  /** A malformed item in the part of a page that is read fails the whole
      fetch: the item loop is outside the `try`, so the records of the earlier
      pages are not returned. Here page j is received after pages 1..j-1
      produced `s` without a failed request, and normalising the items of page
      j that the inner loop reads fails with `e`. */
  lemma MalformedItemFails(searchTerm: string, category: string, limit: int, responses: seq<PageResponse>,
                           j: int, s: Progress, e: KeyError)
    requires category in CategoryMap
    requires 1 <= j <= PageCount(limit)
    requires FetchFirstPages(searchTerm, category, limit, responses, j - 1) == Success(s) && !s.requestFailed
    requires ResponseFor(responses, j).Received?
    requires var items := PageItems(ResponseFor(responses, j));
      NormaliseAll(items[..Taken(|s.listings|, limit, |items|)]) == Failure(e)
    ensures Fetch(searchTerm, category, limit, responses) == Failure(e)
  {
    RunPagesSplit(searchTerm, category, limit, responses, 1, j - 1, PageCount(limit), Start);
    TakePageIsNormalisedPrefix(PageItems(ResponseFor(responses, j)), s.listings, limit);
  }

  /** The loop invariant behind the length bound, after `p` pages with `n`
      records: at most 50 per page, and every record beyond the limit came from
      its own page after one by whose end the limit could have been reached. */
  ghost predicate WithinBound(n: int, p: int, limit: int) {
    n <= PageSize * p && (n <= limit || PageSize * (p - (n - limit)) >= limit)
  }

  /** The upstream honours `per_page`: no received page holds more than 50 items. */
  ghost predicate PagesWithinSize(responses: seq<PageResponse>) {
    forall k :: 0 <= k < |responses| && responses[k].Received? ==> |PageItems(responses[k])| <= PageSize
  }

  /** One page of at most 50 items keeps WithinBound. */
  lemma BoundStep(n: int, p: int, limit: int, m: nat)
    requires WithinBound(n, p, limit) && m <= PageSize
    ensures WithinBound(n + Taken(n, limit, m), p + 1, limit)
  {
  }

  /** A run of pages with at most 50 items each keeps WithinBound. */
  lemma {:induction false} RunPagesBound(searchTerm: string, category: string, limit: int, responses: seq<PageResponse>,
                                         page: int, last: int, st: Progress)
    requires PagesWithinSize(responses)
    requires page >= 1
    requires WithinBound(|st.listings|, page - 1, limit)
    ensures var r := RunPages(searchTerm, category, limit, responses, page, last, st);
      r.Success? ==> WithinBound(|r.value.listings|, if last < page then page - 1 else last, limit)
    decreases if page <= last then last - page + 1 else 0
  {
    if page <= last {
      var step := PageStep(searchTerm, category, limit, responses, page, st);
      if step.Success? {
        var response := ResponseFor(responses, page);
        if response.Received? {
          assert TakePage(PageItems(response), st.listings, limit) == Success(step.value.listings);
          BoundStep(|st.listings|, page - 1, limit, |PageItems(response)|);
        } else {
          assert step.value.listings == st.listings;
        }
        if !step.value.requestFailed {
          RunPagesBound(searchTerm, category, limit, responses, page + 1, last, step.value);
        }
      }
    }
  }

  /** With pages of at most 50 items the fetch returns at most `limit + 1`
      records, and at most `limit` when `limit` is not a multiple of 50: the
      extra record comes from the one page past `limit / 50`. */
  lemma FetchLengthBound(searchTerm: string, category: string, limit: int, responses: seq<PageResponse>)
    requires PagesWithinSize(responses)
    ensures var r := Fetch(searchTerm, category, limit, responses);
      r.Success? ==>
        && (limit >= 0 ==> |r.value.listings| <= limit + 1)
        && (limit > 0 && limit % PageSize != 0 ==> |r.value.listings| <= limit)
        && (limit < 0 ==> r.value.listings == [])
  {
    var pages := PageCount(limit);
    if pages >= 1 {
      RunPagesBound(searchTerm, category, limit, responses, 1, pages, Start);
      assert limit == PageSize * (limit / PageSize) + limit % PageSize;
    }
  }

  /** A received page of 50 items that all normalise. */
  ghost predicate FullPage(response: PageResponse) {
    && response.Received?
    && |PageItems(response)| == PageSize
    && forall i :: 0 <= i < PageSize ==> Normalise(PageItems(response)[i]).Success?
  }

  /** Full pages from `page` to `last`, with 50 records per earlier page, end with `limit + 1` records. */
  lemma {:induction false} FullPagesRun(searchTerm: string, category: string, limit: int, responses: seq<PageResponse>,
                                        page: int, last: int, st: Progress)
    requires category in CategoryMap
    requires 1 <= page <= last
    requires limit == PageSize * (last - 1)
    requires |st.listings| == PageSize * (page - 1)
    requires forall k :: page <= k <= last ==> FullPage(ResponseFor(responses, k))
    ensures var r := RunPages(searchTerm, category, limit, responses, page, last, st);
      r.Success? && !r.value.requestFailed && |r.value.listings| == limit + 1
    decreases last - page
  {
    var items := PageItems(ResponseFor(responses, page));
    var n := Taken(|st.listings|, limit, |items|);
    TakePageIsNormalisedPrefix(items, st.listings, limit);
    NormaliseAllSpec(items[..n]);
    if page < last {
      var p := RequestParams(searchTerm, category, page).value;
      var ls := TakePage(items, st.listings, limit).value;
      FullPagesRun(searchTerm, category, limit, responses, page + 1, last, Progress(ls, st.requests + [p], false));
    }
  }

  /** The over-fetch made concrete: when `limit` is a multiple of 50 and every
      page is full, the fetch returns `limit + 1` records, because the last page
      is requested after the limit is reached and contributes one record. */
  lemma FullPagesOverfetchByOne(searchTerm: string, category: string, limit: int, responses: seq<PageResponse>)
    requires category in CategoryMap
    requires limit >= 0 && limit % PageSize == 0
    requires forall k :: 1 <= k <= PageCount(limit) ==> FullPage(ResponseFor(responses, k))
    ensures var r := Fetch(searchTerm, category, limit, responses);
      r.Success? && !r.value.requestFailed && |r.value.listings| == limit + 1
  {
    FullPagesRun(searchTerm, category, limit, responses, 1, PageCount(limit), Start);
  }
}
