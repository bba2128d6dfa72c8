# Vinted deal finder: listing synchronisation core

A Dafny model of the logic behind the deal finder's search page (`app.py`).
The page searches the Vinted catalogue, shows which listings are new since
the last search, and keeps named favourite searches. The model covers four
parts:

- **Catalog resolution** (`catalog.dfy`, module `Catalog`). A category name is
  looked up in the fixed category table. "All" means the request carries no
  `catalog_ids`. Every other known name attaches its id. An unknown name is a
  `KeyError`.
- **Listing fetch** (`listings.dfy`, `fetch.dfy`, `fetch_properties.dfy`).
  `Listings.Normalise` turns one raw item into the fixed record. Brand and
  condition have defaults. The link is the site root followed by the item's
  path. A missing `id`, `title`, `price` or `url` is a `KeyError`.
  `Fetcher.FetchItems` is the page loop as the source writes it: pages
  `1 .. limit // 50 + 1` in order, an inner loop over the page's items, a
  running counter, and a `break` out of each loop. The upstream is an input:
  the sequence of responses to pages 1, 2, 3, … Each response is either a
  failed request or a decoded body. The method is proved equal to the
  page-by-page specification `Fetcher.Fetch`.
  `FetchProperties` proves what that specification implies:
  - which items of a page are taken;
  - the order and parameters of the requests;
  - that a failed request keeps the records already collected;
  - the length bound, including the over-fetch described below.
- **Snapshot differ** (`snapshot.dfy`, module `Snapshot`). `SnapshotStore`
  holds the last fetched table, or nothing before the first run.
  `DetectNewItems` returns the whole table on the first run. On later runs it
  returns the rows whose id was not in the previous table, in table order,
  with duplicates kept. It then replaces the stored table.
- **Favourites** (`favorites.dfy`, module `Favorites`). `FavoritesStore` holds
  the favourites file, or nothing before the first save. `Load` gives the
  empty map when nothing is stored. `SaveFavorite` upserts one entry by name.

`wrappers.dfy` holds `Option`, `Result` and `KeyError`, the error of a failed
dictionary lookup.

### Behaviour of the code that the model keeps

- **Over-fetch.** The `break` at app.py:74 leaves only the inner loop. Once
  the count reaches `limit`, every later page is still requested. Each later
  page that has items appends exactly one more record. The result can
  therefore hold `limit + 1` records. Provided the upstream returns at most
  50 items per page, that happens only when `limit` is a multiple of 50
  (`FetchLengthBound`), and it always happens when every page is full
  (`FullPagesOverfetchByOne`). A page longer than 50 items can push the count
  further past the limit, by one record for every later page.
- **Malformed items.** A raw item without `id`, `title`, `price` or `url`
  fails the whole fetch with that `KeyError`. The item loop is outside the
  `try`, so no partial result is returned in this case
  (`MalformedItemFails`). Items after the one
  that reaches the limit are never read, so a malformed item there does no
  harm (`TakePageIsNormalisedPrefix`).
- **Unknown category.** The category lookup happens inside the page loop,
  before the request. An unknown name therefore fails only when at least one
  page is requested, that is when `limit >= 0`.
`limit` is an unbounded integer. Python's `limit // 50` rounds down. Dafny's
`/` by a positive divisor does the same, negative limits included.

## Model

| member | source | states |
|---|---|---|
| Catalog.Resolve | app.py:13-22 | fails with `KeyError(category)` exactly when the name is not in the category table; gives "no filter" exactly for "All"; for any other known name gives the catalog id from the table |
| Catalog.ResolveInjective | app.py:13-22 | two different category names never resolve to the same filter |
| Listings.BrandName | app.py:67 | the brand object's title when both the object and its title are present, otherwise "Unknown" |
| Listings.ConditionLabel | app.py:68 | the label is not "Unknown" exactly when the status is present and in 1..5; a code in the table gives its table label; every label is "Unknown" or a table value |
| Listings.Normalise | app.py:63-71 | succeeds exactly when id, title, price and url are all present; otherwise the error is the `KeyError` of the first missing one in that order |
| Listings.NormaliseFields | app.py:63-71 | a normalised record copies id, title and price; brand and condition follow their defaults; the link is the site root followed by the url; created is the raw string or "" |
| Fetcher.PageCount | app.py:41 | the number of pages is at least 1 exactly when `limit` is not negative, and then `50 * (pages - 1) <= limit < 50 * pages` |
| Fetcher.RequestParams | app.py:45-52 | fails with `KeyError(category)` exactly for an unknown category; otherwise the search text, `per_page` 50 and the page number, with `catalog_ids` absent exactly for "All" and otherwise equal to the table's id |
| Fetcher.Taken | app.py:72-74 | below the limit, a page contributes all its items up to the one that reaches the limit; at or past the limit it contributes one item if it has any |
| Fetcher.TakePage | app.py:62-74 | one page extends the records by exactly `Taken` records and keeps the earlier records as a prefix |
| Fetcher.PageStep | app.py:44-74 | one pass of the page loop fails with `KeyError(category)` for an unknown category; when it succeeds it adds exactly one request and stops the loop exactly when that request failed; a malformed item in the read part of the page fails it |
| Fetcher.RunPages | app.py:44-74 | a run of the page loop that ends without a failed request has sent one request for every page in its range |
| Fetcher.Fetch | app.py:41-74 | a limit with no pages (`limit // 50 + 1 < 1`) gives an empty result; otherwise an unknown category fails with its `KeyError` |
| Fetcher.FetchItems | app.py:34-75 | the nested loop with its counter and both `break`s returns exactly the page-by-page specification `Fetch` |
| FetchProperties.NormaliseAllSpec | app.py:62-71 | normalising a run of items succeeds with one record per item, in order, or fails with the error of the first item that does not normalise |
| FetchProperties.TakePageIsNormalisedPrefix | app.py:62-74 | a page appends exactly the normalised first `Taken` items, in page order; items past the cut are never inspected |
| FetchProperties.PastLimitAppendsOne | app.py:72-74 | once the count has reached the limit, a non-empty page appends its first item's record and nothing more |
| FetchProperties.RunPagesSplit | app.py:44-60 | running pages a..m and then m+1..n equals running a..n, unless a failed request ended the loop |
| FetchProperties.RunPagesRequests | app.py:44-60 | a run of pages keeps the records it started with and sends requests for consecutive pages, each with that page's parameters |
| FetchProperties.RunPagesStop | app.py:54-60 | a run of pages stops at the first failed page, which is the last one requested; without a failure it requests every page up to the last |
| FetchProperties.FetchRequestsInOrder | app.py:44-60 | request i is for page i with the term, `per_page` 50 and the category filter; the fetch reports a failed request exactly when one of pages 1..`limit // 50 + 1` fails, and that page is the last one requested; without a failure all `limit // 50 + 1` pages are requested |
| FetchProperties.FailedPageKeepsEarlierRecords | app.py:54-60 | if page k is the first failed page, the fetch returns what pages 1..k-1 produced: the error of a malformed item they read, otherwise exactly their records, with the requests for pages 1..k |
| FetchProperties.MalformedItemFails | app.py:54-74 | if the read part of a received page holds an item that does not normalise, and pages 1..j-1 succeeded without a failed request, the whole fetch fails with the `KeyError` of the first such item and returns no records |
| FetchProperties.FetchLengthBound | app.py:41-74 | with pages of at most 50 items the result has at most `limit + 1` records, at most `limit` when `limit` is not a multiple of 50, and none when `limit` is negative |
| FetchProperties.FullPagesOverfetchByOne | app.py:41-74 | when `limit` is a multiple of 50 and every page is full and well formed, the fetch succeeds with exactly `limit + 1` records |
| Snapshot.Ids | app.py:101 | the id set of a table holds exactly the ids of its rows |
| Snapshot.KeepIds | app.py:102 | `isin` keeps no more rows than the table has, and every kept row has a kept id |
| Snapshot.KeepIdsContents | app.py:102 | the rows kept by id are exactly the rows whose id is kept, each as often as in the table |
| Snapshot.NewListings | app.py:100-102 | a row is new exactly when it is in the current table and its id is not in the previous one; every new row keeps its multiplicity, so duplicate ids are not merged |
| Snapshot.NewListingsDropSeen | app.py:101-102 | the set difference followed by `isin` equals dropping, row by row, the rows whose id is in the previous table |
| Snapshot.NewListingsKeepOrder | app.py:102 | the new rows of a concatenation are the new rows of each part, in the same order |
| Snapshot.NothingNewWhenAllSeen | app.py:100-104 | when every current id was already in the snapshot, nothing is new |
| Snapshot.SecondDiffIsEmpty | app.py:100-104 | diffing a table against itself, as an immediate second run does, gives nothing |
| Snapshot.AllNewWhenNoneSeen | app.py:100-104 | when no current id was in the snapshot, the whole table is returned unchanged |
| Snapshot.SnapshotStore.DetectNewItems | app.py:95-104 | on the first run returns the current table; afterwards returns its new listings against the stored table; in both cases the stored table becomes the current one |
| Favorites.Upsert | app.py:89-90 | the saved name maps to the new query, the other entries are kept, and no other name is added |
| Favorites.UpsertLastWriteWins | app.py:88-92 | saving twice under one name leaves the second query, with a single entry |
| Favorites.FavoritesStore.Load | app.py:81-85 | the stored favourites, or the empty map when nothing has been saved |
| Favorites.FavoritesStore.SaveFavorite | app.py:88-92 | afterwards the stored favourites are the previously loaded ones with the query upserted under the name |

## Left out

- The default `limit=100` of the fetch (app.py:34) is not modelled: `limit` is always an argument, as at both call sites (app.py:117, 145).
- The Streamlit page (app.py:106-151) and the error message shown when a request fails (app.py:59) are presentation only.
- The HTTP call is not modelled: URL, User-Agent header, `raise_for_status` and JSON decoding (app.py:35-38, 55-57). It is replaced by one response per page, which is either a failed request or a decoded body. Pages beyond the given responses count as failed requests.
- JSON values of an unexpected type are not modelled. Examples: a `null` brand object (the source then raises an `AttributeError`), a body that is not an object, `items` set to `null`, non-integer ids. Raw items are typed; only the absence of a key is modelled.
- The DataFrame construction and `pd.to_datetime` (app.py:76-77) are not modelled. `Created` stays the upstream string. A date string pandas cannot parse, or an empty result, makes the source raise there; the model returns the records instead.
- File I/O is not modelled (app.py:82-84, 91-92, 96-103). The snapshot and favourites files are class fields, and `None` means the file does not exist. The type coercion of `read_csv` on the ID column is not modelled.
- The favourites map is unordered, so the insertion order that JSON keeps is not modelled.
- Prices are opaque strings; no decimal arithmetic is done on them.
- There is no concurrency in the source, and none is modelled.
