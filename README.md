# parse-stitch-query in Dafny

`StitchQuery(query, superStitch)` works around the 1,000-result cap of a
Parse query. It runs the same query again and again, one page of 1,000
records at a time, and concatenates the pages into one result.

- Without `superStitch` it fetches pages 0..9 by `skip` and stops after the
  tenth. That is at most 10,000 records.
- With `superStitch` it first sorts the query ascending by `createdAt`.
  When the ten-page offset budget is spent on full pages, it adds a
  `createdAt > last createdAt` cursor and restarts the offset at 0.
- The first page shorter than 1,000 records resolves the call with
  everything collected so far. A failed fetch rejects the call with that
  fetch's error.

The model has three files:

- `wrappers.dfy` holds `Option` and `Result`.
- `engine.dfy` models the query engine one fetch runs against. The
  collection is a sequence of `Record`s in stored order. `Find` keeps the
  records created strictly after an optional cursor, optionally sorts them
  with a stable sort on `createdAt`, then takes the `[skip, skip + limit)`
  window. A `Request` holds the skip, limit, cursor and ordering that the
  mutated query carries when `find()` is called.
- `stitch.dfy` models the stitcher.
  - `StitchQuery` is a method whose `while` loop stands for the
    self-recursion of `getNextPage`.
  - `GetNextPage` is one call of `getNextPage`.
  - `AppendAll` is the `forEach`/`push` loop.
  - The requests issued are returned as a fetch log. Which fetches fail is
    an input: a map from the 0-based fetch number to the error.

What is proved:

- The loop terminates on every collection, with or without duplicate
  creation times. The measure is the pair (records created after the
  cursor, pages left in the budget).
- The result is characterised by `Settled`:
  - every fetch is page-aligned, below the budget, and has limit 1,000;
  - the fetches form a trace that follows the continue/restart rule;
  - a failure rejects at the first fault, with that fault's error (later
    entries of `faults` are never reached);
  - a resolution returns the concatenated pages, and happens only where
    the source resolves;
  - without superStitch the result is the stored prefix of
    `min(N, 10000)` records, fetched in `min(N div 1000 + 1, 10)` fetches;
  - with superStitch and distinct creation times the result is the whole
    collection sorted by `createdAt`.

The decision logic is defined by five specification functions in
`stitch.dfy`. None has a contract of its own; the lemmas and methods in the
table below state their properties.

- `PageRequest` is the request one `getNextPage` call issues
  (index.js:37-40).
- `Pages` is the concatenation of the pages the fetches return
  (index.js:35, 46).
- `Follows` is the continue/restart rule after a full page
  (index.js:50-54).
- `ValidTrace` is a sequence of fetches where every fetch but the last
  returned a full page, the first fetch is page 0 without a cursor, and
  each later fetch follows the one before it (index.js:36-54, 66).
- `Resolved` says the last fetch resolves the call: a short page, or the
  spent budget without superStitch (index.js:55-59).

In `engine.dfy`, `Filter` is the `greaterThan('createdAt', startDate)`
constraint (index.js:39-40). `SortByCreatedAt` is the `ascending('createdAt')`
ordering (index.js:31). `SortByCreatedAt` has no contract of its own;
`SortPermutes`, `SortMembers` and `SortStrict` state its properties.

`Settled` combines these into the contract of `StitchQuery`
(index.js:24-68).

Separate lemmas cover three further facts:

- traces are deterministic, so a settled run is unique: the same
  collection, mode and faults give the same fetches and the same outcome
  (`SettledUnique`);
- the stitched records only grow;
- a restart happens only after a full page. At that point the record read
  by `lastResult` exists, the cursor strictly increases, and fewer records
  remain after it.

Six methods replay the repository's test cases as clients of
`StitchQuery`. Each contract states the length of the result, and where
the test implies more, the records themselves. A seventh scenario,
`FourthFetchFails`, has no counterpart among the tests. Its contract says
that a failure of the fourth fetch rejects the call with that fetch's error
after exactly four fetches.

## Model

| member | source | states |
|---|---|---|
| Stitch.StitchQuery | index.js:24-68 | the call always settles (the loop terminates); the outcome and fetch log satisfy `Settled`: well-formed page-aligned requests, failure exactly at the first fault with its error, otherwise resolution with all pages in fetch order at a short page or (no superStitch) the spent budget; without superStitch the result is the first `min(N, 10000)` stored records in `min(N div 1000 + 1, 10)` fetches; with superStitch and distinct `createdAt` it is the whole collection sorted ascending |
| Stitch.GetNextPage | index.js:36-64 | issues `skip = curPage*1000, limit 1000, cursor startDate`; on a fault settles with that error; otherwise appends the page and either continues to `curPage + 1` with the same cursor, restarts at page 0 behind a cursor that leaves strictly fewer records, or settles, each from and to a state satisfying the stitcher's invariant |
| Stitch.AppendAll | index.js:46 | the stitched results after the `forEach` push are the old results followed by the page, in page order |
| Stitch.Step | index.js:45-63 | from a ready state, each of the five outcomes of one fetch (fault, short page, next offset page, cursor restart, spent budget) leads to a ready state or to `Settled` |
| Stitch.FetchStep | index.js:37-46 | issuing the pending request extends the trace, keeps every request well-formed, and makes the stitched results the concatenation of the pages so far |
| Stitch.FetchIsWellFormed | index.js:25-28 | every fetch has `skip = curPage * 1000` with `curPage < 10`, limit 1000 and the mode's ordering; without superStitch fetch i is page i with no cursor |
| Stitch.FetchFollowsView | index.js:37-43 | with stored order, or sorted with distinct `createdAt`, each page is the next slice of the collection in that order and the stitched results are its prefix |
| Stitch.WindowOfView | index.js:30-43 | the records a cursor window can reach are the suffix of the ordered collection after the last stitched record |
| Stitch.PageOfView | index.js:37-43 | the page at offset `skip` of a window is the slice `[base + skip, base + skip + 1000)` of the ordered collection |
| Stitch.ContinueStep | index.js:50-52 | a full page below the budget continues with `curPage + 1` and the same `startDate` |
| Stitch.ResetStep | index.js:53-54 | a full tenth page in superStitch mode leaves the results non-empty (so `lastResult` exists); it restarts at page 0 with `startDate = lastResult.createdAt` and strictly fewer records created after the new cursor |
| Stitch.BudgetEnd | index.js:55-56 | a full tenth page without superStitch resolves with the 10,000 records gathered, silently truncating |
| Stitch.ShortPageEnd | index.js:58-59 | a page shorter than 1000, empty included, resolves with everything accumulated |
| Stitch.FailureEnd | index.js:63 | a failed fetch rejects the call with that fetch's error and no records |
| Stitch.TraceWellFormed | index.js:28-37 | every fetch of any trace is page-aligned below the budget, with limit 1000 and the mode's ordering |
| Stitch.FollowsWellFormed | index.js:51-54 | the request after a full page, by offset continuation or by restart, keeps a page-aligned skip below the budget, limit 1000 and the ordering |
| Stitch.LastStep | index.js:47-54 | between the last two fetches of a trace: the earlier page was full; an offset continuation keeps the cursor and adds 1000 to the skip; a restart happens only in superStitch mode after page 9, with a non-empty result, behind the last record's `createdAt`, which is later than the old cursor and leaves fewer records |
| Stitch.TraceStep | index.js:47-54 | the same relation between fetches `i` and `i + 1` of any trace |
| Stitch.TracesAgree | index.js:50-54 | two traces of equal length over the same collection and mode are the same fetches |
| Stitch.ContinuedPrefix | index.js:50-60 | a trace that goes on past fetch k did not settle at k |
| Stitch.ResolvedTraceUnique | index.js:45-60 | two settled traces over the same collection and mode are identical and deliver the same records |
| Stitch.SettledPrefix | index.js:45-63 | a settled run is not a strict prefix of another settled run of the same query, collection and faults |
| Stitch.SettledUnique | index.js:24-68 | two settled runs of the same query over the same collection and faults issue the same fetches and settle with the same outcome, failures included |
| Stitch.PagesGrow | index.js:35-46 | the stitched results only grow: those of a prefix of the fetches are a prefix of the final ones |
| Stitch.HundredRecords | test.js:33-41 | 100 records: success with 100 results after one fetch |
| Stitch.ThousandRecords | test.js:43-51 | exactly 1000 records: success with 1000 results after two fetches, the second returning an empty page |
| Stitch.ThousandAndOneRecords | test.js:53-61 | 1001 records: success with 1001 results after two fetches |
| Stitch.TenThousandRecords | test.js:63-72 | 10,000 records: success with 10,000 results after ten fetches |
| Stitch.TruncatedRecords | test.js:74-82 | 10,100 records without superStitch: success with the first 10,000 stored records, no error |
| Stitch.SuperStitchedRecords | test.js:84-92 | 10,100 records with superStitch: success with all 10,100 records, exactly the collection sorted ascending by `createdAt` |
| Stitch.FourthFetchFails | index.js:63 | a failure of fetch 3 rejects with that error after exactly four fetches |
| Engine.Filter | index.js:39-40 | `greaterThan('createdAt', startDate)` keeps at most the records it is given; membership is characterised by `FilterMembers` |
| Engine.Find | index.js:43 | one `find()` returns at most `limit` records |
| Engine.FindMembers | index.js:39-43 | every record a fetch returns is stored and created strictly after the cursor |
| Engine.FilterMembers | index.js:39-40 | a record passes `greaterThan('createdAt', startDate)` exactly when it is stored and created after the cursor |
| Engine.Slice | index.js:37 | the skip/limit window has `min(limit, n - skip)` records, and none when `skip >= n` |
| Engine.SortPermutes | index.js:31 | `SortByCreatedAt`, the engine's `ascending('createdAt')`, permutes the records and orders them by `createdAt` |
| Engine.SortMembers | index.js:31 | sorting neither adds nor drops a record |
| Engine.SortStrict | index.js:31 | with distinct creation times the sorted records are strictly ascending |
| Engine.FilterSort | index.js:30-41 | filtering by the cursor commutes with the sort |
| Engine.FilterSplit | index.js:39-40 | when exactly the first k records fail the filter, it yields the suffix from k |
| Engine.FilterShrinks | index.js:53-54 | a later cursor keeps no more records |
| Engine.FilterShrinksStrictly | index.js:53-54 | a cursor at the creation time of a record that passes the current filter keeps strictly fewer records (termination of superStitch) |

## Left out

- The Parse SDK, `Parse.Promise` and the `.done`/`.fail` chaining. A fetch is a sequential call that returns a page or an error. Which fetches fail is an input map, because the network is not modelled.
- Asynchrony and concurrency between independent stitch calls. Neither changes what one call computes.
- The mutable Parse `Query` object. It appears only as the `Request` each `find()` sees. `greaterThan` is applied again on every fetch once `startDate` exists. Its value changes only at a restart, and `startDate` is never cleared. So the request's cursor is always the current `startDate`.
- `Date` values. `createdAt` is an integer. The truthiness test `if (startDate)` is `Option`, because a `Date` object is always truthy.
- Engine options. `find()` is called with no arguments, so no option record is modelled. The second parameter is read only as a truthy flag, so any options object turns superStitch on; the model takes a `bool`.
- Stitch.StitchQuery: superStitch completeness is stated only for collections with distinct `createdAt`. The cursor uses strict `greaterThan`, so unseen records that share the boundary creation time are skipped after a restart. The model's `Find` keeps that behaviour, and termination is proved for every collection.
- The query's own constraints. The collection `c` stands for the records the caller's query matches. A caller-supplied sort is not modelled. The source warns against combining one with superStitch (index.js:21).
- Engine order. Without `ascending('createdAt')` the model's engine returns records in one fixed stored order on every fetch. An engine whose unsorted order varies between fetches is not modelled. The stored-prefix result without superStitch and the uniqueness lemmas `ResolvedTraceUnique` and `SettledUnique` depend on that fixed order.
- Rejection. `pagePromise.fail(stitchedPromise.reject)` passes `reject` unbound (index.js:63). The model assumes this rejects the stitched promise with the fetch's error. That depends on how `Parse.Promise` binds its methods, and `Parse.Promise` is not part of this model.
- The tests' mock database and assertion library. Their object creation becomes `Collection(n)`, with ids and creation times `0..n-1`.
