/**
 * StitchQuery: runs one query repeatedly, 1000 records per page, and stitches
 * the pages into one result. Without superStitch it stops after 10 pages
 * (10,000 records); with superStitch it sorts by `createdAt` and, when the
 * offset budget is spent, restarts the offset at 0 behind a
 * `createdAt > last createdAt` cursor.
 *
 * The query object the source mutates is modelled by the requests it carries
 * at each `find()`, returned as the fetch log; which fetches fail is an
 * oracle, `faults`, keyed by the 0-based number of the fetch.
 */
module Stitch {
  import opened Wrappers
  import opened Engine

  const PageSize: nat := 1000
  const MaxQueries: nat := 10

  /** The failure value a rejected `find()` carries. */
  datatype FetchError = FetchError(code: int, message: string)

  /** The page number a request's skip stands for. */
  function PageIndex(r: Request): nat { r.skip / PageSize }

  /** What every fetch is issued with: skip = curPage * 1000 for a page below 10, and limit 1000. */
  predicate WellFormed(r: Request, superStitch: bool) {
    r.skip == PageIndex(r) * PageSize && PageIndex(r) < MaxQueries
    && r.limit == PageSize && r.ascending == superStitch
  }

  /** The records the fetches of `log` return, concatenated in fetch order. */
  function Pages(c: seq<Record>, log: seq<Request>): seq<Record>
  {
    if log == [] then [] else Pages(c, log[..|log| - 1]) + Find(c, log[|log| - 1])
  }

  /** The request `getNextPage(curPage, startDate)` issues. */
  function PageRequest(curPage: nat, startDate: Option<int>, superStitch: bool): Request {
    Request(curPage * PageSize, PageSize, startDate, superStitch)
  }

  /** The number of records created after `cursor`: those a window with that cursor can still reach. */
  function Remaining(c: seq<Record>, cursor: Option<int>): nat { |Filter(c, cursor)| }

  /**
   * After a full page for the last request of `prefix`, the next request
   * either advances the offset by one page keeping the cursor, or (only in
   * superStitch mode, once the 10-page budget is spent) restarts at offset 0
   * behind the creation time of the last record stitched so far.
   */
  ghost predicate Follows(c: seq<Record>, superStitch: bool, prefix: seq<Request>, next: Request)
    requires prefix != []
  {
    var last := prefix[|prefix| - 1];
    var acc := Pages(c, prefix);
    if PageIndex(last) + 1 < MaxQueries then
      next == last.(skip := (PageIndex(last) + 1) * PageSize)
    else
      superStitch && acc != [] && next == Request(0, PageSize, Some(acc[|acc| - 1].createdAt), superStitch)
  }

  /** `log` is a sequence of fetches the stitcher can issue, every fetch but the last having returned a full page. */
  ghost predicate ValidTrace(c: seq<Record>, superStitch: bool, log: seq<Request>)
    decreases |log|
  {
    if log == [] then true
    else if |log| == 1 then log[0] == PageRequest(0, None, superStitch)
    else
      var prefix := log[..|log| - 1];
      ValidTrace(c, superStitch, prefix)
      && |Find(c, prefix[|prefix| - 1])| == PageSize
      && Follows(c, superStitch, prefix, log[|log| - 1])
  }

  /** The last fetch of `log` settles the call: a short page, or the budget spent without superStitch. */
  ghost predicate Resolved(c: seq<Record>, superStitch: bool, log: seq<Request>)
  {
    log != [] &&
    var last := log[|log| - 1];
    |Find(c, last)| < PageSize || (PageIndex(last) + 1 >= MaxQueries && !superStitch)
  }

  /** superStitch's completeness result applies: stored order, or a sort over distinct creation times. */
  ghost predicate Tracked(c: seq<Record>, superStitch: bool) {
    !superStitch || DistinctCreatedAt(c)
  }

  /** The order in which the stitcher meets the records: sorted in superStitch mode, stored order otherwise. */
  ghost function View(c: seq<Record>, superStitch: bool): seq<Record> {
    if superStitch then SortByCreatedAt(c) else c
  }

  /** The cursor that starts a window at position `base` of the view. */
  ghost function CursorAt(view: seq<Record>, base: nat): Option<int>
    requires base <= |view|
  {
    if base == 0 then None else Some(view[base - 1].createdAt)
  }

  /**
   * The records a window starting at `base` of the view can see: in stored
   * order they are the whole collection, sorted they are the view's suffix.
   */
  lemma WindowOfView(c: seq<Record>, superStitch: bool, base: nat)
    requires Tracked(c, superStitch)
    requires !superStitch ==> base == 0
    requires base <= |View(c, superStitch)|
    ensures var matching := Filter(c, CursorAt(View(c, superStitch), base));
            (if superStitch then SortByCreatedAt(matching) else matching) == View(c, superStitch)[base..]
  {
    var view := View(c, superStitch);
    var cursor := CursorAt(view, base);
    if superStitch {
      SortStrict(c);
      FilterSort(c, cursor);
      FilterSplit(view, cursor, base);
    } else {
      FilterSplit(c, None, 0);
    }
  }

  /** A page fetched at offset `skip` of a window starting at `base` is the next slice of the view. */
  lemma PageOfView(c: seq<Record>, superStitch: bool, base: nat, skip: nat)
    requires Tracked(c, superStitch)
    requires !superStitch ==> base == 0
    requires base + skip <= |View(c, superStitch)|
    ensures var view := View(c, superStitch);
            Find(c, Request(skip, PageSize, CursorAt(view, base), superStitch))
            == view[base + skip..Min(base + skip + PageSize, |view|)]
  {
    var view := View(c, superStitch);
    var matching := Filter(c, CursorAt(view, base));
    WindowOfView(c, superStitch, base);
    SliceOfSuffix(view, base, skip);
    if superStitch {
      assert SortByCreatedAt(matching) == view[base..];
    } else {
      assert matching == view[base..];
    }
  }

  /** A page-sized window at offset `skip` of the suffix from `base` is the slice of the whole sequence from `base + skip`. */
  lemma SliceOfSuffix(view: seq<Record>, base: nat, skip: nat)
    requires base + skip <= |view|
    ensures Slice(view[base..], skip, PageSize) == view[base + skip..Min(base + skip + PageSize, |view|)]
  {
    var w := view[base..];
    var hi := Min(skip + PageSize, |w|);
    assert Slice(w, skip, PageSize) == w[skip..hi];
    assert w[skip..hi] == view[base + skip..base + hi];
  }

  /**
   * The stitcher's state just before a fetch: `acc` holds the pages of `log`,
   * every earlier fetch succeeded with a full page, and the pending request
   * follows the last one. `base` (ghost) is the view position the current
   * cursor window starts at.
   */
  ghost predicate Ready(c: seq<Record>, superStitch: bool, faults: map<nat, FetchError>,
                        acc: seq<Record>, log: seq<Request>, curPage: nat, startDate: Option<int>, base: nat)
  {
    curPage < MaxQueries
    && acc == Pages(c, log)
    && (forall i :: 0 <= i < |log| ==> i !in faults && WellFormed(log[i], superStitch))
    && (log == [] ==> curPage == 0 && startDate == None)
    && (log != [] ==>
          ValidTrace(c, superStitch, log) && |Find(c, log[|log| - 1])| == PageSize
          && Follows(c, superStitch, log, PageRequest(curPage, startDate, superStitch)))
    && (!superStitch ==>
          startDate == None && base == 0 && |log| == curPage
          && forall i :: 0 <= i < |log| ==> log[i] == PageRequest(i, None, false))
    && (Tracked(c, superStitch) ==>
          |acc| == base + curPage * PageSize <= |View(c, superStitch)|
          && acc == View(c, superStitch)[..|acc|]
          && startDate == CursorAt(View(c, superStitch), base))
  }

  /** The stitcher's state just after fetch `|log| - 1` was issued and, when it succeeded, its page appended. */
  ghost predicate Fetched(c: seq<Record>, superStitch: bool, faults: map<nat, FetchError>,
                          acc: seq<Record>, log: seq<Request>, curPage: nat, startDate: Option<int>, base: nat)
  {
    log != [] && log[|log| - 1] == PageRequest(curPage, startDate, superStitch) && curPage < MaxQueries
    && ValidTrace(c, superStitch, log)
    && acc == Pages(c, log)
    && (forall i :: 0 <= i < |log| - 1 ==> i !in faults)
    && (forall i :: 0 <= i < |log| ==> WellFormed(log[i], superStitch))
    && (!superStitch ==>
          startDate == None && base == 0 && |log| == curPage + 1
          && forall i :: 0 <= i < |log| ==> log[i] == PageRequest(i, None, false))
    && (Tracked(c, superStitch) ==>
          |acc| == base + curPage * PageSize + |Find(c, log[|log| - 1])|
          && |acc| == Min(base + curPage * PageSize + PageSize, |View(c, superStitch)|)
          && acc == View(c, superStitch)[..|acc|]
          && startDate == CursorAt(View(c, superStitch), base))
  }

  lemma ReadyAtStart(c: seq<Record>, superStitch: bool, faults: map<nat, FetchError>)
    ensures Ready(c, superStitch, faults, [], [], 0, None, 0)
  {
  }

  /** Issuing the pending request extends the trace, and its page extends the stitched records. */
  lemma FetchExtendsTrace(c: seq<Record>, superStitch: bool, acc: seq<Record>, log: seq<Request>,
                          curPage: nat, startDate: Option<int>)
    requires acc == Pages(c, log)
    requires log == [] ==> curPage == 0 && startDate == None
    requires log != [] ==>
               ValidTrace(c, superStitch, log) && |Find(c, log[|log| - 1])| == PageSize
               && Follows(c, superStitch, log, PageRequest(curPage, startDate, superStitch))
    ensures var request := PageRequest(curPage, startDate, superStitch);
            ValidTrace(c, superStitch, log + [request]) && acc + Find(c, request) == Pages(c, log + [request])
  {
    var request := PageRequest(curPage, startDate, superStitch);
    assert (log + [request])[..|log|] == log;
  }

  /** The issued request is well-formed, and without superStitch it is page `|log|` of the stored order. */
  lemma FetchIsWellFormed(superStitch: bool, faults: map<nat, FetchError>, log: seq<Request>,
                          curPage: nat, startDate: Option<int>)
    requires curPage < MaxQueries
    requires forall i :: 0 <= i < |log| ==> i !in faults && WellFormed(log[i], superStitch)
    requires !superStitch ==>
               startDate == None && |log| == curPage
               && forall i :: 0 <= i < |log| ==> log[i] == PageRequest(i, None, false)
    ensures var log' := log + [PageRequest(curPage, startDate, superStitch)];
            (forall i :: 0 <= i < |log'| - 1 ==> i !in faults)
            && (forall i :: 0 <= i < |log'| ==> WellFormed(log'[i], superStitch))
            && (!superStitch ==> forall i :: 0 <= i < |log'| ==> log'[i] == PageRequest(i, None, false))
  {
    var request := PageRequest(curPage, startDate, superStitch);
    var log' := log + [request];
    assert PageIndex(request) == curPage;
    assert forall j :: 0 <= j < |log| ==> log'[j] == log[j];
  }

  /** With stored order, or a sort over distinct creation times, the page is the next slice of the view. */
  lemma FetchFollowsView(c: seq<Record>, superStitch: bool, acc: seq<Record>, curPage: nat, startDate: Option<int>, base: nat)
    requires Tracked(c, superStitch) && (!superStitch ==> base == 0)
    requires |acc| == base + curPage * PageSize <= |View(c, superStitch)|
    requires acc == View(c, superStitch)[..|acc|]
    requires startDate == CursorAt(View(c, superStitch), base)
    ensures var page := Find(c, PageRequest(curPage, startDate, superStitch));
            var view := View(c, superStitch);
            |acc + page| == base + curPage * PageSize + |page|
            && |acc + page| == Min(base + curPage * PageSize + PageSize, |view|)
            && acc + page == view[..|acc + page|]
  {
    var view := View(c, superStitch);
    PageOfView(c, superStitch, base, curPage * PageSize);
    var page := Find(c, PageRequest(curPage, startDate, superStitch));
    var k, m := |acc|, Min(|acc| + PageSize, |view|);
    assert page == view[k..m];
    assert view[..k] + view[k..m] == view[..m];
  }

  /** Issuing the pending request and appending its page. */
  lemma FetchStep(c: seq<Record>, superStitch: bool, faults: map<nat, FetchError>,
                  acc: seq<Record>, log: seq<Request>, curPage: nat, startDate: Option<int>, base: nat)
    requires Ready(c, superStitch, faults, acc, log, curPage, startDate, base)
    ensures var request := PageRequest(curPage, startDate, superStitch);
            Fetched(c, superStitch, faults, acc + Find(c, request), log + [request], curPage, startDate, base)
  {
    FetchExtendsTrace(c, superStitch, acc, log, curPage, startDate);
    FetchIsWellFormed(superStitch, faults, log, curPage, startDate);
    if Tracked(c, superStitch) {
      FetchFollowsView(c, superStitch, acc, curPage, startDate, base);
    }
  }

  /** A full page below the budget: fetch the next offset page in the same window. */
  lemma ContinueStep(c: seq<Record>, superStitch: bool, faults: map<nat, FetchError>,
                     acc: seq<Record>, log: seq<Request>, curPage: nat, startDate: Option<int>, base: nat)
    requires Fetched(c, superStitch, faults, acc, log, curPage, startDate, base)
    requires |log| - 1 !in faults
    requires |Find(c, log[|log| - 1])| == PageSize && curPage + 1 < MaxQueries
    ensures Ready(c, superStitch, faults, acc, log, curPage + 1, startDate, base)
  {
    assert PageIndex(log[|log| - 1]) == curPage;
    assert forall i :: 0 <= i < |log| ==> i !in faults && WellFormed(log[i], superStitch);
    assert ValidTrace(c, superStitch, log) && |Find(c, log[|log| - 1])| == PageSize;
    assert Follows(c, superStitch, log, PageRequest(curPage + 1, startDate, superStitch));
    assert !superStitch ==> |log| == curPage + 1 && forall i :: 0 <= i < |log| ==> log[i] == PageRequest(i, None, false);
    assert Tracked(c, superStitch) ==> |acc| == base + (curPage + 1) * PageSize <= |View(c, superStitch)|;
    assert Tracked(c, superStitch) ==> acc == View(c, superStitch)[..|acc|];
  }

  /**
   * A full last page of the budget in superStitch mode: restart at offset 0
   * behind the last record stitched, which leaves fewer records to reach.
   */
  lemma ResetStep(c: seq<Record>, superStitch: bool, faults: map<nat, FetchError>,
                  acc: seq<Record>, log: seq<Request>, curPage: nat, startDate: Option<int>, base: nat)
    requires Fetched(c, superStitch, faults, acc, log, curPage, startDate, base)
    requires |log| - 1 !in faults
    requires |Find(c, log[|log| - 1])| == PageSize && curPage + 1 >= MaxQueries && superStitch
    ensures acc != []
    ensures Ready(c, superStitch, faults, acc, log, 0, Some(acc[|acc| - 1].createdAt), |acc|)
    ensures Remaining(c, Some(acc[|acc| - 1].createdAt)) < Remaining(c, startDate)
  {
    var last := log[|log| - 1];
    var page := Find(c, last);
    assert Pages(c, log) == Pages(c, log[..|log| - 1]) + page;
    assert acc[|acc| - 1] == page[|page| - 1];
    FindMembers(c, last, page[|page| - 1]);
    FilterShrinksStrictly(c, startDate, acc[|acc| - 1]);
    assert PageIndex(last) == curPage;
    var next := PageRequest(0, Some(acc[|acc| - 1].createdAt), superStitch);
    assert forall i :: 0 <= i < |log| ==> i !in faults && WellFormed(log[i], superStitch);
    assert ValidTrace(c, superStitch, log) && |Find(c, log[|log| - 1])| == PageSize;
    assert Follows(c, superStitch, log, next);
    assert Tracked(c, superStitch) ==> |acc| <= |View(c, superStitch)| && acc == View(c, superStitch)[..|acc|];
    assert Tracked(c, superStitch) ==> Some(acc[|acc| - 1].createdAt) == CursorAt(View(c, superStitch), |acc|);
  }

  /**
   * What the settled call guarantees: `log` is a trace the stitcher can
   * issue; a fetch failure rejects at once with that fetch's own error and no
   * records; a resolution delivers every page in fetch order and happens only
   * where the stitcher stops. Without superStitch this is pages 0, 1, ... of
   * the stored order, at most 10 fetches, silently truncated at 10,000
   * records; with superStitch and distinct creation times it is the whole
   * collection ascending by `createdAt`.
   */
  ghost predicate Settled(c: seq<Record>, superStitch: bool, faults: map<nat, FetchError>,
                          outcome: Result<seq<Record>, FetchError>, log: seq<Request>)
  {
    log != [] && ValidTrace(c, superStitch, log)
    && (forall i :: 0 <= i < |log| ==> WellFormed(log[i], superStitch))
    && (forall i :: 0 <= i < |log| - 1 ==> i !in faults)
    && (outcome.Failure? <==> (|log| - 1) in faults)
    && (outcome.Failure? ==> outcome.error == faults[|log| - 1])
    && (outcome.Success? ==> Resolved(c, superStitch, log) && outcome.value == Pages(c, log))
    && (!superStitch ==>
          |log| <= MaxQueries && forall i :: 0 <= i < |log| ==> log[i] == PageRequest(i, None, false))
    && (!superStitch && outcome.Success? ==>
          outcome.value == c[..Min(|c|, PageSize * MaxQueries)]
          && |log| == Min(|c| / PageSize + 1, MaxQueries))
    && (superStitch && DistinctCreatedAt(c) && outcome.Success? ==>
          outcome.value == SortByCreatedAt(c))
  }

  /** A failed fetch rejects the call with its error. */
  lemma FailureEnd(c: seq<Record>, superStitch: bool, faults: map<nat, FetchError>,
                   acc: seq<Record>, log: seq<Request>, curPage: nat, startDate: Option<int>, base: nat)
    requires Fetched(c, superStitch, faults, acc, log, curPage, startDate, base)
    requires |log| - 1 in faults
    ensures Settled(c, superStitch, faults, Failure(faults[|log| - 1]), log)
  {
  }

  /** A short page resolves the call with the whole view, page count included. */
  lemma ShortPageEnd(c: seq<Record>, superStitch: bool, faults: map<nat, FetchError>,
                     acc: seq<Record>, log: seq<Request>, curPage: nat, startDate: Option<int>, base: nat)
    requires Fetched(c, superStitch, faults, acc, log, curPage, startDate, base)
    requires |log| - 1 !in faults
    requires |Find(c, log[|log| - 1])| < PageSize
    ensures Settled(c, superStitch, faults, Success(acc), log)
  {
    if Tracked(c, superStitch) {
      assert |acc| == |View(c, superStitch)|;
    }
    if !superStitch {
      assert |c| == curPage * PageSize + |Find(c, log[|log| - 1])|;
      assert |c| / PageSize == curPage;
    }
  }

  /** The budget spent without superStitch: the call resolves with the first 10,000 records. */
  lemma BudgetEnd(c: seq<Record>, faults: map<nat, FetchError>,
                  acc: seq<Record>, log: seq<Request>, curPage: nat, startDate: Option<int>, base: nat)
    requires Fetched(c, false, faults, acc, log, curPage, startDate, base)
    requires |log| - 1 !in faults
    requires |Find(c, log[|log| - 1])| == PageSize && curPage + 1 >= MaxQueries
    ensures Settled(c, false, faults, Success(acc), log)
  {
    assert PageIndex(log[|log| - 1]) == curPage;
  }

  /**
   * One page of the stitcher from a ready state: a failed fetch rejects, a
   * short page resolves, a full page continues with the next offset page,
   * restarts behind a cursor (superStitch, budget spent) or resolves (budget
   * spent, no superStitch).
   */
  lemma Step(c: seq<Record>, superStitch: bool, faults: map<nat, FetchError>,
             acc: seq<Record>, log: seq<Request>, curPage: nat, startDate: Option<int>, base: nat)
    requires Ready(c, superStitch, faults, acc, log, curPage, startDate, base)
    ensures var log' := log + [PageRequest(curPage, startDate, superStitch)];
            |log| in faults ==> Settled(c, superStitch, faults, Failure(faults[|log|]), log')
    ensures var log' := log + [PageRequest(curPage, startDate, superStitch)];
            var page := Find(c, PageRequest(curPage, startDate, superStitch));
            |log| !in faults && |page| < PageSize ==> Settled(c, superStitch, faults, Success(acc + page), log')
    ensures var log' := log + [PageRequest(curPage, startDate, superStitch)];
            var page := Find(c, PageRequest(curPage, startDate, superStitch));
            |log| !in faults && |page| == PageSize && curPage + 1 < MaxQueries ==>
              Ready(c, superStitch, faults, acc + page, log', curPage + 1, startDate, base)
    ensures var log' := log + [PageRequest(curPage, startDate, superStitch)];
            var page := Find(c, PageRequest(curPage, startDate, superStitch));
            var acc' := acc + page;
            |log| !in faults && |page| == PageSize && curPage + 1 >= MaxQueries && superStitch ==>
              acc' != []
              && Ready(c, superStitch, faults, acc', log', 0, Some(acc'[|acc'| - 1].createdAt), |acc'|)
              && Remaining(c, Some(acc'[|acc'| - 1].createdAt)) < Remaining(c, startDate)
    ensures var log' := log + [PageRequest(curPage, startDate, superStitch)];
            var page := Find(c, PageRequest(curPage, startDate, superStitch));
            |log| !in faults && |page| == PageSize && curPage + 1 >= MaxQueries && !superStitch ==>
              Settled(c, superStitch, faults, Success(acc + page), log')
  {
    var request := PageRequest(curPage, startDate, superStitch);
    var log' := log + [request];
    var acc' := acc + Find(c, request);
    FetchStep(c, superStitch, faults, acc, log, curPage, startDate, base);
    if |log| in faults {
      FailureEnd(c, superStitch, faults, acc', log', curPage, startDate, base);
    } else if |Find(c, request)| < PageSize {
      ShortPageEnd(c, superStitch, faults, acc', log', curPage, startDate, base);
    } else if curPage + 1 < MaxQueries {
      ContinueStep(c, superStitch, faults, acc', log', curPage, startDate, base);
    } else if superStitch {
      ResetStep(c, superStitch, faults, acc', log', curPage, startDate, base);
    } else {
      BudgetEnd(c, faults, acc', log', curPage, startDate, base);
    }
  }

  /** `pageResults.forEach(push)`: appends the page to the stitched results, record by record, in page order. */
  method AppendAll(acc: seq<Record>, page: seq<Record>) returns (r: seq<Record>)
    ensures r == acc + page
  {
    r := acc;
    var i := 0;
    while i < |page|
      invariant 0 <= i <= |page|
      invariant r == acc + page[..i]
    {
      r := r + [page[i]];
      i := i + 1;
    }
    assert page[..|page|] == page;
  }

  /** What `getNextPage` does once its page has arrived: fetch another page, or settle the promise. */
  datatype Next = FetchAgain(curPage: nat, startDate: Option<int>) | Settle(outcome: Result<seq<Record>, FetchError>)

  /**
   * One call of `getNextPage(curPage, startDate)`: issue the request, append
   * the page, then continue with the next offset page, restart behind a
   * cursor, or settle. A continuation either keeps the window and advances
   * the page, or moves to a window with fewer records left.
   */
  method GetNextPage(c: seq<Record>, superStitch: bool, faults: map<nat, FetchError>,
                     acc: seq<Record>, log: seq<Request>, curPage: nat, startDate: Option<int>, ghost base: nat)
    returns (next: Next, acc': seq<Record>, log': seq<Request>, ghost base': nat)
    requires Ready(c, superStitch, faults, acc, log, curPage, startDate, base)
    ensures log' == log + [PageRequest(curPage, startDate, superStitch)]
    ensures next.FetchAgain? ==> Ready(c, superStitch, faults, acc', log', next.curPage, next.startDate, base')
    ensures next.FetchAgain? ==>
              (next.startDate == startDate && next.curPage == curPage + 1)
              || Remaining(c, next.startDate) < Remaining(c, startDate)
    ensures next.Settle? ==> Settled(c, superStitch, faults, next.outcome, log')
  {
    var request := PageRequest(curPage, startDate, superStitch);
    Step(c, superStitch, faults, acc, log, curPage, startDate, base);
    var fetchNo := |log|;
    log' := log + [request];
    base' := base;
    if fetchNo in faults {
      next, acc' := Settle(Failure(faults[fetchNo])), acc;
      return;
    }
    var page := Find(c, request);
    acc' := AppendAll(acc, page);
    if |page| == PageSize {
      if curPage + 1 < MaxQueries {
        next := FetchAgain(curPage + 1, startDate);
        assert Ready(c, superStitch, faults, acc', log', curPage + 1, startDate, base');
      } else if superStitch {
        var lastResult := acc'[|acc'| - 1];
        next, base' := FetchAgain(0, Some(lastResult.createdAt)), |acc'|;
        assert Ready(c, superStitch, faults, acc', log', 0, Some(lastResult.createdAt), base');
      } else {
        next := Settle(Success(acc'));
        assert Settled(c, superStitch, faults, Success(acc'), log');
      }
    } else {
      next := Settle(Success(acc'));
      assert Settled(c, superStitch, faults, Success(acc'), log');
    }
  }

  /**
   * The stitcher. `outcome` is the settled promise and `log` the requests
   * the query carried at each `find()`.
   */
  method StitchQuery(c: seq<Record>, superStitch: bool, faults: map<nat, FetchError>)
    returns (outcome: Result<seq<Record>, FetchError>, log: seq<Request>)
    ensures Settled(c, superStitch, faults, outcome, log)
  {
    var acc: seq<Record> := [];
    var curPage: nat := 0;
    var startDate: Option<int> := None;
    log := [];
    ghost var base: nat := 0;
    ReadyAtStart(c, superStitch, faults);
    while true
      invariant Ready(c, superStitch, faults, acc, log, curPage, startDate, base)
      decreases Remaining(c, startDate), MaxQueries - curPage
    {
      var next;
      next, acc, log, base := GetNextPage(c, superStitch, faults, acc, log, curPage, startDate, base);
      match next
      case Settle(result) =>
        outcome := result;
        return;
      case FetchAgain(page, date) =>
        curPage, startDate := page, date;
    }
  }

  // Properties of the traces themselves, independent of the loop that issues them.

  /** Every prefix of a trace is itself a trace. */
  lemma {:induction false} TracePrefix(c: seq<Record>, superStitch: bool, log: seq<Request>, k: nat)
    requires ValidTrace(c, superStitch, log) && k <= |log|
    ensures ValidTrace(c, superStitch, log[..k])
    decreases |log|
  {
    if k < |log| {
      var prefix := log[..|log| - 1];
      TracePrefix(c, superStitch, prefix, k);
      assert prefix[..k] == log[..k];
    } else {
      assert log[..k] == log;
    }
  }

  /** Sequences that agree on all but their last element, and on that, are equal. */
  lemma SameSeq(a: seq<Request>, b: seq<Request>, k: nat)
    requires |a| == |b| == k + 1 && a[..k] == b[..k] && a[k] == b[k]
    ensures a == b
  {
    assert forall j :: 0 <= j < k ==> a[j] == a[..k][j] && b[j] == b[..k][j];
  }

  /** The fetch after a full page is determined by the fetches before it. */
  lemma FollowsUnique(c: seq<Record>, superStitch: bool, prefix: seq<Request>, n1: Request, n2: Request)
    requires prefix != []
    requires Follows(c, superStitch, prefix, n1) && Follows(c, superStitch, prefix, n2)
    ensures n1 == n2
  {
  }

  /** A trace ends with `last` after `prefix`, which is itself a trace whose last page was full. */
  lemma TraceUnfold(c: seq<Record>, superStitch: bool, log: seq<Request>)
    requires ValidTrace(c, superStitch, log) && |log| > 1
    ensures var prefix := log[..|log| - 1];
            ValidTrace(c, superStitch, prefix)
            && |Find(c, prefix[|prefix| - 1])| == PageSize
            && Follows(c, superStitch, prefix, log[|log| - 1])
  {
  }

  /**
   * Two traces of the same length over the same collection and mode are
   * the same fetches: which fetch comes next is determined by the ones before it.
   */
  lemma {:induction false} TracesAgree(c: seq<Record>, superStitch: bool, l1: seq<Request>, l2: seq<Request>)
    requires ValidTrace(c, superStitch, l1) && ValidTrace(c, superStitch, l2)
    requires |l1| == |l2|
    ensures l1 == l2
    decreases |l1|
  {
    var n := |l1|;
    if n > 1 {
      TracePrefix(c, superStitch, l1, n - 1);
      TracePrefix(c, superStitch, l2, n - 1);
      TracesAgree(c, superStitch, l1[..n - 1], l2[..n - 1]);
      AgreeLast(c, superStitch, l1, l2);
    }
  }

  /** Two traces of the same length whose fetches agree up to the last agree on the last too. */
  lemma AgreeLast(c: seq<Record>, superStitch: bool, l1: seq<Request>, l2: seq<Request>)
    requires ValidTrace(c, superStitch, l1) && ValidTrace(c, superStitch, l2)
    requires |l1| == |l2| > 1 && l1[..|l1| - 1] == l2[..|l1| - 1]
    ensures l1 == l2
  {
    var n := |l1|;
    TraceUnfold(c, superStitch, l1);
    TraceUnfold(c, superStitch, l2);
    FollowsUnique(c, superStitch, l1[..n - 1], l1[n - 1], l2[n - 1]);
    SameSeq(l1, l2, n - 1);
  }

  /** A trace that goes on past its next-to-last fetch was not settled there. */
  lemma ContinuedNotResolved(c: seq<Record>, superStitch: bool, log: seq<Request>)
    requires ValidTrace(c, superStitch, log) && |log| > 1
    ensures !Resolved(c, superStitch, log[..|log| - 1])
  {
    TraceUnfold(c, superStitch, log);
  }

  /** A trace that goes on past position `k` was not settled at `k`. */
  lemma ContinuedPrefix(c: seq<Record>, superStitch: bool, log: seq<Request>, k: nat)
    requires ValidTrace(c, superStitch, log) && 0 < k < |log|
    ensures !Resolved(c, superStitch, log[..k])
  {
    TracePrefix(c, superStitch, log, k + 1);
    ContinuedNotResolved(c, superStitch, log[..k + 1]);
    assert log[..k + 1][..k] == log[..k];
  }

  /**
   * A stitch over an unmodified collection is repeatable: two settled
   * traces are the same fetches, so they resolve with the same records.
   */
  lemma ResolvedTraceUnique(c: seq<Record>, superStitch: bool, l1: seq<Request>, l2: seq<Request>)
    requires ValidTrace(c, superStitch, l1) && Resolved(c, superStitch, l1)
    requires ValidTrace(c, superStitch, l2) && Resolved(c, superStitch, l2)
    ensures l1 == l2 && Pages(c, l1) == Pages(c, l2)
  {
    if |l1| <= |l2| {
      TracePrefix(c, superStitch, l2, |l1|);
      TracesAgree(c, superStitch, l1, l2[..|l1|]);
      if |l1| < |l2| {
        ContinuedPrefix(c, superStitch, l2, |l1|);
        assert false;
      }
    } else {
      TracePrefix(c, superStitch, l1, |l2|);
      TracesAgree(c, superStitch, l2, l1[..|l2|]);
      ContinuedPrefix(c, superStitch, l1, |l2|);
      assert false;
    }
  }

  /** A settled run is never a strict prefix of another settled run of the same query. */
  lemma SettledPrefix(c: seq<Record>, superStitch: bool, faults: map<nat, FetchError>,
                      o1: Result<seq<Record>, FetchError>, l1: seq<Request>,
                      o2: Result<seq<Record>, FetchError>, l2: seq<Request>)
    requires Settled(c, superStitch, faults, o1, l1) && Settled(c, superStitch, faults, o2, l2)
    requires |l1| <= |l2|
    ensures l1 == l2
  {
    TracePrefix(c, superStitch, l2, |l1|);
    TracesAgree(c, superStitch, l1, l2[..|l1|]);
    if |l1| < |l2| {
      assert |l1| - 1 !in faults;
      ContinuedPrefix(c, superStitch, l2, |l1|);
      assert false;
    }
  }

  /**
   * The same query over the same collection, with the same fetches failing,
   * settles the same way: the same fetches and the same outcome, failures included.
   */
  lemma SettledUnique(c: seq<Record>, superStitch: bool, faults: map<nat, FetchError>,
                      o1: Result<seq<Record>, FetchError>, l1: seq<Request>,
                      o2: Result<seq<Record>, FetchError>, l2: seq<Request>)
    requires Settled(c, superStitch, faults, o1, l1) && Settled(c, superStitch, faults, o2, l2)
    ensures l1 == l2 && o1 == o2
  {
    if |l1| <= |l2| {
      SettledPrefix(c, superStitch, faults, o1, l1, o2, l2);
    } else {
      SettledPrefix(c, superStitch, faults, o2, l2, o1, l1);
    }
  }

  /** The stitched records only grow: the pages of a prefix of the fetches are a prefix of all of them. */
  lemma {:induction false} PagesGrow(c: seq<Record>, log: seq<Request>, k: nat)
    requires k <= |log|
    ensures Pages(c, log[..k]) <= Pages(c, log)
    decreases |log|
  {
    if k < |log| {
      var prefix := log[..|log| - 1];
      PagesGrow(c, prefix, k);
      assert prefix[..k] == log[..k];
    } else {
      assert log[..k] == log;
    }
  }

  /** Every fetch of a trace is issued with a page-aligned skip below the budget, the page size, and the mode's ordering. */
  lemma {:induction false} TraceWellFormed(c: seq<Record>, superStitch: bool, log: seq<Request>, i: nat)
    requires ValidTrace(c, superStitch, log) && i < |log|
    ensures WellFormed(log[i], superStitch)
    decreases |log|
  {
    if |log| > 1 {
      var prefix := log[..|log| - 1];
      TraceUnfold(c, superStitch, log);
      if i < |log| - 1 {
        TraceWellFormed(c, superStitch, prefix, i);
        assert prefix[i] == log[i];
      } else {
        TraceWellFormed(c, superStitch, prefix, i - 1);
        FollowsWellFormed(c, superStitch, prefix, log[i]);
      }
    }
  }

  /** A request that follows a well-formed fetch is itself well-formed. */
  lemma FollowsWellFormed(c: seq<Record>, superStitch: bool, prefix: seq<Request>, next: Request)
    requires prefix != [] && WellFormed(prefix[|prefix| - 1], superStitch)
    requires Follows(c, superStitch, prefix, next)
    ensures WellFormed(next, superStitch)
  {
    var last := prefix[|prefix| - 1];
    if PageIndex(last) + 1 < MaxQueries {
      assert next.skip == (PageIndex(last) + 1) * PageSize;
    }
  }

  /**
   * Between the last two fetches of a trace: the earlier page was full; an
   * offset continuation keeps the cursor and advances the skip by one page;
   * a restart at offset 0 happens only in superStitch mode after the tenth
   * page, behind the creation time of the last record stitched, which is
   * later than the old cursor and leaves fewer records to reach.
   */
  lemma LastStep(c: seq<Record>, superStitch: bool, log: seq<Request>)
    requires ValidTrace(c, superStitch, log) && |log| > 1
    ensures var prev, next := log[|log| - 2], log[|log| - 1];
            var acc := Pages(c, log[..|log| - 1]);
            |Find(c, prev)| == PageSize
            && (next.skip != 0 ==> next.cursor == prev.cursor && next.skip == prev.skip + PageSize)
            && (next.skip == 0 ==>
                  superStitch && PageIndex(prev) == MaxQueries - 1 && acc != []
                  && next.cursor == Some(acc[|acc| - 1].createdAt)
                  && (prev.cursor.Some? ==> next.cursor.value > prev.cursor.value)
                  && Remaining(c, next.cursor) < Remaining(c, prev.cursor))
  {
    var n := |log|;
    TraceUnfold(c, superStitch, log);
    var prefix := log[..n - 1];
    var prev, next := log[n - 2], log[n - 1];
    assert prefix[n - 2] == prev;
    TraceWellFormed(c, superStitch, log, n - 2);
    if next.skip == 0 {
      var page := Find(c, prev);
      var acc := Pages(c, prefix);
      assert acc == Pages(c, prefix[..n - 2]) + page;
      assert acc[|acc| - 1] == page[|page| - 1];
      FindMembers(c, prev, page[|page| - 1]);
      FilterShrinksStrictly(c, prev.cursor, page[|page| - 1]);
    }
  }

  /** The same between fetches `i` and `i + 1` of any trace. */
  lemma TraceStep(c: seq<Record>, superStitch: bool, log: seq<Request>, i: nat)
    requires ValidTrace(c, superStitch, log) && i + 1 < |log|
    ensures |Find(c, log[i])| == PageSize
    ensures log[i + 1].skip != 0 ==>
              log[i + 1].cursor == log[i].cursor && log[i + 1].skip == log[i].skip + PageSize
    ensures log[i + 1].skip == 0 ==>
              var acc := Pages(c, log[..i + 1]);
              superStitch && PageIndex(log[i]) == MaxQueries - 1 && acc != []
              && log[i + 1].cursor == Some(acc[|acc| - 1].createdAt)
              && (log[i].cursor.Some? ==> log[i + 1].cursor.value > log[i].cursor.value)
              && Remaining(c, log[i + 1].cursor) < Remaining(c, log[i].cursor)
  {
    TracePrefix(c, superStitch, log, i + 2);
    var t := log[..i + 2];
    LastStep(c, superStitch, t);
    assert t[..i + 1] == log[..i + 1];
  }

  // The scenarios of the repository's tests, as clients of the stitcher.

  /** A collection of `n` records with ids and creation times 0, 1, ..., n - 1. */
  function Collection(n: nat): (c: seq<Record>)
    ensures |c| == n
  {
    seq(n, i => Record(i, i))
  }

  /** 100 records: one short page holds them all. */
  method HundredRecords() returns (r: Result<seq<Record>, FetchError>, log: seq<Request>)
    ensures r.Success? && |r.value| == 100 && |log| == 1
  {
    r, log := StitchQuery(Collection(100), false, map[]);
  }

  /** Exactly 1,000 records: a full page, then a second fetch for the empty page after it. */
  method ThousandRecords() returns (r: Result<seq<Record>, FetchError>, log: seq<Request>)
    ensures r.Success? && |r.value| == 1000 && |log| == 2
    ensures Find(Collection(1000), log[1]) == []
  {
    r, log := StitchQuery(Collection(1000), false, map[]);
  }

  /** 1,001 records: a full page and a page of one. */
  method ThousandAndOneRecords() returns (r: Result<seq<Record>, FetchError>, log: seq<Request>)
    ensures r.Success? && |r.value| == 1001 && |log| == 2
  {
    r, log := StitchQuery(Collection(1001), false, map[]);
  }

  /** 10,000 records: ten full pages exhaust the budget, and nothing is lost. */
  method TenThousandRecords() returns (r: Result<seq<Record>, FetchError>, log: seq<Request>)
    ensures r.Success? && |r.value| == 10000 && |log| == 10
  {
    r, log := StitchQuery(Collection(10000), false, map[]);
  }

  /** 10,100 records without superStitch: only the first 10,000 come back. */
  method TruncatedRecords() returns (r: Result<seq<Record>, FetchError>, log: seq<Request>)
    ensures r.Success? && r.value == Collection(10100)[..10000] && |log| == 10
  {
    r, log := StitchQuery(Collection(10100), false, map[]);
  }

  /** 10,100 records with superStitch: all of them, ascending by creation time. */
  method SuperStitchedRecords() returns (r: Result<seq<Record>, FetchError>, log: seq<Request>)
    ensures r.Success? && |r.value| == 10100 && Ascending(r.value)
    ensures r.value == SortByCreatedAt(Collection(10100))
  {
    var c := Collection(10100);
    assert DistinctCreatedAt(c);
    SortPermutes(c);
    r, log := StitchQuery(c, true, map[]);
  }

  /** A failure of the fourth fetch rejects the whole call with its error and no records. */
  method FourthFetchFails() returns (r: Result<seq<Record>, FetchError>, log: seq<Request>)
    ensures r == Failure(FetchError(100, "connection failed")) && |log| == 4
  {
    var e := FetchError(100, "connection failed");
    var faults := map[3 := e];
    r, log := StitchQuery(Collection(10100), false, faults);
    assert 3 in faults;
    assert |log| <= 4;
    assert Min(10100 / PageSize + 1, MaxQueries) == 10;
  }
}
