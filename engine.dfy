/**
 * The external query engine one page fetch runs against: the collection is a
 * sequence of records in stored order; a request filters on `createdAt`
 * strictly greater than an optional cursor, optionally sorts ascending by
 * `createdAt`, then skips and limits.
 */
module Engine {
  import opened Wrappers

  /** A stored object; the stitcher only ever reads its creation time. */
  datatype Record = Record(id: int, createdAt: int)

  /** The parameters a query carries when `find()` is called. */
  datatype Request = Request(skip: nat, limit: nat, cursor: Option<int>, ascending: bool)

  function Min(a: int, b: int): int { if a <= b then a else b }

  /** Does the record pass the `createdAt > cursor` filter (no cursor: every record does)? */
  predicate After(x: Record, cursor: Option<int>) {
    cursor.None? || x.createdAt > cursor.value
  }

  /** The records of `c` passing the cursor filter, in stored order. */
  function Filter(c: seq<Record>, cursor: Option<int>): (r: seq<Record>)
    ensures |r| <= |c|
  {
    if c == [] then []
    else (if After(c[0], cursor) then [c[0]] else []) + Filter(c[1..], cursor)
  }

  /** Inserts `x` before the first record created strictly later (ties keep stored order). */
  function Insert(x: Record, s: seq<Record>): seq<Record>
  {
    if s == [] then [x]
    else if x.createdAt <= s[0].createdAt then [x] + s
    else [s[0]] + Insert(x, s[1..])
  }

  /** The engine's `ascending('createdAt')`: a stable insertion sort. */
  function SortByCreatedAt(s: seq<Record>): seq<Record>
  {
    if s == [] then [] else Insert(s[0], SortByCreatedAt(s[1..]))
  }

  ghost predicate Ascending(s: seq<Record>) {
    forall i, j :: 0 <= i < j < |s| ==> s[i].createdAt <= s[j].createdAt
  }

  ghost predicate StrictlyAscending(s: seq<Record>) {
    forall i, j :: 0 <= i < j < |s| ==> s[i].createdAt < s[j].createdAt
  }

  /** No two records of the collection share a creation time. */
  ghost predicate DistinctCreatedAt(c: seq<Record>) {
    forall i, j :: 0 <= i < j < |c| ==> c[i].createdAt != c[j].createdAt
  }

  /** The window `[skip, skip + limit)` of `s`, clipped to its length. */
  function Slice(s: seq<Record>, skip: nat, limit: nat): (r: seq<Record>)
    ensures |r| == if skip >= |s| then 0 else Min(limit, |s| - skip)
  {
    s[Min(skip, |s|)..Min(skip + limit, |s|)]
  }

  /** One `find()`: filter, then sort if requested, then skip and limit. */
  function Find(c: seq<Record>, req: Request): (page: seq<Record>)
    ensures |page| <= req.limit
  {
    var matching := Filter(c, req.cursor);
    if req.ascending then
      Slice(SortByCreatedAt(matching), req.skip, req.limit)
    else
      Slice(matching, req.skip, req.limit)
  }

  /** A record passes the filter exactly when it is stored and created after the cursor. */
  lemma {:induction false} FilterMembers(c: seq<Record>, cursor: Option<int>, x: Record)
    ensures x in Filter(c, cursor) <==> x in c && After(x, cursor)
  {
    if c != [] {
      FilterMembers(c[1..], cursor, x);
      assert c == [c[0]] + c[1..];
    }
  }

  /** Every record a fetch returns is stored and passes the request's cursor filter. */
  lemma FindMembers(c: seq<Record>, req: Request, x: Record)
    requires x in Find(c, req)
    ensures x in Filter(c, req.cursor)
    ensures x in c && After(x, req.cursor)
  {
    var matching := Filter(c, req.cursor);
    var sorted := if req.ascending then SortByCreatedAt(matching) else matching;
    assert Find(c, req) == Slice(sorted, req.skip, req.limit);
    assert x in sorted;
    if req.ascending {
      SortMembers(matching);
    }
    FilterMembers(c, req.cursor, x);
  }

  lemma {:induction false} InsertPermutes(x: Record, s: seq<Record>)
    ensures multiset(Insert(x, s)) == multiset(s) + multiset{x}
  {
    if s != [] && x.createdAt > s[0].createdAt {
      InsertPermutes(x, s[1..]);
      assert s == [s[0]] + s[1..];
    }
  }

  lemma {:induction false} InsertAscending(x: Record, s: seq<Record>)
    requires Ascending(s)
    ensures Ascending(Insert(x, s))
  {
    if s != [] && x.createdAt > s[0].createdAt {
      InsertAscending(x, s[1..]);
      InsertPermutes(x, s[1..]);
      var r := Insert(x, s);
      assert r == [s[0]] + Insert(x, s[1..]);
      forall k | 0 < k < |r| ensures s[0].createdAt <= r[k].createdAt {
        assert r[k] in multiset(Insert(x, s[1..]));
      }
    }
  }

  /** The sort is a permutation of its input and puts it in ascending order. */
  lemma {:induction false} SortPermutes(s: seq<Record>)
    ensures multiset(SortByCreatedAt(s)) == multiset(s)
    ensures |SortByCreatedAt(s)| == |s|
    ensures Ascending(SortByCreatedAt(s))
  {
    if s != [] {
      SortPermutes(s[1..]);
      InsertPermutes(s[0], SortByCreatedAt(s[1..]));
      InsertAscending(s[0], SortByCreatedAt(s[1..]));
      assert s == [s[0]] + s[1..];
    }
  }

  /** Sorting neither adds nor drops a record. */
  lemma SortMembers(s: seq<Record>)
    ensures forall x :: x in SortByCreatedAt(s) <==> x in s
  {
    SortPermutes(s);
    forall x ensures x in SortByCreatedAt(s) <==> x in s {
      assert x in SortByCreatedAt(s) <==> x in multiset(SortByCreatedAt(s));
    }
  }

  lemma {:induction false} InsertStrict(x: Record, s: seq<Record>)
    requires StrictlyAscending(s)
    requires forall y :: y in s ==> y.createdAt != x.createdAt
    ensures StrictlyAscending(Insert(x, s))
  {
    if s != [] && x.createdAt > s[0].createdAt {
      InsertStrict(x, s[1..]);
      InsertPermutes(x, s[1..]);
      var r := Insert(x, s);
      assert r == [s[0]] + Insert(x, s[1..]);
      forall k | 0 < k < |r| ensures s[0].createdAt < r[k].createdAt {
        assert r[k] in multiset(Insert(x, s[1..]));
      }
    }
  }

  /** With distinct creation times the sorted collection is strictly ascending. */
  lemma {:induction false} SortStrict(c: seq<Record>)
    requires DistinctCreatedAt(c)
    ensures StrictlyAscending(SortByCreatedAt(c))
  {
    if c != [] {
      var rest := c[1..];
      assert DistinctCreatedAt(rest) by {
        forall i, j | 0 <= i < j < |rest| ensures rest[i].createdAt != rest[j].createdAt {
          assert rest[i] == c[i + 1] && rest[j] == c[j + 1];
        }
      }
      SortStrict(rest);
      SortPermutes(rest);
      forall y | y in SortByCreatedAt(rest) ensures y.createdAt != c[0].createdAt {
        assert y in multiset(rest);
        var j :| 0 <= j < |rest| && rest[j] == y;
        assert c[j + 1] == y;
      }
      InsertStrict(c[0], SortByCreatedAt(rest));
    }
  }

  lemma {:induction false} FilterInsert(x: Record, s: seq<Record>, cursor: Option<int>)
    ensures Filter(Insert(x, s), cursor)
         == if After(x, cursor) then Insert(x, Filter(s, cursor)) else Filter(s, cursor)
  {
    if s == [] {
    } else if x.createdAt <= s[0].createdAt {
      assert Insert(x, s) == [x] + s;
      assert ([x] + s)[1..] == s;
      assert s == [s[0]] + s[1..];
    } else {
      FilterInsert(x, s[1..], cursor);
      var r := Insert(x, s);
      assert r == [s[0]] + Insert(x, s[1..]);
      assert r[0] == s[0] && r[1..] == Insert(x, s[1..]);
      var f1 := Filter(s[1..], cursor);
      if After(s[0], cursor) {
        assert Filter(s, cursor) == [s[0]] + f1;
        assert ([s[0]] + f1)[0] == s[0] && ([s[0]] + f1)[1..] == f1;
      } else {
        assert Filter(s, cursor) == f1;
      }
    }
  }

  /** Filtering commutes with the sort, so a cursor window of a sorted query is a suffix of the sorted collection. */
  lemma {:induction false} FilterSort(c: seq<Record>, cursor: Option<int>)
    ensures Filter(SortByCreatedAt(c), cursor) == SortByCreatedAt(Filter(c, cursor))
  {
    if c != [] {
      FilterSort(c[1..], cursor);
      FilterInsert(c[0], SortByCreatedAt(c[1..]), cursor);
      if After(c[0], cursor) {
        var f := Filter(c, cursor);
        assert f == [c[0]] + Filter(c[1..], cursor);
        assert f[0] == c[0] && f[1..] == Filter(c[1..], cursor);
      } else {
        assert Filter(c, cursor) == Filter(c[1..], cursor);
      }
    }
  }

  /** When exactly the first `k` records fail the filter, it yields the suffix from `k`. */
  lemma {:induction false} FilterSplit(s: seq<Record>, cursor: Option<int>, k: nat)
    requires k <= |s|
    requires forall i :: 0 <= i < k ==> !After(s[i], cursor)
    requires forall i :: k <= i < |s| ==> After(s[i], cursor)
    ensures Filter(s, cursor) == s[k..]
  {
    if s != [] {
      FilterSplit(s[1..], cursor, if k == 0 then 0 else k - 1);
      if k == 0 {
        assert s == [s[0]] + s[1..];
      }
    }
  }

  /** A cursor at or past the current one keeps no more records. */
  lemma {:induction false} FilterShrinks(c: seq<Record>, cursor: Option<int>, t: int)
    requires cursor.None? || cursor.value <= t
    ensures |Filter(c, Some(t))| <= |Filter(c, cursor)|
  {
    if c != [] {
      FilterShrinks(c[1..], cursor, t);
    }
  }

  /**
   * Moving the cursor to the creation time of a record that passes the
   * current filter removes at least that record.
   */
  lemma {:induction false} FilterShrinksStrictly(c: seq<Record>, cursor: Option<int>, x: Record)
    requires x in Filter(c, cursor)
    ensures |Filter(c, Some(x.createdAt))| < |Filter(c, cursor)|
  {
    FilterMembers(c, cursor, x);
    if c[0] == x {
      FilterShrinks(c[1..], cursor, x.createdAt);
    } else {
      assert c == [c[0]] + c[1..];
      FilterMembers(c[1..], cursor, x);
      FilterShrinksStrictly(c[1..], cursor, x);
    }
  }
}
