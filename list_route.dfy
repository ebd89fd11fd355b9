/**
 * The listing endpoint (`GET` in app/api/presentations/route.ts): page and limit with their
 * defaults, the inclusive row range they select from the presentations ordered newest first, and
 * the page count. The database query is an oracle; `RangeOf` is what a working database returns.
 */
module ListRoute {
  import opened Wrappers
  import opened Js
  import opened Types

  const DefaultPage: nat := 1
  const DefaultLimit: nat := 10
  const FetchFailed := "Failed to fetch presentations"

  /** `parseInt(searchParams.get(name) || default)` for a parameter that is absent or a positive integer. */
  function ParameterOr(p: Option<nat>, default: nat): (n: nat)
    ensures p.None? ==> n == default
    ensures p.Some? ==> n == p.value
  {
    if p.Some? then p.value else default
  }

  /** `(page - 1) * limit`: the number of rows on the pages before `page`. */
  function Offset(page: nat, limit: nat): (o: nat)
    requires page >= 1
    ensures o == (page - 1) * limit
  {
    (page - 1) * limit
  }

  /** The inclusive range `offset .. offset + limit - 1` the query asks for. */
  datatype RangeQuery = RangeQuery(first: nat, last: int)

  function PageRange(page: nat, limit: nat): (q: RangeQuery)
    requires page >= 1 && limit >= 1
    ensures q.last - q.first + 1 == limit
    ensures q.first == Offset(page, limit)
  {
    RangeQuery(Offset(page, limit), Offset(page, limit) + limit - 1)
  }

  /** Consecutive pages ask for adjacent ranges: page `p + 1` starts right after page `p` ends. */
  lemma AdjacentPages(page: nat, limit: nat)
    requires page >= 1 && limit >= 1
    ensures PageRange(page + 1, limit).first == PageRange(page, limit).last + 1
  {
  }

  /** `Math.ceil(total / limit)`. */
  function TotalPages(total: nat, limit: nat): (pages: nat)
    requires limit >= 1
    ensures total <= pages * limit
  {
    (total + limit - 1) / limit
  }

  /** The page count is the least number of pages that holds every row: no page is missing, none is empty. */
  lemma TotalPagesIsCeiling(total: nat, limit: nat)
    requires limit >= 1
    ensures total == 0 ==> TotalPages(total, limit) == 0
    ensures total > 0 ==>
      (TotalPages(total, limit) - 1) * limit < total <= TotalPages(total, limit) * limit
  {
    var q := (total + limit - 1) / limit;
    var r := (total + limit - 1) % limit;
    assert q * limit + r == total + limit - 1;
    if total == 0 {
      assert q * limit <= limit - 1;
    }
  }

  // ---------------------------------------------------------------------------
  // The table and its pages

  /** Newest first, comparing `created_at` timestamps as strings, as ISO dates sort. */
  predicate NewestFirst(rows: seq<Presentation>) {
    forall i, j :: 0 <= i < j < |rows| ==> StringLessEq(rows[j].createdAt, rows[i].createdAt)
  }

  /** `.range(first, last)` on the ordered rows: the rows at those positions that exist. */
  function RangeRows(rows: seq<Presentation>, q: RangeQuery): (r: seq<Presentation>)
    ensures |r| <= if q.last < q.first then 0 else q.last - q.first + 1
    ensures forall i :: 0 <= i < |r| ==> q.first + i < |rows| && r[i] == rows[q.first + i]
  {
    var from := Min(q.first, |rows|);
    var to := if q.last < q.first then from else Min(q.last + 1, |rows|);
    rows[from..to]
  }

  /** The rows of page `page`: up to `limit` rows from the offset on, and a full page while the table lasts. */
  function PageRows(rows: seq<Presentation>, page: nat, limit: nat): (r: seq<Presentation>)
    requires page >= 1 && limit >= 1
    ensures |r| <= limit
    ensures forall i :: 0 <= i < |r| ==> Offset(page, limit) + i < |rows| && r[i] == rows[Offset(page, limit) + i]
    ensures Offset(page, limit) + limit <= |rows| ==> |r| == limit
  {
    RangeRows(rows, PageRange(page, limit))
  }

  /** A page of a newest-first list is itself newest first. */
  lemma PageKeepsOrder(rows: seq<Presentation>, page: nat, limit: nat)
    requires page >= 1 && limit >= 1 && NewestFirst(rows)
    ensures NewestFirst(PageRows(rows, page, limit))
  {
    var r := PageRows(rows, page, limit);
    var o := Offset(page, limit);
    forall i, j | 0 <= i < j < |r| ensures StringLessEq(r[j].createdAt, r[i].createdAt) {
      assert r[i] == rows[o + i] && r[j] == rows[o + j];
    }
  }

  /** The first `k` pages, one after the other. */
  function FirstPages(rows: seq<Presentation>, limit: nat, k: nat): seq<Presentation>
    requires limit >= 1
  {
    if k == 0 then [] else FirstPages(rows, limit, k - 1) + PageRows(rows, k, limit)
  }

  /** The first `k` pages are the first `k * limit` rows, clipped to the table. */
  lemma {:induction false} FirstPagesArePrefix(rows: seq<Presentation>, limit: nat, k: nat)
    requires limit >= 1
    ensures FirstPages(rows, limit, k) == rows[..Min(k * limit, |rows|)]
  {
    if k > 0 {
      FirstPagesArePrefix(rows, limit, k - 1);
      PageIsSlice(rows, limit, k);
      PrefixThenSlice(rows, Min((k - 1) * limit, |rows|), Min(k * limit, |rows|));
    }
  }

  lemma PrefixThenSlice(rows: seq<Presentation>, a: nat, b: nat)
    requires a <= b <= |rows|
    ensures rows[..a] + rows[a..b] == rows[..b]
  {
  }

  /** Page `k` is the slice between the ends of pages `k - 1` and `k`, clipped to the table. */
  lemma PageIsSlice(rows: seq<Presentation>, limit: nat, k: nat)
    requires limit >= 1 && k >= 1
    ensures Min((k - 1) * limit, |rows|) <= Min(k * limit, |rows|)
    ensures PageRows(rows, k, limit) == rows[Min((k - 1) * limit, |rows|)..Min(k * limit, |rows|)]
  {
    var o := (k - 1) * limit;
    assert k * limit == o + limit;
    assert PageRange(k, limit) == RangeQuery(o, o + limit - 1);
  }

  /** Taken in order, the pages `1 .. TotalPages` list every row exactly once, in table order. */
  lemma PagesCoverTable(rows: seq<Presentation>, limit: nat)
    requires limit >= 1
    ensures FirstPages(rows, limit, TotalPages(|rows|, limit)) == rows
  {
    TotalPagesIsCeiling(|rows|, limit);
    FirstPagesArePrefix(rows, limit, TotalPages(|rows|, limit));
  }

  // ---------------------------------------------------------------------------
  // The handler

  /** What the query yields: the rows, possibly null, and the exact count, possibly null; or an error. */
  datatype QueryOutcome = QueryRows(data: Option<seq<Presentation>>, count: Option<nat>) | QueryError

  /** What a working database returns for a range of the newest-first table. */
  function RangeOf(rows: seq<Presentation>): (query: RangeQuery -> QueryOutcome)
    ensures forall q :: query(q).QueryRows? && query(q).count == Some(|rows|)
  {
    q => QueryRows(Some(RangeRows(rows, q)), Some(|rows|))
  }

  datatype Pagination = Pagination(page: nat, limit: nat, total: nat, totalPages: nat)

  datatype ListResponse = Listed(presentations: seq<Presentation>, pagination: Pagination) | ListFailed(status: nat, error: string)

  /** `GET` with the query as an oracle. */
  function Get(page: Option<nat>, limit: Option<nat>, query: RangeQuery -> QueryOutcome): (r: ListResponse)
    requires page.Some? ==> page.value >= 1
    requires limit.Some? ==> limit.value >= 1
    ensures var p := ParameterOr(page, DefaultPage); var l := ParameterOr(limit, DefaultLimit);
      match query(PageRange(p, l))
      case QueryError => r == ListFailed(500, FetchFailed)
      case QueryRows(data, count) =>
        r.Listed? && r.presentations == data.GetOr([])
        && r.pagination == Pagination(p, l, count.GetOr(0), TotalPages(count.GetOr(0), l))
  {
    var p := ParameterOr(page, DefaultPage);
    var l := ParameterOr(limit, DefaultLimit);
    match query(PageRange(p, l))
    case QueryError => ListFailed(500, FetchFailed)
    case QueryRows(data, count) =>
      var total := if count.Some? then count.value else 0;
      Listed(if data.Some? then data.value else [], Pagination(p, l, total, TotalPages(total, l)))
  }

  /** Against a working database, a listing is that page of the table, with the table's size and page count. */
  lemma GetListsPage(rows: seq<Presentation>, page: Option<nat>, limit: Option<nat>)
    requires page.Some? ==> page.value >= 1
    requires limit.Some? ==> limit.value >= 1
    ensures var p := ParameterOr(page, DefaultPage); var l := ParameterOr(limit, DefaultLimit);
      Get(page, limit, RangeOf(rows))
        == Listed(PageRows(rows, p, l), Pagination(p, l, |rows|, TotalPages(|rows|, l)))
  {
  }

  /** Without parameters the first ten rows are listed. */
  lemma DefaultsListFirstTen(rows: seq<Presentation>)
    ensures Get(None, None, RangeOf(rows)).presentations == rows[..Min(10, |rows|)]
    ensures Get(None, None, RangeOf(rows)).pagination.page == 1
  {
    assert PageRange(1, 10) == RangeQuery(0, 9);
  }
}
