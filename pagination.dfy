/** The paging shared by the three list handlers of
    backend/routes/events.go (GetAllEvents, GetEventsByCategory,
    SearchEvents): `page` and `limit` query parameters with defaults, a
    bound check, and a slice of the full result. */
module Pagination {
  import opened Common
  import opened Decimal

  const DefaultPage: int := 1
  const DefaultLimit: int := 10

  /** `strconv.Atoi(text)` when that succeeds with a positive value, else
      the default. An absent parameter is the empty string. */
  function PositiveOr(text: string, fallback: int): (v: int)
    ensures ParseInt(text).Some? && ParseInt(text).value > 0 ==> v == ParseInt(text).value
    ensures !(ParseInt(text).Some? && ParseInt(text).value > 0) ==> v == fallback
    ensures fallback > 0 ==> v > 0
  {
    match ParseInt(text)
    case Some(n) => if n > 0 then n else fallback
    case None => fallback
  }

  datatype PageParams = PageParams(page: int, limit: int)

  function ReadPageParams(pageText: string, limitText: string): (p: PageParams)
    ensures p.page >= 1 && p.limit >= 1
    ensures p.page == PositiveOr(pageText, DefaultPage) && p.limit == PositiveOr(limitText, DefaultLimit)
  {
    PageParams(PositiveOr(pageText, DefaultPage), PositiveOr(limitText, DefaultLimit))
  }

  /** Without parameters the first ten items are served. */
  lemma NoParamsMeansFirstTen()
    ensures ReadPageParams("", "") == PageParams(1, 10)
  {
    assert !WellFormed("");
  }

  /** A page, or the refusal "requested page does not exist". */
  datatype PageResult<T> = PageNotFound | Page(items: seq<T>, count: int)

  /** The offset of the first item of a page. */
  function Start(page: int, limit: int): int {
    (page - 1) * limit
  }

  /** `if len < limit*(page-1)` refuse, else `all[(page-1)*limit : min(page*limit, len)]`
      together with the unpaginated count. */
  function Paginate<T>(all: seq<T>, page: int, limit: int): (r: PageResult<T>)
    requires page >= 1 && limit >= 1
    ensures r.PageNotFound? <==> |all| < Start(page, limit)
    ensures r.Page? ==>
      && r.count == |all|
      && |r.items| == Min(limit, |all| - Start(page, limit))
      && forall k :: 0 <= k < |r.items| ==> r.items[k] == all[Start(page, limit) + k]
  {
    if |all| < limit * (page - 1) then PageNotFound
    else Page(all[(page - 1) * limit .. Min(page * limit, |all|)], |all|)
  }

  /** A page that starts exactly at the end is served, and is empty. */
  lemma PageAtTheEndIsEmpty<T>(all: seq<T>, page: int, limit: int)
    requires page >= 1 && limit >= 1
    requires |all| == Start(page, limit)
    ensures Paginate(all, page, limit) == Page([], |all|)
  {
  }

  /** Every item is served, on page `j / limit + 1` at position `j % limit`. */
  lemma EveryItemIsOnItsPage<T>(all: seq<T>, limit: int, j: int)
    requires limit >= 1 && 0 <= j < |all|
    ensures var r := Paginate(all, j / limit + 1, limit);
      r.Page? && j % limit < |r.items| && r.items[j % limit] == all[j]
  {
    var page := j / limit + 1;
    assert Start(page, limit) == (j / limit) * limit;
    assert j == (j / limit) * limit + j % limit;
  }

  /** The items of pages 1 through n, one after another. */
  function PagesUpTo<T>(all: seq<T>, limit: int, n: nat): seq<T>
    requires limit >= 1
  {
    if n == 0 then []
    else
      var r := Paginate(all, n, limit);
      PagesUpTo(all, limit, n - 1) + (if r.Page? then r.items else [])
  }

  /** Reading pages 1, 2, ... in turn yields the whole result in order,
      without gaps or repeats. */
  lemma {:induction false} PagesUpToIsPrefix<T>(all: seq<T>, limit: int, n: nat)
    requires limit >= 1
    ensures PagesUpTo(all, limit, n) == all[..Min(n * limit, |all|)]
  {
    if n > 0 {
      PagesUpToIsPrefix(all, limit, n - 1);
      var a := (n - 1) * limit;
      var b := n * limit;
      assert b == a + limit;
      var r := Paginate(all, n, limit);
      var lo := Min(a, |all|);
      var hi := Min(b, |all|);
      if r.Page? {
        assert r.items == all[a..hi];
      } else {
        assert lo == hi;
      }
      assert all[..lo] + all[lo..hi] == all[..hi];
    }
  }
}
