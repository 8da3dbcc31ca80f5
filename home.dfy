/** frontend/src/components/home/Home.tsx: the events dashboard's paging
    state (current page and page count), the category filter and the search
    dispatch. React state is a class whose fields the handlers reassign. */
module Home {
  import opened Common
  import opened Decimal
  import opened Pagination

  /** `ITEMS_PER_PAGE`, the `limit` of every list request. */
  const ItemsPerPage: int := 8

  const CategoryQueryPrefix: string := "?category="

  /** `Math.ceil(n / d)` for a count and a positive page size. */
  function CeilDiv(n: nat, d: int): (q: nat)
    requires d >= 1
    ensures d * (q - 1) < n <= d * q || (n == 0 && q == 0)
  {
    (n + d - 1) / d
  }

  /** `Math.max(Math.ceil(count / ITEMS_PER_PAGE), 1)`: enough pages for
      every event, at least one, and no page beyond the last event except the
      single page of an empty list. */
  function TotalPages(count: nat): (t: int)
    ensures t >= 1
    ensures count <= ItemsPerPage * t
    ensures ItemsPerPage * (t - 1) <= count
    ensures count > 0 ==> ItemsPerPage * (t - 1) < count
  {
    Max(CeilDiv(count, ItemsPerPage), 1)
  }

  /** A list request for page `page` of size 8, as the query string carries
      it and the server reads it back. */
  function ServerParams(page: int): PageParams {
    ReadPageParams(Format(page), Format(ItemsPerPage))
  }

  /** Any page between 1 and the page count computed from a response's
      count is served by the server for a list of that many events, with
      limit 8, and is non-empty unless there are no events at all. */
  lemma {:induction false} AllowedPagesAreServed<T>(all: seq<T>, page: int)
    requires 1 <= page <= TotalPages(|all|)
    requires |all| <= MaxInt64
    ensures ServerParams(page) == PageParams(page, ItemsPerPage)
    ensures var r := Paginate(all, page, ItemsPerPage);
      r.Page? && r.count == |all| && (|all| > 0 ==> |r.items| > 0)
  {
    ParseFormat(page);
    ParseFormat(ItemsPerPage);
    assert ItemsPerPage * (page - 1) <= ItemsPerPage * (TotalPages(|all|) - 1);
  }

  /** What one call of the `onSearch` callback sends: the unfiltered list
      for the empty query, a search at the current page otherwise. */
  datatype SearchDispatch = Refresh(page: int) | Search(keyword: string, page: int)

  function OnSearch(query: string, page: int): (d: SearchDispatch)
    ensures d.Refresh? <==> query == ""
    ensures d.page == page
    ensures d.Search? ==> d.keyword == query && |d.keyword| > 0
  {
    if query == "" then Refresh(page) else Search(query, page)
  }

  /** The dashboard's React state. */
  class Dashboard {
    var page: int
    var totalPages: int
    var query: string

    ghost predicate Valid()
      reads this
    {
      page >= 1 && totalPages >= 1
    }

    constructor ()
      ensures Valid()
      ensures page == 1 && totalPages == 1 && query == ""
    {
      page, totalPages, query := 1, 1, "";
    }

    /** The Prev button is disabled on the first page. */
    predicate PrevEnabled()
      reads this
    {
      page != 1
    }

    /** The Next button is disabled on the last page. */
    predicate NextEnabled()
      reads this
    {
      page != totalPages
    }

    /** Prev: `setPage(p => Math.max(1, p - 1))`. */
    method Prev()
      requires Valid()
      modifies this
      ensures Valid()
      ensures page == Max(1, old(page) - 1) && totalPages == old(totalPages) && query == old(query)
      ensures old(page) <= totalPages ==> page <= totalPages
    {
      page := Max(1, page - 1);
    }

    /** Next: `setPage(p => Math.min(totalPages, p + 1))`. From a page past
        the count (after a shorter response) it jumps back to the last page. */
    method Next()
      requires Valid()
      modifies this
      ensures Valid()
      ensures page == Min(totalPages, old(page) + 1) && totalPages == old(totalPages) && query == old(query)
      ensures page <= totalPages
    {
      page := Min(totalPages, page + 1);
    }

    /** The search bar gains focus: `setPage(1)`. */
    method Focus()
      requires Valid()
      modifies this
      ensures Valid()
      ensures page == 1 && totalPages == old(totalPages) && query == old(query)
    {
      page := 1;
    }

    /** A list response arrives: `setTotalPages(Math.max(Math.ceil(count / 8), 1))`. */
    method Receive(count: nat)
      requires Valid()
      modifies this
      ensures Valid()
      ensures totalPages == TotalPages(count) && page == old(page) && query == old(query)
    {
      totalPages := TotalPages(count);
    }

    /** filterCategory: back to page 1, the query becomes `?category=<c>`,
        and the route becomes `/<c>`. */
    method FilterCategory(category: string) returns (navigateTo: string)
      requires Valid()
      modifies this
      ensures Valid()
      ensures page == 1 && query == CategoryQueryPrefix + category && totalPages == old(totalPages)
      ensures navigateTo == "/" + category
    {
      page := 1;
      query := CategoryQueryPrefix + category;
      navigateTo := "/" + category;
    }
  }

  /** Prev and Next keep the page inside `[1, totalPages]` once it is
      there, so the page they lead to is one the server serves. */
  method PagingStaysServed(d: Dashboard, count: nat, prev: bool)
    requires d.Valid() && d.totalPages == TotalPages(count) && d.page <= d.totalPages
    modifies d
    ensures d.Valid() && 1 <= d.page <= d.totalPages
  {
    if prev {
      d.Prev();
    } else {
      d.Next();
    }
  }
}
