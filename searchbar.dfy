/** frontend/src/components/home/Searchbar.tsx: the effect that runs on
    every change of the query, and the clear button. */
module Searchbar {
  import opened Common
  import Home

  /** JavaScript's `s.slice(0, n)`: at most the first n characters. */
  function SliceTo(s: string, n: nat): (r: string)
    ensures |r| == Min(n, |s|) && r == s[..|r|]
  {
    s[..Min(n, |s|)]
  }

  /** `query.slice(0, 10) === "?category="`. */
  predicate IsCategoryQuery(query: string) {
    SliceTo(query, |Home.CategoryQueryPrefix|) == Home.CategoryQueryPrefix
  }

  /** `query.charAt(0) !== "?"`; the empty string's `charAt(0)` is `""`. */
  predicate CallsSearch(query: string) {
    query == "" || query[0] != '?'
  }

  /** What the effect does for a query: where it navigates, whether it
      disables the input, and whether it calls onSearch. */
  datatype Effect = Effect(navigateTo: Option<string>, disable: bool, onSearch: Option<string>)

  function QueryEffect(query: string): (e: Effect)
    ensures e.navigateTo.Some? <==> |query| >= 10 && query[..10] == Home.CategoryQueryPrefix
    ensures e.navigateTo.Some? ==> e.navigateTo.value == "/" + query[10..]
    ensures e.disable <==> e.navigateTo.Some?
    ensures e.onSearch.Some? <==> |query| == 0 || query[0] != '?'
    ensures e.onSearch.Some? ==> e.onSearch.value == query
  {
    var navigateTo := if IsCategoryQuery(query) then Some("/" + query[|Home.CategoryQueryPrefix|..]) else None;
    Effect(navigateTo, navigateTo.Some?, if CallsSearch(query) then Some(query) else None)
  }

  /** A category query never reaches onSearch. */
  lemma CategoryQueryNeverSearches(query: string)
    requires IsCategoryQuery(query)
    ensures QueryEffect(query).onSearch.None?
  {
    assert query[0] == Home.CategoryQueryPrefix[0];
  }

  /** The query Home's filterCategory builds leads here to the same route
      Home navigates to, disables the input, and triggers no search. */
  lemma CategoryRoundTrip(category: string)
    ensures QueryEffect(Home.CategoryQueryPrefix + category) == Effect(Some("/" + category), true, None)
  {
    var q := Home.CategoryQueryPrefix + category;
    assert q[..10] == Home.CategoryQueryPrefix;
    assert q[10..] == category;
  }

  /** The search bar's own state. */
  class SearchBar {
    var query: string
    var isDisabled: bool

    constructor (query: string)
      ensures this.query == query && !isDisabled
    {
      this.query := query;
      isDisabled := false;
    }

    /** The `[query]` effect: possibly navigate and disable, possibly search. */
    method OnQueryChanged() returns (navigateTo: Option<string>, searched: Option<string>)
      modifies this
      ensures navigateTo == QueryEffect(query).navigateTo && searched == QueryEffect(query).onSearch
      ensures isDisabled == (old(isDisabled) || QueryEffect(query).disable)
      ensures query == old(query)
    {
      navigateTo, searched := None, None;
      if IsCategoryQuery(query) {
        navigateTo := Some("/" + query[|Home.CategoryQueryPrefix|..]);
        isDisabled := true;
      }
      if CallsSearch(query) {
        searched := Some(query);
      }
    }

    /** The clear button: go to "/", enable the input, empty the query. */
    method Clear() returns (navigateTo: string)
      modifies this
      ensures navigateTo == "/" && !isDisabled && query == ""
    {
      navigateTo := "/";
      isDisabled := false;
      query := "";
    }
  }

  /** Clearing, then the `[query]` effect, which React runs only when the
      query changed: a non-empty query is cleared and the dashboard reloads
      the unfiltered list; an already empty query triggers nothing. Either
      way the input ends enabled and empty. */
  method ClearThenEffect(bar: SearchBar, page: int) returns (dispatch: Option<Home.SearchDispatch>)
    modifies bar
    ensures !bar.isDisabled && bar.query == ""
    ensures old(bar.query) != "" ==> dispatch == Some(Home.Refresh(page))
    ensures old(bar.query) == "" ==> dispatch == None
  {
    var before := bar.query;
    var _ := bar.Clear();
    dispatch := None;
    if bar.query != before {
      var navigateTo, searched := bar.OnQueryChanged();
      if searched.Some? {
        dispatch := Some(Home.OnSearch(searched.value, page));
      }
    }
  }
}
