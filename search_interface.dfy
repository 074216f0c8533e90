/**
 * `SearchInterface` (apps/web/src/components/search/search-interface.tsx):
 * the last submitted query, the hook call it drives, and which parts of the
 * page are rendered for a given state of the query. The query state
 * (`data`, `isLoading`, `isError`, `error`) is whatever React Query reports
 * and is an input here.
 */
module SearchInterface {
  import opened Wrappers
  import opened JsString
  import opened ApiTypes
  import opened AbnSearchHook
  import opened SearchBar
  import opened SearchResults

  const INFO_BADGES: seq<string> := ["Real-time data", "Official ABR registry", "Free to use"]

  /** What `useABNSearch` returns to the component. */
  datatype QueryState = QueryState(data: Option<AbnSearchResponse>, isLoading: bool, isError: bool, error: Option<ApiError>)

  /** The error state's retry button calls `refetch()`. */
  datatype RetryAction = Refetch

  datatype ErrorView = ErrorView(error: ApiError, onRetry: RetryAction)

  /** The results region: the three guarded branches, each present or not. */
  datatype ResultsRegion = ResultsRegion(loading: bool, errorView: Option<ErrorView>, list: Option<ResultsView>)

  datatype Page = Page(searchBarLoading: bool, badges: seq<string>, region: Option<ResultsRegion>)

  /** The rendered page for a submitted query and a query state. */
  function RenderPage(submittedQuery: string, q: QueryState): (p: Page)
    ensures p.searchBarLoading == q.isLoading && p.badges == INFO_BADGES
    ensures p.region.Some? <==> |submittedQuery| > 0
    ensures p.region.Some? ==> (p.region.value.loading <==> q.isLoading)
    ensures p.region.Some? ==> (p.region.value.errorView.Some? <==> q.isError && q.error.Some?)
    ensures p.region.Some? && p.region.value.errorView.Some? ==> p.region.value.errorView.value == ErrorView(q.error.value, Refetch)
    ensures p.region.Some? ==> (p.region.value.list.Some? <==> !q.isLoading && !q.isError && q.data.Some?)
    ensures p.region.Some? && p.region.value.list.Some? ==>
              p.region.value.list.value == RenderResults(q.data.value.results, q.data.value.query)
  {
    var region :=
      if |submittedQuery| > 0 then
        Some(ResultsRegion(
          q.isLoading,
          if q.isError && q.error.Some? then Some(ErrorView(q.error.value, Refetch)) else None,
          if !q.isLoading && !q.isError && q.data.Some? then Some(RenderResults(q.data.value.results, q.data.value.query)) else None))
      else None;
    Page(q.isLoading, INFO_BADGES, region)
  }

  /** The results list never appears together with the loading or the error branch. */
  lemma ListExcludesLoadingAndError(submittedQuery: string, q: QueryState)
    requires RenderPage(submittedQuery, q).region.Some?
    requires RenderPage(submittedQuery, q).region.value.list.Some?
    ensures !RenderPage(submittedQuery, q).region.value.loading
    ensures RenderPage(submittedQuery, q).region.value.errorView.None?
  {
  }

  /**
   * The guards alone do not make the branches exclusive or exhaustive: with
   * both flags set, a state React Query does not report, loading and error
   * render together; with neither flag and no data, as for a disabled or
   * paused query, the region is empty.
   */
  lemma BranchesNotExclusive(submittedQuery: string, e: ApiError)
    requires |submittedQuery| > 0
    ensures var r := RenderPage(submittedQuery, QueryState(None, true, true, Some(e))).region.value;
            r.loading && r.errorView.Some?
    ensures RenderPage(submittedQuery, QueryState(None, false, false, None)).region.value ==
              ResultsRegion(false, None, None)
  {
  }

  /**
   * The state React Query can report: `isLoading` and `isError` both derive
   * from the single `status` of the query, so they are never set together.
   */
  predicate Reported(q: QueryState)
  {
    !(q.isLoading && q.isError)
  }

  /** For a state React Query can report, at most one of the three branches renders. */
  lemma ReportedBranchesExclusive(submittedQuery: string, q: QueryState)
    requires Reported(q) && |submittedQuery| > 0
    ensures var r := RenderPage(submittedQuery, q).region.value;
            && !(r.loading && r.errorView.Some?)
            && !(r.loading && r.list.Some?)
            && !(r.errorView.Some? && r.list.Some?)
  {
  }

  /** The response's `count` plays no part in what is rendered. */
  lemma CountIgnored(submittedQuery: string, q: QueryState, count: int)
    requires q.data.Some?
    ensures RenderPage(submittedQuery, q) == RenderPage(submittedQuery, q.(data := Some(q.data.value.(count := count))))
  {
  }

  class SearchInterfaceState {
    var submittedQuery: string

    constructor ()
      ensures submittedQuery == ""
    {
      submittedQuery := "";
    }

    /** `handleSearch`: the query passed in becomes the submitted query, unchanged. */
    method HandleSearch(query: string)
      modifies this
      ensures submittedQuery == query
    {
      submittedQuery := query;
    }

    /**
     * `useABNSearch(submittedQuery)` with no options: the key and the fetch
     * use the submitted query as is, and the query runs exactly when it has
     * a non-white-space character.
     */
    function HookCall(): (c: QueryConfig)
      reads this
      ensures c.queryKey == ["abn", "search", submittedQuery] && c.fetchQuery == submittedQuery
      ensures c.enabled <==> exists k :: 0 <= k < |submittedQuery| && !IsJsWhitespace(submittedQuery[k])
    {
      UseAbnSearch(submittedQuery, None)
    }

    function View(q: QueryState): Page
      reads this
    {
      RenderPage(submittedQuery, q)
    }

    /**
     * A submit in the search bar wired to `handleSearch`: a query with a
     * non-white-space character becomes the submitted query, trimmed, and
     * enables the hook under the key of the trimmed text; any other query
     * changes nothing.
     */
    method SubmitFrom(bar: SearchBar)
      modifies this
      ensures (exists k :: 0 <= k < |bar.query| && !IsJsWhitespace(bar.query[k])) ==>
                submittedQuery == Trim(bar.query) && HookCall().enabled &&
                HookCall().queryKey == ["abn", "search", Trim(bar.query)]
      ensures (forall k :: 0 <= k < |bar.query| ==> IsJsWhitespace(bar.query[k])) ==>
                submittedQuery == old(submittedQuery)
    {
      var search := bar.HandleSubmit();
      if search.Some? {
        HandleSearch(search.value);
        assert !IsJsWhitespace(search.value[0]);
      }
    }
  }
}
