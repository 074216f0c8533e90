/**
 * `useABNSearch` (apps/web/src/hooks/use-abn-search.ts): the query keys,
 * the `enabled` condition and the retry rule it hands to React Query, and
 * the configuration it builds for one query string. React Query itself
 * (caching, scheduling, calling the fetch) is not part of this model.
 */
module AbnSearchHook {
  import opened Wrappers
  import opened JsString
  import opened ApiTypes

  /** `abnKeys.all`. */
  function AllKey(): seq<string>
  {
    ["abn"]
  }

  /** `abnKeys.searches()`: `all` extended with `'search'`. */
  function SearchesKey(): (k: seq<string>)
    ensures AllKey() < k
    ensures k == ["abn", "search"]
  {
    AllKey() + ["search"]
  }

  /** `abnKeys.search(query)`: `searches()` extended with the query, unchanged. */
  function SearchKey(query: string): (k: seq<string>)
    ensures SearchesKey() < k && AllKey() < k
    ensures k == ["abn", "search", query]
  {
    SearchesKey() + [query]
  }

  /** Distinct queries have distinct keys. */
  lemma SearchKeyInjective(q1: string, q2: string)
    requires q1 != q2
    ensures SearchKey(q1) != SearchKey(q2)
  {
    assert SearchKey(q1)[2] == q1;
  }

  /** `UseABNSearchOptions`: the optional `enabled` flag. */
  datatype UseAbnSearchOptions = UseAbnSearchOptions(enabled: Option<bool>)

  /** `options?.enabled !== false`: only an explicit `false` switches the query off. */
  predicate OptionsAllow(options: Option<UseAbnSearchOptions>)
  {
    !(options.Some? && options.value.enabled == Some(false))
  }

  /** `options?.enabled !== false && query.trim().length > 0`. */
  function Enabled(query: string, options: Option<UseAbnSearchOptions>): (e: bool)
    ensures e <==> OptionsAllow(options) && exists k :: 0 <= k < |query| && !IsJsWhitespace(query[k])
    ensures AllWhitespace(query) ==> !e
  {
    OptionsAllow(options) && |Trim(query)| > 0
  }

  /** The `retry` callback: no retry for a 4xx status, otherwise only after the first failure. */
  function ShouldRetry(failureCount: int, error: ApiError): (r: bool)
    ensures 400 <= error.statusCode < 500 ==> !r
    ensures r ==> failureCount < 1
  {
    if error.statusCode >= 400 && error.statusCode < 500 then false
    else failureCount < 1
  }

  /** How many automatic retries a persisting error gets: none for 4xx, one otherwise. */
  function RetryBudget(error: ApiError): nat
  {
    if 400 <= error.statusCode < 500 then 0 else 1
  }

  /** Counting failures from 0, a retry is allowed exactly while fewer than `RetryBudget` have happened. */
  lemma RetryWithinBudget(failureCount: nat, error: ApiError)
    ensures ShouldRetry(failureCount, error) <==> failureCount < RetryBudget(error)
  {
  }

  /** Once the retry rule says no, it says no for every larger failure count. */
  lemma RetryMonotone(n: int, m: int, error: ApiError)
    requires n <= m && !ShouldRetry(n, error)
    ensures !ShouldRetry(m, error)
  {
  }

  /** What `useABNSearch(query, options)` hands to `useQuery`. */
  datatype QueryConfig = QueryConfig(queryKey: seq<string>, fetchQuery: string, enabled: bool)

  /**
   * The key and the fetch use `query` exactly as given; only the enabled test
   * trims it, so `" x"` and `"x"` are two cache entries.
   */
  function UseAbnSearch(query: string, options: Option<UseAbnSearchOptions>): (c: QueryConfig)
    ensures c.queryKey == ["abn", "search", query] && c.fetchQuery == query
    ensures c.enabled == Enabled(query, options)
  {
    QueryConfig(SearchKey(query), query, Enabled(query, options))
  }

  /** A query string with surrounding white space gets a different key from its trimmed form. */
  lemma UntrimmedKeyDiffers(query: string)
    requires Trim(query) != query
    ensures UseAbnSearch(query, None).queryKey != UseAbnSearch(Trim(query), None).queryKey
  {
    SearchKeyInjective(query, Trim(query));
  }
}
