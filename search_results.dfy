/**
 * `SearchResults` (apps/web/src/components/search/search-results.tsx): the
 * empty state for no results, otherwise a header and one card per entity in
 * response order.
 */
module SearchResults {
  import opened ApiTypes
  import opened SearchResultCard

  /** `Found {n} {result|results} for "{query}"`. */
  datatype Header = Header(count: nat, noun: string, query: string)

  datatype ResultsView = EmptyState | Listing(header: Header, cards: seq<Card>)

  /** `results.length === 1 ? 'result' : 'results'`. */
  function Noun(n: nat): (s: string)
    ensures s == "result" <==> n == 1
    ensures s == "results" <==> n != 1
  {
    if n == 1 then "result" else "results"
  }

  /** `results.map((entity) => <SearchResultCard entity={entity} />)`. */
  function CardsFor(results: seq<AbnEntity>): (cards: seq<Card>)
    ensures |cards| == |results|
    ensures forall k :: 0 <= k < |results| ==> cards[k] == RenderCard(results[k])
  {
    if |results| == 0 then []
    else [RenderCard(results[0])] + CardsFor(results[1..])
  }

  function RenderResults(results: seq<AbnEntity>, query: string): (v: ResultsView)
    ensures v.EmptyState? <==> |results| == 0
    ensures v.Listing? ==> v.header == Header(|results|, Noun(|results|), query)
    ensures v.Listing? ==> |v.cards| == |results| &&
                           forall k :: 0 <= k < |results| ==> v.cards[k] == RenderCard(results[k])
  {
    if |results| == 0 then EmptyState
    else Listing(Header(|results|, Noun(|results|), query), CardsFor(results))
  }

  /**
   * The header counts the entities it lists and says 'result' for exactly
   * one of them; the response's own `count` is not consulted.
   */
  lemma HeaderCountsCards(results: seq<AbnEntity>, query: string)
    requires |results| > 0
    ensures RenderResults(results, query).header.count == |RenderResults(results, query).cards|
    ensures RenderResults(results, query).header.noun == "result" <==> |RenderResults(results, query).cards| == 1
  {
  }
}
