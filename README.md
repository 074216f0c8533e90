# ABN lookup: ingestion and search decision logic in Dafny

This project models the two sequential cores of an Australian Business Number
(ABN) lookup service and proves properties of them.

**Ingestion** (`scripts/ingestion/abn_data.py`). The ABR bulk extract is a
stream of XML elements. `parse_xml_record` normalises one `ABR` element into
a record: the ABN, the main and legal entity names, the ASIC number, GST, the
DGR entries, other names and the business address. `process_xml_file` keeps
the records of the elements that parse, and in development mode it stops at a
sample size. `upload_to_supabase` cuts the records into consecutive batches.
For each batch it:

- fans the batch out into eight per-table row lists;
- upserts the keyed tables;
- deletes the batch's old DGR and other-name rows, then inserts the new ones;
- stops with `False` at the first failing call.

**Web search flow** (`apps/web/src`):

- the React Query configuration built by `useABNSearch`: query keys, the `enabled` test and the retry rule;
- the trim-and-submit rule and button of `SearchBar`;
- the submitted-query state and render branches of `SearchInterface`;
- the cards of `SearchResultCard`, including the 2-3-3-3 ABN grouping;
- the empty state, header and card list of `SearchResults`.

Modules, one per source file or library facade:

| module | file | models |
|---|---|---|
| `Wrappers` | `wrappers.dfy` | `Option`, i.e. Python `None` and TS `undefined` |
| `Xml` | `xml.dfy` | the `ElementTree` calls used: `find`, `findall`, `get`; also `''.join(s.split())` |
| `AbnParse` | `abn_parse.dfy` | `parse_xml_record` |
| `AbnProcess` | `abn_process.dfy` | `process_xml_file` |
| `AbnUpload` | `abn_upload.dfy` | `upload_to_supabase` |
| `JsString` | `js_string.dfy` | `String.prototype.trim` |
| `ApiTypes` | `api_types.dfy` | the shapes of `api.types.ts` |
| `AbnSearchHook` | `abn_search_hook.dfy` | `use-abn-search.ts` |
| `SearchBar` | `search_bar.dfy` | `search-bar.tsx` |
| `SearchInterface` | `search_interface.dfy` | `search-interface.tsx` |
| `SearchResultCard` | `search_result_card.dfy` | `search-result-card.tsx` |
| `SearchResults` | `search_results.dfy` | `search-results.tsx` |

The imperative code keeps its loops:

- the two `for` loops of `parse_xml_record`;
- the element loop of `process_xml_file`;
- the batch loop, the fan-out loop and the call-by-call execution of `upload_to_supabase`.

Each loop is a method proved equal to a specification function. The properties are lemmas about those functions.

The tables are a value `Tables`: six maps keyed by ABN and two lists. Whether
an `execute()` call succeeds is an oracle `ok(batch, call)`.

Points where the code behaves in a way that is easy to misread:

- **Query key.** `useABNSearch` keys and fetches on the query exactly as given and trims only in the `enabled` test (`AbnSearchHook.UseAbnSearch`, `AbnSearchHook.UntrimmedKeyDiffers`). The key is trimmed only because `SearchBar` trims before submitting (`SearchInterface.SearchInterfaceState.SubmitFrom`).
- **Render branches.** The guards of `SearchInterface` alone do not exclude each other: given both `isLoading` and `isError`, loading and error would render together, and a state with no flag and no data renders an empty region (`SearchInterface.BranchesNotExclusive`). Loading and error exclude each other only because React Query derives both from one `status`; under that assumption (`SearchInterface.Reported`) at most one branch renders (`SearchInterface.ReportedBranchesExclusive`).
- **Retry.** The code retries once on any status outside 400–499, not only on 5xx.
- **Batch size.** `upload_to_supabase` with `batch_size == 0` raises inside `range()` and returns `False`. A negative batch size gives no batch and returns `True` with nothing uploaded.
- **Sample cap.** `process_xml_file` tests the development-mode cap after every element, not only after `ABR` elements. With `current_count >= sample_size`, the first element is still processed and may contribute one record.

## Model

| member | source | states |
|---|---|---|
| Xml.Find | scripts/ingestion/abn_data.py:124-126 | `find` yields the first child with the tag, and None exactly when no child has it |
| Xml.RemovePyWhitespace | scripts/ingestion/abn_data.py:129 | the result holds no `str.split` whitespace; a string without whitespace is unchanged, and an all-whitespace string becomes empty |
| Xml.RemovePyWhitespaceAppend | scripts/ingestion/abn_data.py:129 | removing whitespace distributes over concatenation, so every non-whitespace character is kept, in order |
| Xml.WithTag | scripts/ingestion/abn_data.py:230 | `findall` returns only children with the tag, never more than there are children |
| Xml.WithTagMembers | scripts/ingestion/abn_data.py:249 | every element `findall` returns is a child, every child with the tag is returned, and the result is empty exactly when no child has the tag |
| Xml.WithTagAppend | scripts/ingestion/abn_data.py:230 | `findall` over concatenated children is the concatenation of the matches, so matches keep document order |
| Xml.FindAllHeadIsFind | scripts/ingestion/abn_data.py:185-186 | `findall` is non-empty exactly when `find` gives an element, and its first element is that one |
| Xml.FindAllInsert | scripts/ingestion/abn_data.py:185-187 | inserting a child puts it, when it has the tag, between the matches before and after it |
| Xml.FindInsertOtherTag | scripts/ingestion/abn_data.py:181-191 | inserting a child with another tag anywhere does not change `find` |
| AbnParse.NormalisedAbn | scripts/ingestion/abn_data.py:124-131 | an ABN exists iff there is an `ABN` child with text that has 11 characters once whitespace is removed; that ABN is 11 non-whitespace characters |
| AbnParse.ParseRejectsExactly | scripts/ingestion/abn_data.py:124-131 | a record is rejected exactly when it has no `ABN` child or its ABN is not 11 characters without whitespace; an accepted ABN has length 11 and no whitespace |
| AbnParse.MainEntityOf | scripts/ingestion/abn_data.py:150-163 | `main_entity` is present iff `MainEntity` has a `NonIndividualName` |
| AbnParse.IndividualOf | scripts/ingestion/abn_data.py:184-187 | given name 1 and 2 are the first and second `GivenName` in document order, None when missing |
| AbnParse.ThirdGivenNameIgnored | scripts/ingestion/abn_data.py:181-191 | a `GivenName` inserted at any position with two `GivenName`s before it, before or after `FamilyName`, does not change the legal-entity data |
| AbnParse.LegalEntityOf | scripts/ingestion/abn_data.py:166-191 | `legal_entity` is present iff `LegalEntity` has an `IndividualName` |
| AbnParse.AddressSource | scripts/ingestion/abn_data.py:194-203 | the address element is MainEntity's `BusinessAddress` when there is one, else LegalEntity's |
| AbnParse.BusinessAddressOf | scripts/ingestion/abn_data.py:205-213 | `business_address` is present iff the chosen address has `AddressDetails`, and then holds its state and postcode |
| AbnParse.MainEntityAddressPreferred | scripts/ingestion/abn_data.py:197-203 | when MainEntity has a `BusinessAddress`, the LegalEntity address makes no difference |
| AbnParse.DgrEntries | scripts/ingestion/abn_data.py:229-245 | one DGR entry per `DGR` element |
| AbnParse.CollectDgrEntries | scripts/ingestion/abn_data.py:229-245 | the DGR loop appends exactly one entry per element, the k-th for the k-th element |
| AbnParse.DgrEntriesOnePerElement | scripts/ingestion/abn_data.py:229-245 | `dgr_entries` is None iff there is no `DGR` element, and otherwise has one entry per element in document order, named or not |
| AbnParse.OtherNames | scripts/ingestion/abn_data.py:248-258 | the other-name list is never longer than the `OtherEntity` list |
| AbnParse.OtherNamesAppend | scripts/ingestion/abn_data.py:248-258 | the other-name list of concatenated elements is the concatenation of their lists, and one `OtherEntity` contributes exactly its entry when it has a `NonIndividualName`: each named element contributes, in document order |
| AbnParse.CollectOtherNames | scripts/ingestion/abn_data.py:248-258 | the other-name loop builds exactly `OtherNames` |
| AbnParse.OtherNamesFromNamedElements | scripts/ingestion/abn_data.py:248-258 | every other-name entry comes from a named `OtherEntity` |
| AbnParse.OtherNamesEmptyIffUnnamed | scripts/ingestion/abn_data.py:248-258 | the other-name list is empty iff no `OtherEntity` has a `NonIndividualName` |
| AbnParse.OtherNamesNoneIffUnnamed | scripts/ingestion/abn_data.py:248-275 | `other_entity_names` is None iff no `OtherEntity` has a `NonIndividualName` |
| AbnParse.NoneIfEmpty | scripts/ingestion/abn_data.py:274-275 | an empty list becomes None; a present list is non-empty and unchanged |
| AbnParse.ParseRecord | scripts/ingestion/abn_data.py:120-277 | a record is produced iff the ABN is accepted, and it carries the normalised ABN |
| AbnParse.ParseXmlRecord | scripts/ingestion/abn_data.py:120-283 | the step-by-step procedure returns exactly `ParseRecord` |
| AbnProcess.RecordsOfMembership | scripts/ingestion/abn_data.py:298-302 | an element contributes a record iff its tag ends with `ABR` and it parses to that record |
| AbnProcess.ProcessElement | scripts/ingestion/abn_data.py:298-302 | one element of the stream contributes at most one record: its parse when its tag ends with `ABR` and it parses |
| AbnProcess.ValidRecordsAppend | scripts/ingestion/abn_data.py:296-302 | the filter distributes over concatenation of streams, so document order is kept |
| AbnProcess.ValidRecordsPrefix | scripts/ingestion/abn_data.py:296-315 | stopping early yields a prefix of the full result |
| AbnProcess.ValidRecordsMembership | scripts/ingestion/abn_data.py:296-302 | a record is returned iff some element of the stream contributes it |
| AbnProcess.ProcessXmlFile | scripts/ingestion/abn_data.py:286-320 | outside development mode, every valid record in order; in development mode with room left, the first `sample_size - current_count` of them; with none left, those of the first element only |
| AbnProcess.ProcessOutcome | scripts/ingestion/abn_data.py:296-320 | how the loop ends (end of stream, or the development-mode cap) determines the returned records as `ProcessXmlFile` states them |
| AbnProcess.CapReached | scripts/ingestion/abn_data.py:313-315 | once the first elements have yielded exactly the cap, those records are the first `cap` valid records of the whole stream |
| AbnProcess.SampleCapBound | scripts/ingestion/abn_data.py:313-315 | the development-mode result never exceeds `sample_size - current_count`, and a stream with fewer records is not cut |
| AbnUpload.Tagged | scripts/ingestion/abn_data.py:359-361 | each DGR and other-name row is its entry tagged with the parent ABN |
| AbnUpload.OptionRows | scripts/ingestion/abn_data.py:350-363 | a present sub-record gives exactly one row, tagged with the ABN, and an absent one none |
| AbnUpload.RecordRows | scripts/ingestion/abn_data.py:346-363 | one record gives exactly one `abn_records` row; a row per present sub-record (ASIC only for a non-empty string); one row per DGR entry and other name; every child row carries its ABN |
| AbnUpload.AbnsInBatch | scripts/ingestion/abn_data.py:343 | `abns_in_batch` lists the batch's ABNs in order |
| AbnUpload.FanOutShape | scripts/ingestion/abn_data.py:343-363 | one `abn_records` row per record in order, and every child row carries one of the batch's ABNs |
| AbnUpload.FanOutSnoc | scripts/ingestion/abn_data.py:346-363 | handling one more record appends exactly that record's rows to each batch list |
| AbnUpload.CollectBatch | scripts/ingestion/abn_data.py:334-363 | the fan-out loop builds exactly `FanOut` |
| AbnUpload.UpsertCalls | scripts/ingestion/abn_data.py:366-377 | the first calls of a batch are upserts only |
| AbnUpload.InsertCalls | scripts/ingestion/abn_data.py:383-386 | the last calls of a batch are inserts only |
| AbnUpload.DeleteBeforeInsert | scripts/ingestion/abn_data.py:366-386 | the two deletes of the batch's ABNs come after every upsert and before every insert |
| AbnUpload.Upsert | scripts/ingestion/abn_data.py:366-377 | an upsert keeps every existing key and adds every row's ABN |
| AbnUpload.UpsertUntouched | scripts/ingestion/abn_data.py:366-377 | an ABN no row carries keeps its old entry or its absence |
| AbnUpload.UpsertLastWins | scripts/ingestion/abn_data.py:366-377 | an ABN ends with the data of the last row that carries it |
| AbnUpload.UpsertIdempotent | scripts/ingestion/abn_data.py:366-377 | upserting the same rows twice equals upserting them once |
| AbnUpload.KeyedByAbn | scripts/ingestion/abn_data.py:366 | `abn_records` rows conflict on their own `abn` column |
| AbnUpload.DeleteIn | scripts/ingestion/abn_data.py:380-381 | the rows left after a delete are rows of the table whose ABN is not in the batch |
| AbnUpload.DeleteInKeeps | scripts/ingestion/abn_data.py:380-381 | a delete keeps every row of an ABN outside the batch |
| AbnUpload.DeleteInNoMatch | scripts/ingestion/abn_data.py:380-381 | a delete that matches no row leaves the table unchanged |
| AbnUpload.DeleteInAllMatch | scripts/ingestion/abn_data.py:380-381 | a delete of every ABN the rows carry removes them all |
| AbnUpload.UpsertCallsEffect | scripts/ingestion/abn_data.py:366-377 | the upserts change the six keyed tables and nothing else |
| AbnUpload.DeleteCallsEffect | scripts/ingestion/abn_data.py:380-381 | the deletes drop the batch's ABNs from the two child lists and change nothing else |
| AbnUpload.InsertCallsEffect | scripts/ingestion/abn_data.py:383-386 | the inserts append the batch's rows to the two child lists and change nothing else |
| AbnUpload.BatchEffect | scripts/ingestion/abn_data.py:366-386 | a fully successful batch leaves the table-by-table result `BatchResult` |
| AbnUpload.BatchReplacesChildRows | scripts/ingestion/abn_data.py:380-386 | afterwards the batch's ABNs have only the batch's new DGR and other-name rows, all of them present, and other ABNs' rows are kept |
| AbnUpload.BatchIdempotent | scripts/ingestion/abn_data.py:343-386 | running a batch's calls again after they succeeded changes nothing |
| AbnUpload.BatchesShape | scripts/ingestion/abn_data.py:329-330 | the batches concatenate back to the records in order; each is non-empty with at most `batch_size` records, and all but the last have exactly `batch_size` |
| AbnUpload.BatchesAreSlices | scripts/ingestion/abn_data.py:329-330 | batch c is `records[c*n : (c+1)*n]` |
| AbnUpload.ExecuteBatch | scripts/ingestion/abn_data.py:365-392 | the calls run in order until the first failing one, leaving the effects of the ones before it |
| AbnUpload.RunFromSucceedsIff | scripts/ingestion/abn_data.py:365-392 | a batch succeeds iff every call succeeds, and then leaves the combined effect of its calls |
| AbnUpload.RunFromOnlyConsults | scripts/ingestion/abn_data.py:365-392 | a batch depends only on the outcomes of its own calls |
| AbnUpload.RunBatchesSucceedsIff | scripts/ingestion/abn_data.py:329-395 | the batches succeed iff every call of every batch does |
| AbnUpload.UploadSucceedsIffAllOk | scripts/ingestion/abn_data.py:329-395 | `upload_to_supabase` returns True iff every call of every batch succeeds |
| AbnUpload.NoBatchAfterFailure | scripts/ingestion/abn_data.py:390-392 | once a batch fails the result is False, and the outcomes of later batches make no difference |
| AbnUpload.BatchKeys | scripts/ingestion/abn_data.py:366 | a batch keeps the `abn_records` keys present and adds each of the batch's ABNs |
| AbnUpload.RunBatchesKeys | scripts/ingestion/abn_data.py:329-395 | successful batches keep the old keys and add every record's ABN |
| AbnUpload.UploadedAbnsPresent | scripts/ingestion/abn_data.py:323-399 | for a positive batch size, after a successful upload every record's ABN is a key of `abn_records` |
| AbnUpload.UploadToSupabase | scripts/ingestion/abn_data.py:323-399 | the batch loop returns exactly `Upload`: False for batch size 0, True with nothing written for a negative one, otherwise the batches in order stopping at the first failure |
| JsString.TrimStart | apps/web/src/components/search/search-bar.tsx:21-22 | the result is a suffix that starts with a non-whitespace character, and only whitespace was removed |
| JsString.TrimEnd | apps/web/src/components/search/search-bar.tsx:21-22 | the result is a prefix that ends with a non-whitespace character, and only whitespace was removed |
| JsString.Trim | apps/web/src/components/search/search-bar.tsx:21-22 | the result is a slice with only whitespace around it, no whitespace at either end, and is empty iff the input is all whitespace |
| JsString.TrimIdempotent | apps/web/src/components/search/search-bar.tsx:22 | trimming twice equals trimming once |
| AbnSearchHook.SearchesKey | apps/web/src/hooks/use-abn-search.ts:7-9 | `searches()` is `['abn','search']` and strictly extends `all` |
| AbnSearchHook.SearchKey | apps/web/src/hooks/use-abn-search.ts:7-10 | `search(q)` is `['abn','search',q]` and strictly extends `searches()` and `all` |
| AbnSearchHook.SearchKeyInjective | apps/web/src/hooks/use-abn-search.ts:10 | distinct queries give distinct keys |
| AbnSearchHook.Enabled | apps/web/src/hooks/use-abn-search.ts:21 | a query is enabled iff `enabled` is not explicitly false and the query has a non-whitespace character; an all-whitespace query is never enabled |
| AbnSearchHook.ShouldRetry | apps/web/src/hooks/use-abn-search.ts:22-27 | never a retry for 400–499; a retry only while the failure count is below 1 |
| AbnSearchHook.RetryWithinBudget | apps/web/src/hooks/use-abn-search.ts:22-27 | a retry is allowed iff the failure count is below the budget: 0 for 4xx, 1 otherwise |
| AbnSearchHook.RetryMonotone | apps/web/src/hooks/use-abn-search.ts:22-27 | once the retry rule says no, it says no for every larger failure count |
| AbnSearchHook.UseAbnSearch | apps/web/src/hooks/use-abn-search.ts:17-28 | the key and the fetch use the query as given; only `enabled` trims |
| AbnSearchHook.UntrimmedKeyDiffers | apps/web/src/hooks/use-abn-search.ts:19-21 | a query with surrounding whitespace has a different key from its trimmed form |
| SearchBar.SubmitButtonFor | apps/web/src/components/search/search-bar.tsx:71-73 | the button is disabled iff loading, and reads 'Searching...' when loading, 'Search' otherwise |
| SearchBar.DisabledIffSearching | apps/web/src/components/search/search-bar.tsx:71-73 | the button is disabled exactly when it reads 'Searching...' |
| SearchBar.SearchBar.constructor | apps/web/src/components/search/search-bar.tsx:10-17 | the query starts at `defaultValue` (default ''), unfocused, with the default placeholder unless one is given |
| SearchBar.SearchBar.SetQuery | apps/web/src/components/search/search-bar.tsx:61 | a change replaces the query and leaves the focus alone |
| SearchBar.SearchBar.Focus | apps/web/src/components/search/search-bar.tsx:62 | focus sets `isFocused` and leaves the query alone |
| SearchBar.SearchBar.Blur | apps/web/src/components/search/search-bar.tsx:63 | blur clears `isFocused` and leaves the query alone |
| SearchBar.SearchBar.HandleSubmit | apps/web/src/components/search/search-bar.tsx:19-24 | `onSearch` is called iff the query has a non-whitespace character, with `trim(query)`, which has no whitespace at either end and trims to itself |
| SearchInterface.RenderPage | apps/web/src/components/search/search-interface.tsx:26-55 | the region is shown iff a query was submitted; loading iff `isLoading`; the error view iff `isError` and an error value, retrying by `refetch`; the list iff not loading, not in error and data present |
| SearchInterface.ListExcludesLoadingAndError | apps/web/src/components/search/search-interface.tsx:42-53 | the results list never renders with the loading or the error branch |
| SearchInterface.BranchesNotExclusive | apps/web/src/components/search/search-interface.tsx:42-53 | the guards alone let loading and error render together when both flags are set, and no flag with no data renders nothing |
| SearchInterface.ReportedBranchesExclusive | apps/web/src/components/search/search-interface.tsx:42-53 | when loading and error are not reported together, as React Query guarantees, at most one of the three branches renders |
| SearchInterface.CountIgnored | apps/web/src/components/search/search-interface.tsx:48-53 | the response's `count` plays no part in the page |
| SearchInterface.SearchInterfaceState.constructor | apps/web/src/components/search/search-interface.tsx:17 | `submittedQuery` starts as '' |
| SearchInterface.SearchInterfaceState.HandleSearch | apps/web/src/components/search/search-interface.tsx:22-24 | `handleSearch` sets the submitted query to exactly its argument |
| SearchInterface.SearchInterfaceState.HookCall | apps/web/src/components/search/search-interface.tsx:19-20 | the key and the fetch use the submitted query unchanged, and the query runs exactly when it has a non-whitespace character |
| SearchInterface.SearchInterfaceState.SubmitFrom | apps/web/src/components/search/search-interface.tsx:22-32 | a submit from the bar with a non-whitespace character stores the trimmed query, enables the hook and keys it by the trimmed text; a blank submit changes nothing |
| SearchResultCard.LeftmostRunFrom | apps/web/src/components/search/search-result-card.tsx:49-52 | the position found is a run of 11 ASCII digits with none earlier, and None means there is no run |
| SearchResultCard.Grouped | apps/web/src/components/search/search-result-card.tsx:49-52 | `'$1 $2 $3 $4'` has 14 characters with spaces at 2, 6 and 10 |
| SearchResultCard.FormatAbn | apps/web/src/components/search/search-result-card.tsx:49-52 | a string with no run of 11 digits is shown unchanged; otherwise the display is 3 characters longer |
| SearchResultCard.FormatAt | apps/web/src/components/search/search-result-card.tsx:49-52 | the display is the ABN with its leftmost run regrouped in place |
| SearchResultCard.OnlyLeftmostRunRegrouped | apps/web/src/components/search/search-result-card.tsx:49-52 | text before the leftmost run and everything after it, later runs included, is shown as is |
| SearchResultCard.FormatElevenDigits | apps/web/src/components/search/search-result-card.tsx:49-52 | an 11-digit ABN is shown as `DD DDD DDD DDD` |
| SearchResultCard.FormatExample | apps/web/src/components/search/search-result-card.tsx:49-52 | `51824753556` is shown as `51 824 753 556` |
| SearchResultCard.RemoveSpaces | apps/web/src/components/search/search-result-card.tsx:49-52 | removing spaces leaves no space and keeps a space-free string |
| SearchResultCard.GroupedRoundTrip | apps/web/src/components/search/search-result-card.tsx:49-52 | removing the spaces from the grouping of 11 space-free characters gives them back |
| SearchResultCard.RoundTripAt | apps/web/src/components/search/search-result-card.tsx:49-52 | the same round trip holds for a run anywhere in a space-free string |
| SearchResultCard.FormatRoundTrip | apps/web/src/components/search/search-result-card.tsx:49-52 | removing the spaces from the display of a space-free ABN gives the ABN back |
| SearchResultCard.StatusBadge | apps/web/src/components/search/search-result-card.tsx:27-40 | status 'Active' gets the check icon and green; every other status gets the cross and destructive; the label is the status |
| SearchResultCard.GstBadge | apps/web/src/components/search/search-result-card.tsx:91-111 | 'GST Registered' with a green check iff registered, otherwise 'Not registered for GST', muted |
| SearchResultCard.LocationLine | apps/web/src/components/search/search-result-card.tsx:81-88 | the location line splits into the state, one space, and the postcode |
| SearchResultCard.RenderCard | apps/web/src/components/search/search-result-card.tsx:14-111 | the card is keyed by the ABN and shows the name, the grouped ABN, the status badge and the entity type; a location iff an address; a GST line iff `gst` |
| SearchResults.Noun | apps/web/src/components/search/search-results.tsx:21 | 'result' iff exactly one, 'results' otherwise |
| SearchResults.CardsFor | apps/web/src/components/search/search-results.tsx:25-27 | exactly one card per entity, in response order |
| SearchResults.RenderResults | apps/web/src/components/search/search-results.tsx:12-30 | the empty state iff there are no results; otherwise a header with the count, noun and query, and one card per entity in order |
| SearchResults.HeaderCountsCards | apps/web/src/components/search/search-results.tsx:19-22 | the header counts the cards listed and says 'result' for exactly one |

Definitions without a row of their own, with the rows that state their properties:

- `Xml.FindAll` (`findall`) and `Xml.Get` (`get`), used at scripts/ingestion/abn_data.py:124-258: `FindAll` is `WithTag` on the children, with `WithTagMembers` and `WithTagAppend`; `Get` gives an attribute or None, read into the records `RecordWithAbn` builds.
- `AbnParse.EntityTypeOf` (lines 139-146), `AbnParse.GstOf` (lines 219-226), `AbnParse.DgrEntryOf` (lines 230-245), `AbnParse.OtherNameOf` (lines 250-257) and `AbnParse.RecordWithAbn` (lines 261-277) assemble the record; `ParseRecord`, `DgrEntriesOnePerElement`, `OtherNamesFromNamedElements`, `OtherNamesAppend` and `OtherNamesNoneIffUnnamed` state what they give.
- `AbnProcess.RecordsOf` (lines 298-302) and `AbnProcess.ValidRecords` (lines 296-320) are what one element and a whole stream contribute; see `RecordsOfMembership`, `ValidRecordsAppend`, `ValidRecordsPrefix` and `ValidRecordsMembership`.
- `AbnUpload.FanOut` (lines 334-363): see `FanOutShape`, `FanOutSnoc` and `CollectBatch`.
- `AbnUpload.PlanFor` (lines 365-386), the calls of one batch: see `UpsertCalls`, `InsertCalls` and `DeleteBeforeInsert`.
- `AbnUpload.Apply` (lines 366-386), the effect of one upsert, delete or insert: see `UpsertCallsEffect`, `DeleteCallsEffect`, `InsertCallsEffect` and `BatchEffect`.
- `AbnUpload.RunFrom` (lines 365-392): see `ExecuteBatch`, `RunFromSucceedsIff` and `RunFromOnlyConsults`.
- `AbnUpload.Batches` (lines 329-330): see `BatchesShape` and `BatchesAreSlices`.
- `AbnUpload.RunBatches` and `AbnUpload.Upload` (lines 323-399): see `RunBatchesSucceedsIff`, `UploadSucceedsIffAllOk`, `NoBatchAfterFailure`, `RunBatchesKeys` and `UploadToSupabase`.

## Left out

- File and network I/O of the ingestion script: `download_file`, `extract_zip`, `setup_directories`, `cleanup_directory`, `main` and `validate_environment`. They are outside the normalise-and-batch core.
- `print` logging and the float progress percentage of the download. They are output only.
- `ET.iterparse` and `elem.clear()`: the stream is given as the sequence of elements whose end events it reports. Memory release does not change what is returned.
- An XML syntax error in the middle of a file raises inside `iterparse`, and `process_xml_file` then returns the records gathered so far. The model takes a well-formed stream. A truncated file corresponds to a prefix of its stream, for which `AbnProcess.ValidRecordsPrefix` applies.
- The `except` branch of `parse_xml_record` (lines 279-283) is not modelled: no operation in the modelled body raises on an element.
- `create_client` and the Supabase service. The tables are a value and each call's outcome is an oracle.
- The outer `except` of `upload_to_supabase` covers `create_client` failures. The model covers only its `range()` step-0 case.
- WithTag: its own contract states only that the result has the tag and is no longer than the children; completeness and document order are stated by `Xml.WithTagMembers` and `Xml.WithTagAppend`, to keep the recursive function's own proof small.
- OtherNames: its own contract bounds only the length; the contents and their order are stated by `AbnParse.OtherNamesAppend`, `AbnParse.OtherNamesFromNamedElements` and `AbnParse.OtherNamesEmptyIffUnnamed`.
- AbnUpload.Upsert: PostgreSQL rejects a single upsert that names the same ABN twice. That rejection is left to the oracle, and the model lets the last row win.
- The transactional behaviour of the service: a failing call leaves the earlier calls of the batch applied, as the code does not roll back.
- React Query's caching, deduplication, staleness and retry scheduling. `useABNSearch` only configures these; the model states the configuration it hands over.
- The API client `searchABN` / `APIException` (`@/lib/api-client`) is not part of this model. Its error is the `ApiError` value with an integer `statusCode`.
- `toLocaleDateString`: the card keeps the registration date as given, because locale formatting belongs to the browser.
- `console.log(data)` in `SearchInterface`. It is output only.
- Styling, animation and the focus glow of `SearchBar`, and the static hero, info-badge, loading, error and empty-state components. They are presentation.
- JavaScript strings are modelled as sequences of Unicode scalar values (Dafny's `char`), not of UTF-16 code units. Code-unit lengths and lone surrogates are not modelled. Lengths are only compared with 0, and every white-space class lies in the Basic Multilingual Plane, so no modelled result depends on it.
- React Query's own `status` field is not modelled: `QueryState` takes `isLoading` and `isError` as independent flags, and `SearchInterface.Reported` states the exclusion React Query guarantees.
- AbnUpload.RunBatches and AbnUpload.Upload take the per-batch call list as a parameter. `UploadToSupabase` and `UploadedAbnsPresent` instantiate it with `PlanFor`, the calls `upload_to_supabase` issues.
