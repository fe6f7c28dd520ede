# NACE-BEL 2025 code engine

A Dafny model of the data engine behind nacebel.codes. The site serves the Belgian NACE-BEL 2025 classification of economic activities.

- The engine (`lib/nacebelData.ts`) fetches one CSV file and parses it into records. Each record has a level, a dotted code, titles in four languages, normalised search forms, and a dot-free identifier.
- It builds three indexes: code to record, dot-free id to record, and parent code to child codes.
- It caches the list and the indexes in four module-level variables.
- It answers three queries:
  - a paginated listing with an optional minimum level;
  - a ranked, token-AND search;
  - a detail lookup by dot-free id that adds the child codes.

The model also covers the small pure parts around the engine:

- the list endpoint's parameter validation and dispatch;
- the five-button page window of the pagination control;
- the search client's normaliser, filter, page slice, "showing X-Y" arithmetic, CSV export and external link;
- the home page's fetch of every record, and its own copy of the parser. `Home` never calls that copy: it reads the records through the engine.

Modules:

- `CsvLine`: the row tokeniser. The `"` character only toggles an in-quotes flag; a doubled quote is not an escape.
  - The method `ParseCSVLine` is the character loop, proved equal to the scan `ParseLine`.
  - app/page.tsx:30-49 holds a token-for-token copy of the same function. `CsvLine.ParseCSVLine` models both, and the model of the home page's own parser calls it.
- `Normalize`: `cleanTextForSearch` and `cleanCodeForId`.
- `Dataset`: `parseCSV`, as a line loop (`ParseCSVText`) proved equal to the specification `ParseCSV`.
  - Header lookup follows `findIndex`. A missing column has index -1, so `values[-1]` reads as `undefined`.
- `Records`: the record shapes and `mapToPublicNacebelCode`.
- `Indexes`: the two `forEach` passes of `loadNacebelData`, as loops over maps proved equal to `IndexBy` and `ChildrenIndex`.
- `StableSorting`: a generic stable sort by a natural-number rank, with its proofs.
- `Ranking`:
  - The five-key comparator is proved to be the order of a 5-bit rank.
  - The in-place sort of the result array is an insertion sort on an `array`.
- `Queries`: the filter, match, sort and slice pipelines of the three query functions.
- `DataStore`: the module-level cache as a class. It has four `Option` fields, and `Load`, `GetPaginated`, `Search` and `GetDetails` are methods on it.
- `CodesRoute`: `GET` and `OPTIONS` of app/api/v1/nacebel-codes/2025/route.ts.
- `Pagination`: components/pagination-controls.tsx.
- `SearchClient`: the pure parts of components/nacebel-search.tsx.
- `HomePage`: app/page.tsx.
- Shared helpers: `Wrappers`, `Seqs`, `Chars`, `Strings` and `Arith`.

Inputs outside the program are parameters:

- The fetch of the CSV file is a `FetchOutcome`: a response with its `ok` flag, status and body text, or a rejection.
- The route receives what the engine yields: the loaded records, or the error loading raised.

JavaScript semantics that are written out explicitly:

- `Number.parseInt(s, 10)` (`Strings.ParseInt`): leading whitespace is skipped, an optional sign is read, then the longest digit prefix. `NaN` becomes `None`.
- `x || 0` and `x || ""` appear as explicit defaults.
- `Math.ceil(n / limit)` is `Arith.CeilDiv`.
- `Array.prototype.slice` is `Seqs.JsSlice`, including negative and clamped bounds.
- `String.prototype.substring` clamps to the string length.

## Model

| member | source | states |
|---|---|---|
| CsvLine.ParseLine | lib/nacebelData.ts:62-81 | a line always yields at least one field |
| CsvLine.FieldCount | lib/nacebelData.ts:62-81 | the number of fields is one more than the number of commas outside quotes |
| CsvLine.FieldsAreClean | lib/nacebelData.ts:70-79 | no field contains `"` and every field is trimmed |
| CsvLine.FieldsRebuildLine | lib/nacebelData.ts:67-79 | joining the untrimmed fields with commas gives back the line with its quotes removed, so no other character is lost or moved |
| CsvLine.QuotedSpan | lib/nacebelData.ts:70-77 | a quoted span without quotes is appended to the current field whole, commas included |
| CsvLine.DoubledQuoteVanishes | lib/nacebelData.ts:70-71 | a `""` anywhere in a line changes nothing in the result |
| CsvLine.ParseCSVLine | lib/nacebelData.ts:62-81 | the character loop returns `ParseLine(line)`: 1 + commas-outside-quotes fields, each quote-free and trimmed |
| Normalize.LowerAll | lib/nacebelData.ts:53 | `toLowerCase` keeps the length and lowers each character in place |
| Normalize.CleanTextForSearch | lib/nacebelData.ts:50-54 | the result is no longer than the input, is "" for "", and holds only lower-case letters, digits and whitespace |
| Normalize.CleanTextChar | lib/nacebelData.ts:53 | a single character is kept, lower-cased, exactly when it is a letter, a number or whitespace; otherwise it is dropped |
| Normalize.CleanTextConcat | lib/nacebelData.ts:53 | normalising works character by character: normalising a concatenation concatenates the normalised parts, so the kept characters stay in order |
| Normalize.CleanTextFixedPoint | lib/nacebelData.ts:53 | a text is its own normal form exactly when all its characters are lower-case letters, digits or whitespace |
| Normalize.CleanTextIdempotent | lib/nacebelData.ts:50-54 | normalising twice is normalising once |
| Normalize.CleanCodeForId | lib/nacebelData.ts:56-59 | the id has no `.` and is shorter than the code by exactly its number of dots |
| Normalize.CleanCodeForIdConcat | lib/nacebelData.ts:58 | dots are removed piecewise, so the other characters keep their order |
| Normalize.CleanCodeForIdDotFree | lib/nacebelData.ts:56-59 | a code without dots is its own id |
| Normalize.CleanCodeForIdExample | lib/nacebelData.ts:56-59 | "01.11" becomes "0111" |
| Records.MapToPublic | lib/nacebelData.ts:137-151 | level, code and titles are copied, the description is four empty strings, and child codes are present exactly when they are asked for and exist |
| Dataset.Columns.Needed | lib/nacebelData.ts:100-103 | the minimum row width exceeds every column index and is one more than the largest |
| Dataset.FindHeader | lib/nacebelData.ts:89-94 | `findIndex`: -1 or the first header that trims to the name |
| Dataset.RowsInOrder | lib/nacebelData.ts:97-133 | records follow the order of their lines: parsing two runs of lines concatenates their records, and there are never more records than lines |
| Dataset.ParseRowsAtMostOne | lib/nacebelData.ts:97-133 | there are at most as many records as data lines |
| Dataset.HeaderIsNotData | lib/nacebelData.ts:85-97 | line 0 is only the header: the records are those of the lines after the first line break |
| Dataset.BlankRowSkipped | lib/nacebelData.ts:98 | a blank or all-whitespace line gives no record |
| Dataset.ShortRowSkipped | lib/nacebelData.ts:99-103 | a line with fewer fields than the largest column index + 1 gives no record |
| Dataset.LevelOneSkipped | lib/nacebelData.ts:104-105 | a line whose level parses to 1 gives no record |
| Dataset.UnparseableLevelKept | lib/nacebelData.ts:104 | a wide enough non-blank line whose level does not parse is kept, with level 0 |
| Strings.ParseInt | lib/nacebelData.ts:104 | a blank or all-whitespace string is `NaN`, and a negative value comes only from a leading minus sign |
| Dataset.MissingLevelHeader | lib/nacebelData.ts:89-104 | without a LEVEL header no error is raised and every record gets level 0 |
| Dataset.ParsedRecordsWellDerived | lib/nacebelData.ts:113-130 | every record's search fields are the normalised code and titles, its id is the dot-free code, and its level is never 1 |
| Dataset.ReadDataLine | lib/nacebelData.ts:98-111 | one pass of the loop body keeps exactly the row the specification keeps |
| Dataset.ParseCSVText | lib/nacebelData.ts:84-134 | the line loop returns `ParseCSV(text)`, whose records are all well derived and never level 1 |
| Dataset.ParseCSV | lib/nacebelData.ts:84-134 | there are at most as many records as line breaks, and every record is well derived and never of level 1 |
| Dataset.OneDataLine | lib/nacebelData.ts:84-134 | for a header and one data line: a non-blank, wide enough line whose level is not 1 gives exactly the record built from the fields at the header's CODE, LEVEL and four title columns; any other line gives nothing |
| Indexes.IndexByKeys | lib/nacebelData.ts:182-185 | for the maps `IndexBy` builds: a key is in a map exactly when some record carries it |
| Indexes.IndexByLastWins | lib/nacebelData.ts:182-185 | for the maps `IndexBy` builds: on duplicate keys the map holds the last record with that key |
| Indexes.Prefix | lib/nacebelData.ts:195-201 | `substring(0, n)` is a prefix, of length n when the code is long enough, and the whole code otherwise |
| Indexes.ParentCode | lib/nacebelData.ts:192-202 | a parent is proposed exactly for levels 3, 4 and 5 |
| Indexes.ChildrenIndexIsChildrenOf | lib/nacebelData.ts:204-209 | in `ChildrenIndex`, a parent has an entry exactly when it has a child, and the entry is its list of children |
| Indexes.ChildrenInOrder | lib/nacebelData.ts:188-210 | child lists follow input order |
| Indexes.ChildrenAreLinked | lib/nacebelData.ts:192-208 | every listed child is a level 3-5 record whose code starts with the parent, and the parent is a non-empty code in the code map |
| Indexes.ChildOfListed | lib/nacebelData.ts:204-208 | every record linked to a parent is in that parent's list |
| Indexes.LinkedChildListed | lib/nacebelData.ts:204-208 | every record linked to a parent is in that parent's entry of the children map |
| Indexes.BuildIndexes | lib/nacebelData.ts:177-210 | the two passes build the code map, the id map and the children map of the parsed list |
| Indexes.LinkChildren | lib/nacebelData.ts:187-210 | the second pass builds exactly `ChildrenIndex` |
| StableSorting.StableSortSorted | lib/nacebelData.ts:277-324 | the sorted list is ordered by rank |
| StableSorting.StableSortPermutes | lib/nacebelData.ts:277-324 | the sorted list is a permutation of the input |
| StableSorting.StableSortIsStable | lib/nacebelData.ts:277-324 | the records of each rank keep their input order, as the stability of `Array.prototype.sort` requires |
| StableSorting.InsertPermutes | lib/nacebelData.ts:277-324 | one insertion adds exactly the inserted element |
| StableSorting.InsertSorted | lib/nacebelData.ts:277-324 | inserting into a sorted list keeps it sorted |
| StableSorting.InsertWithRank | lib/nacebelData.ts:277-324 | an insertion puts the new element after every element of its rank |
| Ranking.Rank | lib/nacebelData.ts:277-324 | the five-key ranking fits in five bits |
| Ranking.Compare | lib/nacebelData.ts:277-323 | the comparator returns -1, 0 or 1; two records with the same five keys compare equal; an exact code match comes before a record without one |
| Ranking.CompareIsRankOrder | lib/nacebelData.ts:277-323 | the comparator is negative, positive or zero exactly when one rank is below, above or equal to the other (true keys first, in the order exact code, code prefix, title prefix, code infix, title infix) |
| Ranking.ExactCodeRank | lib/nacebelData.ts:284-285 | an exact code match is exactly a rank in the lower half |
| Ranking.ExactMatchFirst | lib/nacebelData.ts:284-285 | if any record's code equals the query, the sorted list starts with such a record |
| Ranking.SortResults | lib/nacebelData.ts:277-324 | sorting the array in place leaves the stable sort of its old contents by rank |
| Ranking.InsertInPlace | lib/nacebelData.ts:277-324 | one pass of adjacent swaps inserts element i into the sorted prefix and leaves the rest alone |
| Queries.FilterLevel | lib/nacebelData.ts:235-237 | the level filter never grows the list; it is `Seqs.Filter` with the predicate `level >= minLevel` |
| Queries.FilterLevelMembers | lib/nacebelData.ts:235-237 | a record survives exactly when there is no minimum or its level reaches it |
| Queries.FilterLevelNone | lib/nacebelData.ts:235 | without a minimum level the list is unchanged |
| Queries.FilterLevelInOrder | lib/nacebelData.ts:235-237 | filtering two lists one after the other is filtering each and concatenating, and the survivors are a subsequence of the input, so order is kept |
| Queries.PublicAll | lib/nacebelData.ts:243-245 | mapping to public records keeps the count |
| Queries.PaginateShape | lib/nacebelData.ts:239-246 | `Paginate`, for a page number from 1: totalItems is the count; totalPages is its ceiling over the limit; data has max(0, min(limit, n-(page-1)*limit)) records, the slice from (page-1)*limit in order, each with empty descriptions and no children |
| Queries.PagesCoverAll | lib/nacebelData.ts:241-245 | consecutive pages put back together give the list, so every record appears on exactly one page |
| Queries.ListCodesMinLevel | lib/nacebelData.ts:235-246 | with a minimum level every listed record reaches it |
| Queries.ListCodes | lib/nacebelData.ts:227-247 | the total never exceeds the number of records, and without a minimum level it is that number |
| Queries.TokensSpec | lib/nacebelData.ts:263 | the `Tokens` of a query are non-empty and whitespace-free, each sits in the query between white space or its ends (so they are its maximal non-space runs), together spell the query without its whitespace, and there are none exactly when the query is all whitespace |
| Queries.Matching | lib/nacebelData.ts:265-274 | matching never grows the list; it is `Seqs.Filter` with the every-token predicate |
| Queries.MatchingInOrder | lib/nacebelData.ts:265-274 | matching two lists one after the other is matching each and concatenating, and the matches are a subsequence of the input, so order is kept |
| Queries.MatchingMembers | lib/nacebelData.ts:265-274 | a record matches exactly when every token is in its normalised code or in one of its normalised titles |
| Queries.NoTokensMatchAll | lib/nacebelData.ts:267 | an empty token list matches every record |
| Queries.SearchResultsSpec | lib/nacebelData.ts:262-324 | the results are a permutation of the matching records, sorted by the ranking key of the whole normalised query, with ties in input order |
| Queries.SearchResultMembers | lib/nacebelData.ts:258-274 | a record is a result exactly when it passes the level filter and matches every token |
| Queries.SearchResults | lib/nacebelData.ts:256-324 | there are never more results than records |
| Queries.ExactCodeHeadsResults | lib/nacebelData.ts:284-285 | when some result's normalised code is the normalised query, the search results start with such a record |
| Queries.TokensAreRuns | lib/nacebelData.ts:263 | each token is a run of the query bounded by white space or the query's ends |
| Queries.TokensIncluded | lib/nacebelData.ts:263-274 | every token of a query is found in the query itself |
| Queries.ExactCodeIsResult | lib/nacebelData.ts:258-274 | a record that passes the level filter and whose normalised code is the normalised query is among the search results |
| Queries.ExactCodeFirstOnPageOne | lib/nacebelData.ts:256-333 | searching for the exact code of a record that passes the level filter lists a record with that code first on page 1 |
| Queries.EmptyQueryFindsAll | lib/nacebelData.ts:262-274 | a query that normalises to whitespace finds as many records as the listing |
| Queries.SearchNacebelCodes | lib/nacebelData.ts:256-333 | the filter, match, in-place sort and slice give `SearchPage`, which is `Paginate` of `SearchResults` |
| Queries.Details | lib/nacebelData.ts:336-350 | unknown ids give nothing; a found record always carries a child list |
| Queries.DetailsOfLoaded | lib/nacebelData.ts:336-350 | on loaded indexes, the detail of an id is the last record with that id, with its level, code and titles and exactly its linked children in order |
| DataStore.FetchError | lib/nacebelData.ts:170-171 | a bad status becomes "Failed to fetch NACEBEL codes: " followed by text that parses back to that status; a rejection keeps its reason |
| DataStore.ParseAndIndex | lib/nacebelData.ts:174-210 | the body is parsed and the three maps are the indexes of the parsed list |
| DataStore.EmptyIndexes | lib/nacebelData.ts:218-221 | the empty list and the empty maps are consistent with each other |
| DataStore.NacebelStore.constructor | lib/nacebelData.ts:44-47 | all four cache variables start null |
| DataStore.NacebelStore.Load | lib/nacebelData.ts:154-224 | a loaded store is left unchanged and nothing is fetched; a good response publishes the parsed list and its maps together; a failure leaves an empty list and empty maps, so later calls never retry, and reports the error |
| DataStore.FirstListingUsesFetchedData | lib/nacebelData.ts:227-247 | a first listing on a fresh store returns the listing of the records parsed from the fetched body |
| DataStore.NacebelStore.Publish | lib/nacebelData.ts:212-215 | the four variables are set together and stay consistent |
| DataStore.NacebelStore.GetPaginated | lib/nacebelData.ts:227-247 | loads, fails exactly when this first load fails, and otherwise lists the cached records; on a first call the cache becomes the parse of a good response's body, or the empty list after a failure |
| DataStore.NacebelStore.Search | lib/nacebelData.ts:249-334 | loads, fails exactly when this first load fails, and otherwise searches the cached records; on a first call the cache becomes the parse of a good response's body, or the empty list after a failure |
| DataStore.NacebelStore.GetDetails | lib/nacebelData.ts:336-350 | loads, fails exactly when this first load fails, and otherwise looks the id up in the cached maps; on a first call the list, the id map and the children map become those built from a good response's body, or empty after a failure |
| DataStore.FailedLoadIsFinal | lib/nacebelData.ts:216-223 | after a rejected fetch, a later good fetch is ignored and the data stays empty |
| DataStore.DetailsAfterLoad | lib/nacebelData.ts:336-350 | after a good load, a detail request returns the record and its children, whatever a later fetch would yield |
| CodesRoute.OrDefault | app/api/v1/nacebel-codes/2025/route.ts:16-17 | an absent or empty parameter takes the fallback; any other value is used as is |
| CodesRoute.Validate | app/api/v1/nacebel-codes/2025/route.ts:15-38 | an accepted request has page >= 1, a limit in [1, 500], a level in [2, 5] if one is given, and a search exactly when `q` is non-empty; its page and limit are `parseInt` of the parameter (or of "1" and "100"), and its level is `parseInt` of a non-empty `level` and absent exactly when that is absent or empty |
| CodesRoute.Get | app/api/v1/nacebel-codes/2025/route.ts:12-52 | every response carries the CORS headers; the status is 200, 400 or 500; a 200 exactly when a page is returned |
| CodesRoute.Options | app/api/v1/nacebel-codes/2025/route.ts:54-56 | always 200, no body, the CORS headers |
| CodesRoute.ValidationOrder | app/api/v1/nacebel-codes/2025/route.ts:21-38 | page, then limit, then level are checked, each with its exact message, and only the first failure is reported; a 400 exactly when some check fails |
| CodesRoute.PageDefault | app/api/v1/nacebel-codes/2025/route.ts:16 | a missing or empty page means page 1 |
| CodesRoute.LimitDefault | app/api/v1/nacebel-codes/2025/route.ts:17 | a missing or empty limit means 100 |
| CodesRoute.LevelDefault | app/api/v1/nacebel-codes/2025/route.ts:18-19 | an empty level means no level filter |
| CodesRoute.SameValidation | app/api/v1/nacebel-codes/2025/route.ts:12-52 | the response depends on the parameters only through their validation |
| CodesRoute.Dispatch | app/api/v1/nacebel-codes/2025/route.ts:40-51 | a non-empty `q` is searched, anything else listed, with the same page, limit and level; an engine error is a 500 "Internal Server Error" |
| CodesRoute.PageZeroRejected | app/api/v1/nacebel-codes/2025/route.ts:21-26 | `page=0` is a 400 for the page, even when the limit is also bad |
| CodesRoute.LimitOverCapRejected | app/api/v1/nacebel-codes/2025/route.ts:27-32 | `limit=501` is a 400 for the limit |
| CodesRoute.LevelOneRejected | app/api/v1/nacebel-codes/2025/route.ts:33-38 | `level=1` is a 400 for the level |
| Pagination.PageButtons | components/pagination-controls.tsx:25 | there are min(5, totalPages) buttons |
| Pagination.Render | components/pagination-controls.tsx:12-54 | nothing is rendered exactly when totalPages <= 1; previous targets at least page 1 and is disabled exactly on page 1; next targets at most the last page and is disabled exactly on it |
| Pagination.WindowFormula | components/pagination-controls.tsx:26-30 | all pages when there are at most five; otherwise 1-5 near the start, the last five near the end, and current-2 to current+2 between |
| Pagination.WindowInvariants | components/pagination-controls.tsx:25-31 | for a current page in range, the buttons are consecutive, lie within [1, totalPages], and include the current page |
| Pagination.StepByOne | components/pagination-controls.tsx:19-48 | previous is current-1 and next is current+1 wherever there is room, and they stay put at the ends |
| SearchClient.RemovePunctuationClient | components/nacebel-search.tsx:19-22 | the client normaliser is the engine's `cleanTextForSearch` |
| SearchClient.FilterEffect | components/nacebel-search.tsx:93-115 | every re-filter resets to page 1 and never grows the list |
| SearchClient.EmptyTermKeepsAll | components/nacebel-search.tsx:97-99 | a term that normalises to "" keeps all codes unchanged |
| SearchClient.ClientFilterMembers | components/nacebel-search.tsx:100-105 | otherwise a code is kept exactly when its normalised code or its normalised title in the current language contains the whole normalised term |
| SearchClient.ClientFilterInOrder | components/nacebel-search.tsx:97-107 | the kept codes keep their order |
| SearchClient.ClientFilter | components/nacebel-search.tsx:97-107 | the filter never grows the list and keeps only codes of the list |
| SearchClient.SummaryMatchesSlice | components/nacebel-search.tsx:117-120 | for `ShowSummary` and `PageSlice`, on any page from 1 to ceil(n/100), the summary's first and last are 1-based positions, and the page shows exactly the codes between them |
| SearchClient.ShowSummary | components/nacebel-search.tsx:220 | the summary's total is the number of filtered codes and its last position never exceeds it; with no codes the first position is 0 |
| SearchClient.EmptySummary | components/nacebel-search.tsx:220 | with no codes the summary reads 0-0 and the page is empty |
| SearchClient.DoubleQuotes | components/nacebel-search.tsx:145 | doubling adds one character per quote |
| SearchClient.QuoteField | components/nacebel-search.tsx:145 | a quoted field is wrapped in quotes and two longer than the doubled title |
| SearchClient.QuoteRoundTrip | components/nacebel-search.tsx:145 | an RFC 4180 reader (section 2, item 7) gets each exported title back exactly |
| SearchClient.HeaderHasNoNewline | components/nacebel-search.tsx:141-143 | the header is one line |
| SearchClient.RowHasNoNewline | components/nacebel-search.tsx:144-146 | a code and title without line breaks give one line |
| SearchClient.ExportLines | components/nacebel-search.tsx:140-147 | the text `ExportCSV` builds is the header line followed by one line per filtered code, in order |
| SearchClient.ExternalLinkUsesId | components/nacebel-search.tsx:135-138 | the link `ExternalLink` builds embeds the language, the code with every dot removed (the detail id) and version 2025 |
| HomePage.RemovePunctuation | app/page.tsx:6-9 | the result is no longer than the input and is "" for "" |
| HomePage.RemovePunctuationChars | app/page.tsx:8 | only ASCII word characters and whitespace remain, none upper-case |
| HomePage.RemovePunctuationChar | app/page.tsx:8 | one character: a word or whitespace character becomes its lower-case form, anything else is dropped |
| HomePage.RemovePunctuationConcat | app/page.tsx:6-9 | the normaliser works character by character: normalising a concatenation concatenates the normalised parts, so kept characters keep their order |
| HomePage.SameAsEngineOnPlainAscii | app/page.tsx:6-9 | on ASCII text without `_` it agrees with the engine's normaliser |
| HomePage.PageKeepsUnderscore | app/page.tsx:8 | `_` survives |
| HomePage.EngineDropsUnderscore | lib/nacebelData.ts:53 | the engine drops `_` where the home page keeps it |
| HomePage.AccentKeptOnlyByEngine | app/page.tsx:8 | an accented letter is dropped here but kept by the engine |
| HomePage.SameRowsAsEngine | app/page.tsx:52-98 | the duplicate parser keeps the same rows in the same order as the engine, and builds no dot-free id |
| HomePage.PageParseCSVText | app/page.tsx:52-98 | its line loop, which splits each line with the shared tokeniser (the copy at app/page.tsx:30-49 is the same code), returns `PageParseCSV(text)` |
| HomePage.PageParserMatchesEngine | app/page.tsx:52-98 | for any text, record i of the duplicate parser is record i of the engine without its id, normalised by the ASCII normaliser |
| HomePage.FirstPageOfAll | app/page.tsx:116 | page 1 with limit 100000 is every record when there are at most 100000, and the first 100000 otherwise |
| HomePage.Home | app/page.tsx:112-116 | the home page fails exactly when the first load fails, and otherwise receives every record (or the first 100000) as public codes; on a first call the cache becomes the parse of a good response's body, or the empty list after a failure |
| HomePage.HomeOnFreshServer | app/page.tsx:112-116 | on a server that has loaded nothing yet, the home page receives the public form of every record parsed from the fetched body, or of the first 100000 |

## Left out

- The URL of the CSV file, `next: { revalidate: 3600 }`, and `console.error` logging. The fetch result is a parameter.
- Concurrency: two overlapping `loadNacebelData` calls are not coalesced in the source. The model treats calls as sequential.
- Unicode tables:
  - `\s` is exact.
  - `\p{L}` and `\p{N}` are exact below U+0250. Every character above counts as neither a letter nor a number.
  - `toLowerCase` lowers the upper-case letters of ASCII and Latin-1 only. Other upper-case letters, such as U+0100, are left as they are.
  - `\w` is ASCII, as in JavaScript.
- `Number.parseInt` on numbers beyond the digit prefix. Fractions, exponents and `-0` play no part here because only the integer prefix is read.
- `Ranking.SortResults`: the engine's `Array.prototype.sort` is modelled by a stable insertion sort. Any stable sort gives the same result, but the model does not capture the comparison order of the real implementation.
- `Queries.Paginate`, `Queries.ListCodes` and `Queries.SearchPage` require `limit >= 1`. The route enforces it and the home page passes 100000; `Math.ceil(n / 0)` would be `Infinity`, or `NaN` when n = 0.
- `CodesRoute.Get`: the engine call is represented by its outcome. An exception thrown anywhere else inside the `try` block is not modelled.
- `NextResponse` JSON encoding: bodies are a datatype.
- Rendering and browser side effects of components/nacebel-search.tsx:
  - language and theme cookies, `classList` toggling and `matchMedia`;
  - the clipboard, toasts, the `Blob` download link and its file name;
  - the `isClientProcessing` and `clientError` states. The filter cannot throw, so the error branch is unreachable.
- The detail route app/api/v1/nacebel-codes/2025/[id]/route.ts is not part of this model. `DataStore.NacebelStore.GetDetails` models the engine call it makes.
- The `metadata` export of app/page.tsx and the rendering in `Home`.
- UTF-16: JavaScript strings are sequences of UTF-16 code units, so a character outside the Basic Multilingual Plane counts as two units in `line[i]`, `.length` and `substring`. The model's strings are sequences of characters, where such a character counts once.
