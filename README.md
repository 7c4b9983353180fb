# ai-news-front: a Dafny model of the news pipeline

This project models the news pipeline of the ai-news-front web client: the
code every page load runs between the news store and the screen. It covers:

- how a stored document becomes a `NewsItem` record, with a fallback for unreadable dates;
- how the `/api/news` route picks its query (search, then domain, then date range, then all);
- the filter panel's state changes and its list of domains;
- the `useNewsFilters` hook, which filters a copy of the news and sorts it in place;
- the news list, which groups the items into sections and orders them;
- the summary card's context line and its loading, error and summary state.

The files, one module each:

- `wrappers.dfy`: `Option`.
- `text.dfy`: the JavaScript string operations the code relies on. These are:
  - `trim`, with its exact white-space set;
  - `toLowerCase`;
  - `includes`;
  - UTF-16 code-unit string order (a character above U+FFFF compares by its surrogate pair), used for `localeCompare` and the default `sort`;
  - `join`;
  - rendering a count in decimal.
- `seqs.dfy`: `Array.prototype.filter` and `map`, and de-duplication through a `Set`.
- `sorting.dfy`: `Array.prototype.sort` with a comparator, as an in-place sort of an `array`. It never loses or adds an element. It is stable. It sorts whenever the comparator is a consistent total preorder on the elements.
- `dates.dfy`: JavaScript `Date` values (a time value in milliseconds, or the invalid date) and the locale-dependent formatting and parsing calls, which are passed in as a `Locale` value.
- `firebase.dfy`: lib/firebase.ts.
- `filter_panel.dfy`: components/filter-panel.tsx.
- `news_filters.dfy`: hooks/use-news-filters.ts.
- `news_list.dfy`: components/news-list.tsx.
- `summary_panel.dfy`: components/summary-panel.tsx. It has a class for the card's three state variables.
- `news_route.dfy`: app/api/news/route.ts.

How each kind of source code is modelled:

- React state setters that take the previous state become functions from the old panel state to the new one.
- Loops and in-place updates become methods:
  - the `forEach` that builds the grouped object;
  - the in-place `sort`;
  - the `push`es into the summary context list;
  - the summary card's state updates.
- Every awaited request becomes a parameter holding what the request returns. A store query becomes a `Snapshot` (the documents, or the error raised). A summary request becomes an `Outcome`.

## Model

| member | source | states |
|---|---|---|
| Firebase.ToNewsItem | lib/firebase.ts:42-54 | The record copies the document's id, title, url and domain. Its date is the stored date when that parses, and 1970-01-01 (time value 0) otherwise. |
| Firebase.QueryNews | lib/firebase.ts:36-118 | `getAllNews` and `getNewsByDomain` (and, identically, `getNewsByDateRange`) return one converted record per document, in the store's order, or `[]` when the query throws. |
| Firebase.SearchNews | lib/firebase.ts:120-148 | `searchNews` returns `[]` when the fetch throws. Otherwise a record is in the result iff it is among the converted records and its lower-cased title or domain includes the lower-cased term. The result keeps the records' order (a subsequence). |
| Firebase.SearchIgnoresCase | lib/firebase.ts:142-143 | Searching for a term and for its lower-cased form gives the same records. |
| Firebase.SearchEmptyTermKeepsAll | lib/firebase.ts:140-144 | Searching for the empty string returns every record. |
| NewsRoute.Get | app/api/news/route.ts:7-10 | `searchParams.get`: the result is absent iff no pair has the name. Otherwise it is the value of the first pair with that name. |
| NewsRoute.SelectQuery | app/api/news/route.ts:14-24 | A non-empty `search` wins over everything. `domain` is used only when `search` is absent or empty. The date-range query runs iff neither is set and both `startDate` and `endDate` are non-empty. Otherwise all news is fetched. |
| NewsRoute.HandleGet | app/api/news/route.ts:4-31 | The status is 500, with body `{error: "Failed to fetch news"}`, exactly when the handler throws (the URL does not parse). A search answers with `searchNews`' records; every other query answers with the store's records; a failed fetch yields 200 with `[]`. |
| NewsRoute.EmptyParamIsAbsent | app/api/news/route.ts:14-18 | Two queries that agree on every non-empty parameter select the same query: an empty value counts as absent. |
| NewsRoute.OtherParamsIgnored | app/api/news/route.ts:7-10 | A parameter other than the four read, inserted at any position of the query string, does not change the query. |
| FilterPanel.ClearFilters | components/filter-panel.tsx:74-80 | Whatever the prior state, the result is the initial state: sorted by date, descending, no domain, no date range, empty calendar selection, and no active filter. |
| FilterPanel.ClearFiltersIdempotent | components/filter-panel.tsx:74-80 | Clearing twice is the same as clearing once. |
| FilterPanel.DomainChange | components/filter-panel.tsx:44-49 | "all" clears the domain; any other value sets it; nothing else in the state changes. |
| FilterPanel.DomainChangeUndone | components/filter-panel.tsx:44-49 | Choosing a domain and then "all" restores a state that had no domain. |
| FilterPanel.DateRangeChange | components/filter-panel.tsx:51-58 | The calendar keeps the picked range. The filter gets a range iff both ends were picked, and then exactly those ends. Nothing else changes. |
| FilterPanel.SortChange | components/filter-panel.tsx:60-65 | Only the sort field changes. |
| FilterPanel.SortOrderChange | components/filter-panel.tsx:67-72 | Only the sort direction changes. |
| FilterPanel.SortStrings | components/filter-panel.tsx:38 | `sort()` without a comparator returns its input rearranged (same multiset) in ascending UTF-16 code-unit order. |
| FilterPanel.SortStringsUsesCodeUnits | components/filter-panel.tsx:38 | A character above U+FFFF sorts before U+FF21, because its first code unit is a surrogate below U+E000. |
| FilterPanel.Domains | components/filter-panel.tsx:38 | The domain list is strictly ascending in UTF-16 code-unit order (each domain once, sorted), and a domain is in it iff some item has it. |
| FilterPanel.ActiveAfterDomainChange | components/filter-panel.tsx:82 | After a domain choice, `hasActiveFilters` holds iff the choice is neither "all" nor empty, or a date range was already set. |
| FilterPanel.ActiveAfterDateRangeChange | components/filter-panel.tsx:82 | After a calendar pick, `hasActiveFilters` holds iff both ends are picked, or a non-empty domain was already set. |
| NewsFilters.Filtered | hooks/use-news-filters.ts:11-30 | An item is kept, as often as it occurs in the input, iff it passes every active step. The search step is skipped when the trimmed query is empty, and otherwise uses the lower-cased, untrimmed query. The domain step compares exactly. The date step includes both bounds. The kept items stay in input order (a subsequence). |
| NewsFilters.UseNewsFilters | hooks/use-news-filters.ts:7-48 | The result is a permutation of the filtered items, and membership is exactly the conjunction of the active predicates. By date, time values are non-decreasing for "asc" and non-increasing for "desc". By domain, domains ascend in string order for "asc" and descend for "desc". The sort is stable: two items end up in the reverse of their filtered order only when the comparator puts the earlier one after the later one. The input sequence is a value and is not changed. |
| NewsFilters.OneDomainKeepsOrder | hooks/use-news-filters.ts:33-45 | Sorting by domain leaves items that all share one domain in their input order. |
| NewsFilters.ComparatorIsConsistent | hooks/use-news-filters.ts:33-45 | The hook's comparator is a total preorder in both directions and for both sort fields, so the sort is well defined. |
| NewsFilters.InactiveFiltersKeepAll | hooks/use-news-filters.ts:12-30 | With no domain, no date range and a blank search, filtering keeps the list unchanged. |
| NewsFilters.BlankSearchKeepsAll | hooks/use-news-filters.ts:12 | A search made only of white space keeps every item. |
| NewsFilters.PageSearchMatchesServerSearch | hooks/use-news-filters.ts:12-16 | For a non-blank query, the page's search step over the store's records equals the server's `searchNews`. |
| NewsList.FormatDate | components/news-list.tsx:31-45 | The invalid date reads "Unknown date"; a valid date reads as its short en-US label. |
| NewsList.FormatDateForGrouping | components/news-list.tsx:47-61 | The invalid date reads "Unknown date"; a valid date reads as its long en-US label. |
| NewsList.SectionKey | components/news-list.tsx:67-74 | The key is the domain when sorting by domain, and the grouping label of the item's date otherwise. |
| NewsList.GroupNewsBySection | components/news-list.tsx:63-83 | The forEach's result is the fold `GroupFold` of one push per item. Its keys are the distinct section keys in first-occurrence order, they are exactly the keys holding a list, and the list under a key is exactly the items with that key, in input order. |
| NewsList.GroupFoldCorrect | components/news-list.tsx:66-80 | Pushing each item in turn onto its key's list, creating the list first when it is missing, yields the keys in first-occurrence order and under each key exactly its items in input order. |
| NewsList.GroupedFacts | components/news-list.tsx:76-79 | No section is empty. Every item sits in the section of its own key. A section holds only items of the input that have its key. |
| NewsList.SectionSizesSum | components/news-list.tsx:76-79 | The section sizes add up to the number of items. |
| NewsList.SortSections | components/news-list.tsx:85-100 | The result is a permutation of the grouped keys. Domain keys ascend for "asc" and descend for "desc". Date keys that all parse back are ordered by their time, in the chosen direction. |
| NewsList.SectionComparatorIsConsistent | components/news-list.tsx:88-99 | The section comparator is a total preorder for domain keys, and for date keys that all parse. |
| NewsList.ArticleCount | components/news-list.tsx:124 | The count text is "1 article" for one item and "<n> articles" otherwise. It starts with the number in decimal and ends in "s" iff the count is not 1. |
| NewsList.ArticleCountReadsBack | components/news-list.tsx:124 | The digits in front of the count text read back as the count. |
| NewsList.RenderNewsList | components/news-list.tsx:102-130 | An empty list gives the empty state, and only an empty list does. Otherwise the sections' titles are a permutation of the section keys. Each section shows exactly its key's items in input order, is never empty, and is headed by its own count. By domain, the titles are strictly ordered in the chosen direction. |
| NewsList.StrictOrder | components/news-list.tsx:88-91 | Domain keys are all different, so ordered domain keys are strictly ordered. |
| SummaryPanel.GetSummaryContext | components/summary-panel.tsx:55-62 | With neither filter, "All news". With only a domain, "<domain> domain". With only a range, "<from> - <to>". With both, the domain part first, then " • ", then the range. The line is never empty. |
| SummaryPanel.SummaryPanel.constructor | components/summary-panel.tsx:17-19 | The card starts with no summary, not loading and no error. |
| SummaryPanel.SummaryPanel.BeginRequest | components/summary-panel.tsx:24-25 | A request starts loading and clears the error; the summary stays. |
| SummaryPanel.SummaryPanel.FinishRequest | components/summary-panel.tsx:36-47 | Loading stops in either outcome. A success replaces the summary. A failure sets the retry message and keeps the old summary. |
| SummaryPanel.SummaryPanel.GenerateSummary | components/summary-panel.tsx:21-48 | A request is made iff there is news; with none, no state changes. After a request, loading is off. A success leaves the new summary and no error. A failure leaves the old summary and the retry message. |
| SummaryPanel.SummaryPanel.ClearSummary | components/summary-panel.tsx:50-53 | Summary and error become empty and loading is untouched, so an idle card shows the "Generate Summary" prompt again. |
| Text.TrimEmptyIff | hooks/use-news-filters.ts:12 | `trim()` of a string is empty iff every character is JavaScript white space or a line terminator. |
| Text.ToLower | hooks/use-news-filters.ts:13 | Lower-casing keeps the length and maps each character on its own. |
| Text.ToLowerIdempotent | lib/firebase.ts:142 | Lower-casing twice is lower-casing once. |
| Text.ContainsIff | hooks/use-news-filters.ts:15 | `includes` holds iff the needle occurs at some position. |
| Text.CompareStringsZeroIff | hooks/use-news-filters.ts:41 | The string order says "equal" iff the strings are equal. |
| Text.CompareStringsAntisymmetric | components/news-list.tsx:90 | Swapping the arguments negates the comparison. |
| Text.CompareStringsTransitive | components/news-list.tsx:90 | The string order is transitive. |
| Text.CompareStringsIsUtf16Order | components/filter-panel.tsx:38 | Comparing two strings character by character gives the same result as comparing their UTF-16 encodings unit by unit. |
| Text.NatToStringRoundTrip | components/news-list.tsx:124 | The decimal rendering of a count reads back as that count and has no leading zero. |
| Seqs.Filter | hooks/use-news-filters.ts:14-16 | `filter` keeps each element that passes, as often as it occurs, and drops the rest, in order. |
| Seqs.Distinct | components/filter-panel.tsx:38 | De-duplication keeps exactly the same values, each once. |
| Seqs.DistinctKeepsFirstAppearance | components/filter-panel.tsx:38 | `new Set` lists the values in the order of their first appearance. |
| Sorting.SortInPlace | hooks/use-news-filters.ts:33-45 | The array is rearranged without losing or adding an element, and is sorted whenever the comparator is a consistent total preorder on its elements. The sort is stable: a record of where each element came from shows two elements swap their input order only when the comparator puts the earlier one after the later one. |
| Sorting.AllTiedKeepsOrder | hooks/use-news-filters.ts:33-45 | When the comparator calls every pair of elements equal, the stable sort leaves the sequence unchanged. |
| Dates.FromMillis | components/news-list.tsx:31-61 | `new Date(ms)` is valid iff the value is within ±8.64e15 ms, and then holds that value. |

## Left out

- lib/ai-utils.ts, app/api/summarize/route.ts and app/api/summarize-single/route.ts wrap calls to a remote language model. These are foreign calls. A summary request is represented only by its `Outcome`.
- Firestore is not modelled. This covers its `where` and `orderBy` clauses, the ordering it returns and any error it raises. Each query receives the store's answer as a `Snapshot`. As a result, `getNewsByDomain` and `getNewsByDateRange` are the same function of their answer as `getAllNews`.
- The logging (`console.log`, `console.error`) is left out.
- `toLocaleDateString` and `new Date(label)` depend on the runtime's locale and time zone. They are parameters (`Locale`) and are not interpreted.
- The system clock is not modelled. This drops the "Powered by AI" time in the summary card.
- Text.CompareStrings: `localeCompare` is modelled as UTF-16 code-unit lexicographic order, the order of the default `sort()`. Locale-aware collation is not modelled.
- Text.ToLower: only ASCII and Latin-1 capital letters are lowered. The remaining Unicode case mappings are not modelled.
- NewsList.GroupNewsBySection: `Object.keys` lists integer-like keys first, in numeric order. The model keeps first-insertion order for all keys.
- NewsList.GroupNewsBySection: `grouped` is an object literal, so it inherits the members of `Object.prototype`. A section key that names one of them ("constructor", "toString", "hasOwnProperty", "__proto__" and so on) finds a value at components/news-list.tsx:76. The `push` at line 79 then throws, and the list does not render. The model groups such a key like any other.
- Firebase.SearchNews: a stored document's fields are untyped. A title that is not a string makes `title.toLowerCase()` throw inside the `try`, and the whole search returns `[]`. A domain that is not a string throws only when that document's title does not contain the term: the two tests are joined by `||`, so when the title matches, the domain is never lower-cased and the document is kept. The model types every field as a string, so it cannot express either path. The same holds for the copies `ToNewsItem` makes.
- NewsList.SortSections: with sort by date, a key that does not parse back into a date ("Unknown date") makes the comparator return NaN, which the sort reads as 0. The order is then implementation-defined, so the model states only the permutation in that case.
- The JSX markup, styling, the React effect wiring (`onFilter`), and the presentation-only components (header, loading skeleton, search bar, summary dialog) are left out.
- Concurrency is left out: the asynchronous interleaving of overlapping requests and the `loadingId` of the news list's per-item summary button.
- URLSearchParams is modelled as a list of name/value pairs in order, and only its `get` method is used. Percent-decoding is not modelled.
- The body of the summary request (`JSON.stringify({articles: news})`) is left out, and so is its transport.
- SummaryPanel.SummaryPanel.GenerateSummary runs its request to completion. The gap between `BeginRequest` and `FinishRequest`, while the request is pending, is modelled by those two methods separately.
