# radar-dev in Dafny

radar-dev is a small CRUD application where people share job compensation
anonymously: company, position, monthly salary, free-text comments and benefits, and
the technologies of the job. This project models its core in Dafny, over in-memory
tables. The core is:

- the Encore backend endpoints that list submissions, search technologies, create a
  technology and create a submission;
- the browser-side data layer that talks to the hosted Postgres (Supabase) directly;
- the client state machines around them: the technology picker, the filter
  draft/apply/clear logic, the submission forms and the currency input.

The database is a `Store.Db` value: three sequences of rows (`submissions`,
`technologies` and the bridge table `submission_technologies`) and an id counter.
`Store.WellFormed` states the schema constraints: unique primary keys, bridge rows
referencing existing rows, and no repeated bridge row. A SQL query becomes a filter,
a stable sort and a window over those sequences. A store operation is a function from
the old store to `(new store, Result)`. A transaction that rolls back returns the old
store unchanged.

Modules, one per concern:

- `Common`: `Option`, `Result` and integer helpers.
- `Seqs`: filter, stable insertion sort, LIMIT/OFFSET windows and paging.
- `Text`: ASCII lower-casing, substring search, JavaScript `trim`, digit strings,
  code-point order.
- `Store`: the tables, the schema invariant, hydration of a row with its technologies.
- `Listing`: `GET /submissions` (backend/submissions/list.ts).
- `TechSearch`: `GET /technologies/search`.
- `TechCreate`: `POST /technologies`.
- `SubmissionCreate`: `POST /submissions`.
- `ClientQueries`: frontend/hooks/useSubmissionts.ts. It covers row mapping, the
  two-step submission insert, the paginated submission and technology queries, and
  the technology insert.
- `TechPicker`: the technology select and filter components.
- `Filters`: the filters context and the list page's filter state and pagination.
- `SubmissionForm`: both submission forms.
- `Currency`: src/components/ui/currency-input.tsx.

## Model

| member | source | states |
|---|---|---|
| Common.CeilDiv | backend/submissions/list.ts:118 | `Math.ceil(n / d)`: the least q with q·d ≥ n; it is 0 exactly when n is 0 |
| Seqs.Filter | backend/submissions/list.ts:46 | the kept rows are exactly the rows satisfying the predicate, in order, each with its original multiplicity |
| Seqs.Sort | backend/submissions/list.ts:58 | the result is ordered by the comparator and is a permutation of the input |
| Seqs.Window | backend/submissions/list.ts:59-61 | `LIMIT count OFFSET start`: the result has min(count, len − start) rows (none past the end), and row i is input row start + i |
| Seqs.PagesArePrefix | backend/submissions/list.ts:59-61 | the first n windows of size k, concatenated, are the first min(n·k, len) rows |
| Seqs.ConcatOfPages | backend/submissions/list.ts:59-61 | when the k-th piece is the k-th window mapped through f, the first n pieces concatenated are the first n windows mapped through f |
| Seqs.ConcatOfWindows | backend/submissions/list.ts:59-61 | when the k-th piece is the k-th window, the first n pieces concatenated are the first n windows |
| Seqs.PagesCoverFrom | backend/submissions/list.ts:59-61 | any number of windows whose sizes reach the length covers the whole sequence |
| Seqs.PagesCoverAll | backend/submissions/list.ts:59-61 | the first ceil(len / k) windows, concatenated, give back the whole sequence |
| Text.Trim | backend/submissions/create_technology.ts:31 | `String.prototype.trim`: the result is empty exactly when every character is whitespace, and otherwise starts and ends with a non-whitespace character |
| Text.TrimIsInfix | backend/submissions/create_technology.ts:31 | `trim` keeps one contiguous slice of the string and removes only whitespace on either side of it |
| Text.TrimIdempotent | backend/submissions/create_technology.ts:31 | trimming twice is trimming once |
| Text.LowerIdempotent | backend/submissions/search_technologies.ts:18 | lower-casing twice is lower-casing once |
| Text.DigitsOf | src/components/ui/currency-input.tsx:31 | `replace(/\D/g, "")`: the result consists of digits only and is no longer than the input |
| Text.DigitsOfAppend | src/components/ui/currency-input.tsx:31 | stripping non-digits distributes over concatenation |
| Text.DecimalValueAppend | src/components/ui/currency-input.tsx:32 | the decimal value of a + b is value(a)·10^len(b) + value(b) |
| Text.LexTotal | backend/submissions/search_technologies.ts:22 | code-point string order is total |
| Text.LexTransitive | backend/submissions/search_technologies.ts:22 | code-point string order is transitive |
| Text.LexAntisymmetric | backend/submissions/search_technologies.ts:22 | code-point string order is antisymmetric |
| Store.FindTechnology | backend/submissions/list.ts:82 | the join on `technologies.id` finds a row exactly when one with that id exists; with unique ids, it finds that row |
| Store.LinkedTechnologies | backend/submissions/list.ts:79-85 | a submission's technologies are stored ones it has a bridge row to, and with unique ids every such technology is there |
| Store.Truthy | backend/submissions/list.ts:112-113 | a nullable text made falsy-or-absent: absent exactly when NULL or empty, otherwise unchanged |
| Store.IdsOf | src/components/SubmissionForm.tsx:49 | `map((t) => t.id)`: same length, the i-th id is the i-th technology's |
| Store.ByNameTotalPreorder | backend/submissions/list.ts:84 | `ORDER BY t.name` is a total preorder, so sorting by it is defined |
| Store.TechnologiesOf | backend/submissions/list.ts:79-103 | a submission's technologies are ordered by name and are a permutation of its linked technologies |
| Store.Hydrate | backend/submissions/list.ts:106-116 | the response object of one row: id, company, link, position, salary and date are the row's; NULL or empty comments/benefits become absent and a present one is kept; the technologies are the linked ones, as a permutation sorted by name |
| Store.HydrateFaithful | backend/submissions/list.ts:106-116 | a returned submission carries exactly its linked technologies, by name, and none without bridge rows; NULL or empty comments/benefits become absent and other values are kept; every other field is the row's |
| Listing.HydrateAll | backend/submissions/list.ts:106-116 | one returned submission per row, in row order, the i-th being the i-th row hydrated |
| Listing.PageOf | backend/submissions/list.ts:9 | 1 when the page is absent or 0, the given page otherwise |
| Listing.Matches | backend/submissions/list.ts:18-46 | the WHERE clause: salary within both given bounds, the lower-cased query in company or position, and a bridge row to one of the given ids, joined with AND |
| Listing.MatchingRows | backend/submissions/list.ts:18-46 | a submission is kept exactly when it is stored and satisfies the WHERE clause |
| Listing.PerPageOf | backend/submissions/list.ts:10 | 20 when the page size is absent or 0, otherwise the given size capped at 100 |
| Listing.Offset | backend/submissions/list.ts:11 | the offset plus one page is page·perPage, and the offset is ≥ 0 for positive page and size |
| Listing.OrderedMatches | backend/submissions/list.ts:54-58 | a permutation of the rows matching every supplied condition, newest first |
| Listing.PageRows | backend/submissions/list.ts:54-61 | at most perPage stored rows, each matching every condition, newest first |
| Listing.List | backend/submissions/list.ts:8-126 | fails exactly when PostgreSQL would reject a negative LIMIT or OFFSET; otherwise page ≥ 1, 1 ≤ perPage ≤ 100 and at most perPage submissions |
| Listing.TotalPagesIsCeiling | backend/submissions/list.ts:118 | totalPages is the fewest pages holding every match, and 0 exactly when nothing matches |
| Listing.ListedSatisfyFilters | backend/submissions/list.ts:18-34 | every listed submission is within both salary bounds and has the query in its company or position, ignoring case; the page is newest first |
| Listing.ListedHaveRequestedTechnology | backend/submissions/list.ts:36-44 | with technology ids, every listed submission carries one of them |
| Listing.TotalIndependentOfPage | backend/submissions/list.ts:49-51 | the count does not depend on the page asked for |
| Listing.NoFiltersMatchAll | backend/submissions/list.ts:46 | with no condition every submission matches |
| Listing.PageIsWindow | backend/submissions/list.ts:54-61 | page n is the n-th perPage-sized window of the ordered matches |
| Listing.ListedPageIsWindow | backend/submissions/list.ts:54-116 | the submissions the endpoint returns for page k are the k-th perPage-sized window of the ordered matches, each hydrated |
| Listing.PagesThroughAreWindows | backend/submissions/list.ts:54-116 | the returned pages 1..n, concatenated, are the first n windows of the ordered matches, hydrated in order |
| Listing.PagesCoverMatches | backend/submissions/list.ts:49-61 | pages 1..totalPages list every match exactly once, newest first, and their sizes add up to the total |
| TechSearch.LimitOf | backend/submissions/search_technologies.ts:9 | 20 when the limit is absent or 0, otherwise the given limit capped at 50 |
| TechSearch.RankingTotalPreorder | backend/submissions/search_technologies.ts:19-22 | exact match first, then shorter names, then by name is a total preorder |
| TechSearch.Ranked | backend/submissions/search_technologies.ts:16-22 | every match, ordered by the ranking |
| TechSearch.TopRanked | backend/submissions/search_technologies.ts:18-23 | exactly min(limit, number of matches) rows, all of them matches of the query, in ranking order |
| TechSearch.Search | backend/submissions/search_technologies.ts:8-33 | fails only on a negative limit. Otherwise: exactly min(limit, number of matches) rows; every row is stored and contains the query ignoring case; exact matches before non-exact ones; within a class shorter names first, then by name |
| TechSearch.NoBetterMatchDropped | backend/submissions/search_technologies.ts:19-23 | the result is a best-first prefix: a match left out ranks no better than any returned one |
| TechSearch.FewMatchesAllReturned | backend/submissions/search_technologies.ts:18-23 | when the matches fit under the limit, every match is returned |
| TechSearch.ExactMatchRanksFirst | backend/submissions/search_technologies.ts:20 | if a stored name equals the query ignoring case, the first result is an exact match |
| TechCreate.CreateTechnology | backend/submissions/create_technology.ts:8-44 | fails with AlreadyExists, store unchanged, exactly when a stored name equals the untrimmed name ignoring case. Otherwise it appends one technology named `name.trim()` with a fresh id and returns it; the other tables are unchanged |
| TechCreate.CreatePreservesWellFormed | backend/submissions/create_technology.ts:30-33 | creating a technology keeps the schema constraints |
| TechCreate.TrimmedCreateKeepsNamesUnique | backend/submissions/create_technology.ts:17-31 | for an already-trimmed name, names stay unique ignoring case |
| TechCreate.CreateTwiceFails | backend/submissions/create_technology.ts:17-21 | creating the same trimmed name twice: the second call fails |
| TechCreate.UntrimmedNameDuplicates | backend/submissions/create_technology.ts:17-31 | " Go" passes the check against a stored "go" and stores "Go", breaking case-insensitive uniqueness |
| SubmissionCreate.LinksFor | backend/submissions/create.ts:37-42 | one bridge row per requested id, in request order |
| SubmissionCreate.InsertLinks | backend/submissions/create.ts:37-42 | the bridge inserts all succeed exactly when every id is a stored technology, not yet linked, and none repeats; then the rows are appended |
| SubmissionCreate.Create | backend/submissions/create.ts:10-79 | fails exactly on missing ids, a repeated id or an unknown/already-linked technology, leaving the store unchanged. Otherwise it adds one row with the request fields, the user id and NULL for falsy texts, plus its bridge rows, and returns the hydrated row |
| SubmissionCreate.CreateFailsIff | backend/submissions/create.ts:37-77 | on a well-formed store, only missing, repeated or unknown technology ids make the create fail |
| SubmissionCreate.CreatePreservesWellFormed | backend/submissions/create.ts:17-42 | a create keeps the schema constraints |
| SubmissionCreate.CreateLinksRequestedTechnologies | backend/submissions/create.ts:37-55 | on success the submission has exactly one bridge row per requested id, and its returned technologies are the requested stored ones, ordered by name |
| SubmissionCreate.ExtendedLinkedIff | backend/submissions/create.ts:37-42 | after a create, the new submission is linked to an id exactly when the request named it |
| SubmissionCreate.CreateWithDefaultIds | backend/submissions/create.ts:37 | with absent ids read as none; with ids given it is the handler itself, and a failure leaves the store unchanged (see Findings) |
| SubmissionCreate.DefaultIdsCreateSucceeds | backend/submissions/create.ts:17-55 | on a well-formed store a request without ids stores the submission, adds no bridge row and returns no technologies |
| SubmissionCreate.DefaultIdsCreateFailsIff | backend/submissions/create.ts:37-42 | on a well-formed store the corrected handler fails exactly on given ids that repeat or are unknown |
| ClientQueries.Embedded | frontend/hooks/useSubmissionts.ts:29-36 | the embedded technologies are those of the bridge rows whose join found one; none when all joins are NULL |
| ClientQueries.MapSubmissionRow | frontend/hooks/useSubmissionts.ts:28-49 | each present column passes through, a missing text becomes "" and a missing salary 0; the technologies are the embedded ones of the bridge rows, none when the bridge rows are missing; comments/benefits pass through; id and date kept |
| ClientQueries.ReadBackFaithful | frontend/hooks/useSubmissionts.ts:83-93 | reading a stored row back gives its column values (an empty comment stays "") and exactly the linked technologies the embed filter admits |
| ClientQueries.Payload | frontend/hooks/useSubmissionts.ts:54-61 | the inserted columns are the request's, with absent comments/benefits as "" |
| ClientQueries.InsertSubmission | frontend/hooks/useSubmissionts.ts:51-94 | the submission row is always appended. The bridge insert (skipped for no ids) fails exactly when some id cannot be linked, and then no bridge row is added. On success it adds one bridge row per id and returns the row read back |
| ClientQueries.InsertSucceedsIff | frontend/hooks/useSubmissionts.ts:73-81 | on a well-formed store the insert succeeds exactly when the ids are distinct stored technologies, the empty list included |
| ClientQueries.RejectedBridgeLeavesSubmission | frontend/hooks/useSubmissionts.ts:63-81 | a rejected bridge insert leaves the new submission stored with no technology, where the backend create leaves the store unchanged |
| ClientQueries.InsertAgreesWithBackend | frontend/hooks/useSubmissionts.ts:54-81 | where the backend create succeeds, the client insert stores the same bridge rows and technologies; an absent comment is "" here and NULL there |
| ClientQueries.InsertPreservesWellFormed | frontend/hooks/useSubmissionts.ts:63-81 | the client insert keeps the schema constraints whether or not the bridge rows go in |
| ClientQueries.ChooseOrder | frontend/hooks/useSubmissionts.ts:137-160 | `sortSalary` counts only without `sort`. Each option maps to its column and direction. With neither, the order is created_at descending |
| ClientQueries.PositiveOr | frontend/hooks/useSubmissionts.ts:103-104 | the given value when positive, the default otherwise; always positive |
| ClientQueries.RangeOf | frontend/hooks/useSubmissionts.ts:105-106 | from = (page − 1)·perPage ≥ 0 and to − from + 1 = perPage |
| ClientQueries.QueryText | frontend/hooks/useSubmissionts.ts:126-127 | the query applies exactly when its trimmed form is non-empty, and then it is the trimmed form |
| ClientQueries.WhereOf | frontend/hooks/useSubmissionts.ts:108-134 | the technology filter applies exactly when the id list is present and non-empty |
| ClientQueries.Selects | frontend/hooks/useSubmissionts.ts:120-134 | the filters the query builder adds, joined with AND: salary bounds, the trimmed query in company or position ignoring case, and a bridge row to one of the ids. It reads the `.or(...)` filter as intended, so it applies only when BreaksOrFilter does not hold |
| ClientQueries.BreaksOrFilterIff | frontend/hooks/useSubmissionts.ts:126-128 | the query is pasted unescaped into the `or=(…)` filter string, and that string stops reading as the two intended conditions exactly when the raw query holds a comma or a parenthesis |
| ClientQueries.DelimiterBreaksOrFilter | frontend/hooks/useSubmissionts.ts:126-128 | a comma or parenthesis anywhere in the query survives the trim and breaks the filter string |
| ClientQueries.PlainQueryKeepsOrFilter | frontend/hooks/useSubmissionts.ts:126-128 | a query without commas or parentheses leaves the filter string intact |
| ClientQueries.OutOfRange | frontend/hooks/useSubmissionts.ts:118 | the service refuses a `.range(from, to)` whose start lies past the row count |
| ClientQueries.RowOrderTotalPreorder | frontend/hooks/useSubmissionts.ts:137-160 | each requested order is a total preorder on rows |
| ClientQueries.Selected | frontend/hooks/useSubmissionts.ts:113-160 | a permutation of the stored rows the filters select, in the requested order |
| ClientQueries.TotalPages | frontend/hooks/useSubmissionts.ts:167 | `max(1, ceil(total / perPage))`: at least 1, enough pages for every row, and no empty last page beyond the first |
| ClientQueries.PageWindow | frontend/hooks/useSubmissionts.ts:105-118 | `.range(from, to)`: the perPage-row window after the page − 1 earlier pages, fewer at the end and none past it |
| ClientQueries.FetchedRows | frontend/hooks/useSubmissionts.ts:113-160 | exactly the page-th perPage-row window of the selected rows in the requested order; so at most perPage stored rows, each selected, in order |
| ClientQueries.FetchSubmissions | frontend/hooks/useSubmissionts.ts:102-170 | page and perPage are the normalised values, total counts every selected row, totalPages is `TotalPages`. It fails exactly when the query breaks the `.or(...)` filter string (`FilterSyntax`, thrown at :163) or the range starts past the total; a broken filter is reported before the range, and page 1 with an intact filter never fails |
| ClientQueries.FetchedItems | frontend/hooks/useSubmissionts.ts:162-165 | the items are the page's rows read back, at most perPage of them |
| ClientQueries.FetchedSatisfyFilters | frontend/hooks/useSubmissionts.ts:120-134 | every item is within the numeric salary bounds and has the trimmed query in company or position. With ids, it has a technology and only technologies among those ids |
| ClientQueries.FetchedInRequestedOrder | frontend/hooks/useSubmissionts.ts:137-160 | the items follow the order `ChooseOrder` picks |
| ClientQueries.FetchedTotalIgnoresPage | frontend/hooks/useSubmissionts.ts:166 | the total counts every selected row whatever page is asked for |
| ClientQueries.FetchedPageIsWindow | frontend/hooks/useSubmissionts.ts:102-165 | page k lists the k-th perPage-row window of the selected rows in the requested order, read back; a page past the end lists nothing, and every page of a query that breaks the filter string lists nothing |
| ClientQueries.FetchedPagesCoverSelected | frontend/hooks/useSubmissionts.ts:102-167 | pages 1..totalPages, concatenated, are every selected row exactly once in the requested order, read back; their sizes add up to the total |
| ClientQueries.FetchedPageSizeUncapped | frontend/hooks/useSubmissionts.ts:104 | unlike the backend, a page size of 1000 is kept: the first page succeeds exactly when the filter string is intact, and then reports 1000 |
| ClientQueries.TechMatches | frontend/hooks/useSubmissionts.ts:223-226 | the technologies whose name contains the trimmed query ignoring case; all of them without a query |
| ClientQueries.TechOrdered | frontend/hooks/useSubmissionts.ts:217-226 | a permutation of the matching technologies, ordered by name |
| ClientQueries.TechRows | frontend/hooks/useSubmissionts.ts:211-226 | exactly the page-th perPage-row window of the matching technologies ordered by name; so at most perPage stored matches, in name order |
| ClientQueries.FetchTechnologies | frontend/hooks/useSubmissionts.ts:211-241 | normalised page and perPage, the count of every match, totalPages = max(1, ceil(total / perPage)), and the items are the page-th window of the name-ordered matches; fails exactly when the range starts past the total |
| ClientQueries.MapTechnologyRows | frontend/hooks/useSubmissionts.ts:231-235 | mapping the page's rows gives them back unchanged: a stored name is never NULL |
| ClientQueries.FetchedTechnologiesMatch | frontend/hooks/useSubmissionts.ts:217-235 | every listed technology is stored and contains the trimmed query; the page is ordered by name and no longer than perPage |
| ClientQueries.FetchedTechPageIsWindow | frontend/hooks/useSubmissionts.ts:211-235 | page k lists the k-th perPage-row window of the matching technologies ordered by name; a page past the end lists nothing |
| ClientQueries.FetchedTechPagesCoverMatches | frontend/hooks/useSubmissionts.ts:211-238 | pages 1..totalPages, concatenated, are every matching technology exactly once, by name; their sizes add up to the total |
| ClientQueries.TechQueryEnabled | frontend/hooks/useSubmissionts.ts:258 | the technology query runs exactly when a non-empty search text is present, blanks included |
| ClientQueries.BlankQueryListsAll | frontend/hooks/useSubmissionts.ts:223-259 | a query of one blank enables the request but filters nothing |
| ClientQueries.InsertTechnology | frontend/hooks/useSubmissionts.ts:263-273 | the name is stored as given, with the store's next id, and nothing else changed |
| ClientQueries.InsertTechnologyPreservesWellFormed | frontend/hooks/useSubmissionts.ts:263-273 | the insert keeps the schema constraints; the new id differs from every stored technology's |
| ClientQueries.InsertTechnologyCanDuplicate | frontend/hooks/useSubmissionts.ts:264 | inserting "React" next to a stored "react" gives two names equal ignoring case |
| TechPicker.Select | frontend/components/TechStackSelect.tsx:65-74 | an already-selected id changes nothing; otherwise the technology is appended after the others, the search text cleared and the popover closed |
| TechPicker.Remove | frontend/components/TechStackSelect.tsx:76-78 | every entry with the id is gone and the others stay; search text and popover untouched |
| TechPicker.Suggestions | frontend/components/TechStackSelect.tsx:87-89 | the search results minus every selected id; none without results |
| TechPicker.ExactMatch | frontend/components/TechStackSelect.tsx:91-93 | the first suggestion equal to the untrimmed query ignoring case; none exactly when no suggestion is |
| TechPicker.ShowCreateOption | frontend/components/TechStackSelect.tsx:95 | the create option shows when the trimmed query is non-empty, no suggestion matches the untrimmed query ignoring case, and no search is running |
| TechPicker.CreateName | frontend/components/TechStackSelect.tsx:80-85 | a name is sent exactly when the query is not all blanks, and it is the trimmed query |
| TechPicker.CreateSucceeded | frontend/components/TechStackSelect.tsx:33-37 | the created technology is appended with no duplicate check; search text cleared, popover closed |
| TechPicker.SelectionStaysDistinct | frontend/components/TechStackFilter.tsx:28-41 | a selection free of repeated ids stays so under select and remove |
| TechPicker.RemoveUndoesSelect | frontend/components/TechStackFilter.tsx:34-41 | removing what was just selected restores the previous selection, order included |
| TechPicker.RemoveKeepsOrder | frontend/components/TechStackFilter.tsx:39-41 | removing from a concatenation removes from each part, so relative order is kept |
| TechPicker.SuggestionsDisjoint | frontend/components/TechStackFilter.tsx:43-45 | no suggestion has a selected id |
| TechPicker.SelectedNameOffersCreate | frontend/components/TechStackSelect.tsx:91-95 | typing the name of an already-selected technology still shows the create option |
| TechPicker.TrailingBlankOffersCreate | frontend/components/TechStackSelect.tsx:92-95 | "go " with "go" among the suggestions shows the create option, as the match uses the untrimmed text |
| TechPicker.PickerCreateKeepsNamesUnique | frontend/components/TechStackSelect.tsx:80-85 | the name the picker sends keeps stored names unique ignoring case |
| TechPicker.CreateSucceededCanRepeat | frontend/components/TechStackSelect.tsx:35 | appending a created technology can repeat an id already selected |
| Filters.Apply | src/context/FiltersContext.tsx:35-44 | the search text, salary bounds and selected ids (in order) become the applied filters, page becomes 1, drafts are kept |
| Filters.ApplyKeepsOtherFields | frontend/components/SubmissionsList.tsx:34-43 | applying keeps perPage, sort and sortSalary |
| Filters.ApplyIdempotent | src/context/FiltersContext.tsx:35-44 | applying twice with unchanged drafts equals applying once |
| Filters.ClearContext | src/context/FiltersContext.tsx:46-59 | the state the clear writes equals the initial state: page 1, 20 per page, salary 0..50000, empty search, no ids, "recent"; drafts "", 0..50000 and no technologies |
| Filters.ClearList | frontend/components/SubmissionsList.tsx:49-62 | clearing resets the drafts and applies the initial filters with `sortSalary` "desc" and no `sort` |
| Filters.SelectorValue | frontend/components/SubmissionsList.tsx:96 | the sort selector shows the chosen sort, and "recent" when none is chosen |
| Filters.ClearedListSortsBySalary | frontend/components/SubmissionsList.tsx:53-96 | after the list page's clear, the query sorts by salary descending while the selector shows "recent"; the context's clear sorts by date |
| Filters.PageChange | frontend/components/SubmissionsList.tsx:45-47 | only the page changes |
| Filters.SortChange | frontend/components/SubmissionsList.tsx:97-98 | the chosen sort is set and the page goes back to 1; nothing else changes |
| Filters.ChosenSortOverridesSalarySort | frontend/components/SubmissionsList.tsx:97-98 | once a sort is chosen, the older salary setting no longer affects the order |
| Filters.PaginationStaysInRange | frontend/components/SubmissionsList.tsx:179-197 | from a page within 1..totalPages an enabled button leads within range; with one page neither is enabled |
| Filters.ShowPagination | frontend/components/SubmissionsList.tsx:179 | the pagination bar shows only with more than one page |
| Filters.PreviousEnabled | frontend/components/SubmissionsList.tsx:183 | "previous" is disabled on page 1 only |
| Filters.NextEnabled | frontend/components/SubmissionsList.tsx:197 | "next" is disabled on the last page only |
| Filters.ReportedPagesFetch | frontend/components/SubmissionsList.tsx:182-196 | every page number up to the reported totalPages can be fetched without the range error |
| Filters.InitialFiltersCapSalary | src/context/FiltersContext.tsx:25-26 | with the initial filters every listed salary lies in 0..50000 |
| SubmissionForm.SetText | frontend/components/SubmissionForm.tsx:66-68 | a text input's change sets that field and no other |
| SubmissionForm.SetSalary | frontend/components/SubmissionForm.tsx:125 | the salary becomes the parsed number, or 0 when it does not parse; texts unchanged |
| SubmissionForm.SubmitAsWritten | src/components/SubmissionForm.tsx:30-50 | no request unless the three texts are non-empty and salary ≠ 0. Otherwise the three texts as typed, empty comments/benefits absent, the selected ids in order, and the salary unchanged as cents |
| SubmissionForm.Submit | src/components/SubmissionForm.tsx:33-50 | the same request with the typed dollars converted to cents (see Findings) |
| SubmissionForm.SubmitToBackend | frontend/components/SubmissionForm.tsx:45-64 | no request unless the required fields are filled; otherwise the form's values field by field, with empty comments/benefits absent and no technology ids |
| SubmissionForm.UnparsedSalaryBlocksSubmit | src/components/SubmissionForm.tsx:33 | a fresh form, or one whose salary text did not parse, is not submitted, in both forms |
| SubmissionForm.FilledFormSubmits | frontend/components/SubmissionForm.tsx:48-68 | filling the three texts and a non-zero salary makes the form submittable |
| SubmissionForm.BackendFormAlwaysRejected | frontend/components/SubmissionForm.tsx:57-63 | every request the backend form sends is refused for missing technology ids and leaves the store unchanged |
| SubmissionForm.BackendFormAcceptedWithDefaultIds | frontend/components/SubmissionForm.tsx:57-63 | with absent ids read as none, every request the backend form sends is stored, with no bridge row added |
| SubmissionForm.PickedTechnologiesInsert | src/components/SubmissionForm.tsx:49-52 | a picker selection of stored technologies is inserted with one bridge row per technology |
| SubmissionForm.TypedDollarsStoredAsCents | src/components/SubmissionForm.tsx:46 | a salary typed as 8500 is stored as 8500 cents, and formatted with the currency input's `formatToCurrency` that reads as 85 dollars |
| SubmissionForm.SubmitShowsTypedDollars | src/components/SubmissionForm.tsx:46 | with the conversion, formatting the stored cents with the currency input's `formatToCurrency` shows the typed dollars and "00" cents |
| Currency.ParseCurrencyToCents | src/components/ui/currency-input.tsx:29-33 | the decimal value of the input's digits, in order; 0 without digits |
| Currency.ParseIgnoresNonDigits | src/components/ui/currency-input.tsx:31 | parsing a text equals parsing its digits alone |
| Currency.ParseAppend | src/components/ui/currency-input.tsx:29-33 | a non-digit appended changes nothing; a digit shifts the amount one place and adds it |
| Currency.FirstDigits | src/components/ui/currency-input.tsx:47 | `slice(0, 8)`: a prefix of the digits, all of them when there are at most eight, otherwise exactly eight |
| Currency.CappedCents | src/components/ui/currency-input.tsx:44-49 | the value of the first eight digits of the text, which is the whole text's value when it has at most eight; so at most 99,999,999 cents |
| Currency.FormatToCurrency | src/components/ui/currency-input.tsx:18-26 | the formatted amount is empty exactly for 0 cents |
| Currency.FormatDigits | src/components/ui/currency-input.tsx:20-25 | the digits shown are the dollars in decimal followed by two cent digits |
| Currency.ParseFormatRoundTrip | src/components/ui/currency-input.tsx:18-33 | parsing the formatted amount gives back the cents |
| Currency.HandleInputChange | src/components/ui/currency-input.tsx:40-54 | at most 99,999,999 cents: with at most eight digits typed their value, with more the value of the first eight. The shown text is `formatToCurrency` of the reported cents and parses back to them |
| Currency.HandlePaste | src/components/ui/currency-input.tsx:73-82 | pasting gives what typing the same text gives |
| Currency.TypingAppendsDigit | src/components/ui/currency-input.tsx:40-54 | typing a digit after a shown amount of at most seven digits gives ten times the amount plus the digit |
| Currency.TypingAtCapKeepsAmount | src/components/ui/currency-input.tsx:46-49 | at eight digits a further digit is dropped |
| Currency.BackspaceDropsDigit | src/components/ui/currency-input.tsx:40-54 | deleting the last shown character divides the amount by ten |
| Currency.KeyFilterBlocks | src/components/ui/currency-input.tsx:56-71 | without Ctrl exactly the navigation/editing keys and the digit row pass; letters, the numeric keypad and up/down arrows are blocked |
| Currency.CtrlShortcutsAllowed | src/components/ui/currency-input.tsx:62-65 | Ctrl additionally lets exactly A, C, V and X through |
| Currency.KeyAllowed | src/components/ui/currency-input.tsx:56-71 | a key passes when it is an editing/navigation key, Ctrl with A, C, V or X, or a digit-row key |

## Left out

- SQL text, parameter numbering and the Encore/Supabase query builders are modelled by meaning only. LIKE/ILIKE wildcards in a query are matched as plain text.
- Case folding is ASCII only. `toLowerCase`, `LOWER` and `ILIKE` fold more of Unicode.
- String ORDER BY uses code-point order; a database collation may differ. Rows that tie under ORDER BY keep table order, whereas the database leaves their order unspecified.
- Ids are natural numbers handed out by the store. The client's `String(id)` / `Number(id)` round trip is the identity here.
- Timestamps are caller-supplied integers (`now`). The database's `user_id` default is the `owner` parameter of the client insert.
- React rendering, hooks, query caching and keys, toasts, navigation, loading states and the browser's own form validation (`required`, `min`) are not modelled. The `src/components/SubmissionsList.tsx` and `MobileFiltersContent.tsx` wiring is not part of this model.
- Authentication (Google token check, auth context) is not part of this model. The backend create takes the caller's user id as a parameter.
- Network and driver failures are not modelled: a query succeeds unless the model names its error.
- The "submission row not returned" and "technology row not returned" throws in the backend handlers cannot happen against the in-memory store.
- The database schema is assumed to have:
  - a foreign key from the bridge table to both tables and a primary key on (submission, technology), so an unknown or repeated id rejects a bridge insert;
  - no uniqueness constraint on technology names, so the client's technology insert always succeeds.
- A range starting past the last row fails, as the hosted service answers "range not satisfiable" then. This follows the service's documented behaviour rather than code in the repository.
- A technology-id filter in the client query also restricts the embedded technologies to those ids, as a filter on an inner-joined embedded relation does.
- Salaries are integers. The forms' `parseFloat` is modelled as an optional integer, so fractional amounts are left out. So are `parseInt` beyond 2^53 and the floating-point `cents / 100`.
- Currency.FormatToCurrency: models the en-US dollar format for whole cents (thousands separators, two decimals). Locale-dependent output is left out.
- Listing.PagesCoverMatches: "every match exactly once" rests on ties keeping table order. In PostgreSQL each page is a separate query ordered only by `created_at`, so rows with equal `created_at` can repeat or be skipped across pages. ClientQueries.FetchedPagesCoverSelected and ClientQueries.FetchedTechPagesCoverMatches rest on the same rule for their sort keys.
- ClientQueries.BreaksOrFilter: the service's filter grammar is not modelled. A query holding a comma or a parenthesis is treated as a rejected request (`FilterSyntax`). Depending on the text, the service may instead read extra conditions out of it. Other characters with meaning in that grammar, such as double quotes, are read as plain text.
- ClientQueries.FetchSubmissions: its contract states the page's metadata and when it fails. The items are stated by FetchedItems (each is the page's row read back) and FetchedPageIsWindow (the page's rows are the page-th window of the selected rows). They are kept apart because stating them in the function's own contract makes its proof too large.
- The backend and the client are modelled over one store. The backend writes the Encore database with a `salary` column (backend/submissions/create.ts:27). The client writes the hosted database with `salary_in_cents` (frontend/hooks/useSubmissionts.ts:58). Both are the one `Store.Db`, and ClientQueries.InsertAgreesWithBackend compares them on that basis.
- Listing.List: models the technology-id filter of backend/submissions/list.ts:36-44 as the handler reads it. The declared request type (backend/submissions/types.ts:21-27) has no `technologyIds`, so Encore's request decoding would not supply one and that filter is unreachable through the declared API.
- Listing.List: Encore's parameter validation is not modelled; a negative page or page size comes back as the database's error.

## Findings

| source | as written | input that shows it | evidently intended | confidence | as-written member | corrected member |
|---|---|---|---|---|---|---|
| src/components/SubmissionForm.tsx:46 | the salary box, labelled in dollars with placeholder "8500.00", is sent unchanged as `salary_in_cents` | a salary typed as 8500 is stored as 8500 cents and displayed (cents / 100) as $85.00 | multiply the typed dollars by 100 before sending. The initial salary filter (src/context/FiltersContext.tsx:26, at most 50000 cents, $500) would then hide a typed $8,500 (Filters.InitialFiltersCapSalary), so the intended unit is not settled | low, not executed | SubmissionForm.SubmitAsWritten | SubmissionForm.Submit |
| backend/submissions/create.ts:37 | the handler iterates `req.technologyIds`, a field the declared request type (backend/submissions/types.ts:12-19) does not have | any request the backend form sends: the loop over an undefined field throws and the transaction rolls back (SubmissionForm.BackendFormAlwaysRejected) | read absent ids as none and store the submission without technologies | medium, not executed | SubmissionCreate.Create | SubmissionCreate.CreateWithDefaultIds |
