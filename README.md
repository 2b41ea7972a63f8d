# Coffee catalog front-end — a verified model of its logic

The application is a small React front-end for a coffee catalog. It lists
coffees with a debounced title search, a category filter and a sort, keeps
a list of favourite coffee ids in browser storage, shows one coffee's
details, and compares two coffees property by property. Most of its source
is markup. This project models the logic underneath, in Dafny:

- the catalog query pipeline: a case-insensitive title match and an exact
  category match, then an optional sort by title or category, ascending or
  descending;
- the query-state transitions of the category select and the title-sort
  button;
- the 300 ms search debounce, on a logical clock;
- the favourites toggle, the favourites view and its labels;
- the `success ? payload : data` unwrapping of server replies, and the
  mapping from errors to messages in `useCoffeeLogic` and `CoffeeDetail`;
- the comparison page in both of its versions. The TypeScript one has a
  descriptor table and a verdict per row, and two positions that each hold
  an entry, a loading flag and an error. The JavaScript one has
  placeholder rules per field and two selection effects.

The JavaScript library behaviour the code relies on is written out in
`JsString` and `JsNumber`:

- `toLowerCase`, `includes`, `localeCompare` and `join`;
- integer printing, `parseFloat` and `parseInt`;
- `toFixed(2)` and the en-US dollar format.

Server replies, the clock and browser storage are inputs:

- a request's outcome is an argument of the step that settles it;
- time is a `nat` passed to `Tick`;
- storage is the `Storage` class, which holds the stored id list or
  nothing.

Pure parts are functions with lemmas. Handlers that update component state
are methods of a class per component, tied by their postconditions to
those functions. The `.jsx` list sorts its filtered array in place; that
sort is a method over an `array`.

Modules:

| module | models |
|---|---|
| `Wrappers`, `Http` | `Option`/`Result`; reply bodies, unwrapping, thrown errors |
| `JsString`, `JsNumber` | the string and number built-ins listed above |
| `Catalog` | the `Coffee` and loose `Record` shapes, `filter`, subsequences, the flavour and "n/10" lines |
| `CatalogQuery` | filter, comparator, stable insertion sort, the derived list, categories, query transitions |
| `Debounce` | the pending-commit timer as a state machine |
| `CoffeeListTsx`, `CoffeeListJsx` | the two list components as classes; the in-place sort |
| `Favorites`, `FavoritesList` | toggle and view; the favourites page |
| `CoffeeLogic` | `useCoffeeLogic` |
| `CoffeeDetail` | the detail page |
| `Comparison`, `ComparisonTsx`, `ComparisonJsx` | the verdict table; the two comparison pages |

Late replies are not discarded. `fetchCoffee`
(`CoffeeComparsion.tsx`, lines 65-91) and the two selection effects of
`CoffeeComparsion.jsx` (lines 11-25) store whatever settles, so the reply
that settles last wins (`FetchSettle`, `FirstArrived`/`SecondArrived`).

## Model

| member | source | states |
|---|---|---|
| Http.Unwrap | src/hooks/useCoffeeLogic.jsx:53-55 | `data.success ? data.coffee : data`. A bare body is kept. A successful envelope gives its payload, or undefined when the payload is missing. An unsuccessful envelope is kept whole. |
| JsString.ToLower | src/components/CoffeeList/CoffeeList.tsx:98 | Length is kept, and every code unit is mapped by the ASCII lower-case rule. |
| JsString.IncludesIffOccurs | src/components/CoffeeList/CoffeeList.tsx:98 | `includes` holds exactly when the needle occurs at some index; the empty needle is always included. |
| JsString.Includes | src/components/CoffeeList/CoffeeList.tsx:98 | No contract of its own; IncludesIffOccurs ties it to an occurrence at some index. |
| JsString.LocaleCompare | src/components/CoffeeList/CoffeeList.tsx:104 | The comparison result is -1, 0 or 1. |
| JsString.LocaleCompareAntisymmetric | src/components/CoffeeList/CoffeeList.tsx:104 | Swapping the operands negates the result. |
| JsString.LocaleCompareZero | src/components/CoffeeList/CoffeeList.tsx:104 | The result is zero exactly for equal strings. |
| JsString.LocaleCompareTransitive | src/components/CoffeeList/CoffeeList.tsx:104 | "Not after" is transitive. |
| JsString.JoinContainsParts | src/components/CoffeeDetail/CoffeeDetail.jsx:68 | Every part occurs in the joined string. |
| JsString.JoinShowsSeparator | src/components/CoffeeDetail/CoffeeDetail.jsx:68 | With two or more parts, the separator occurs in the joined string. |
| JsString.Join | src/components/CoffeeDetail/CoffeeDetail.jsx:68 | No contract of its own; JoinContainsParts and JoinShowsSeparator state what the joined string contains. |
| JsNumber.NatToString | src/components/CoffeeDetail/CoffeeDetail.jsx:116 | Output is non-empty decimal digits with no leading zero. |
| JsNumber.NatToStringValue | src/components/CoffeeDetail/CoffeeDetail.jsx:116 | Reading the printed digits back gives the number. |
| JsNumber.IntToString | src/components/CoffeeComparison/CoffeeComparsion.tsx:129 | There is a leading minus exactly for negative numbers, followed by digits. |
| JsNumber.TrimStart | src/components/CoffeeComparison/CoffeeComparsion.tsx:166-167 | Exactly the leading white space is dropped: the output is a suffix of the input, everything before it is white space, and it does not start with white space. |
| JsNumber.DigitPrefix | src/components/CoffeeComparison/CoffeeComparsion.tsx:166-167 | Output is the longest prefix made of digits. |
| JsNumber.ParseFloat | src/components/CoffeeComparison/CoffeeComparsion.tsx:166-167 | No contract of its own; ParseFloatOfRenderedInt and ParseFloatRejectsLeadingSymbol state what it reads and what it rejects. |
| JsNumber.ParseInt | src/components/CoffeeComparison/CoffeeComparsion.tsx:94 | No contract of its own; ParseIntOfRenderedInt states that it reads a printed integer back. |
| JsNumber.ParseFloatOfRenderedInt | src/components/CoffeeComparison/CoffeeComparsion.tsx:166-167 | `parseFloat` reads a printed integer back from the start of a string, when the next character cannot continue a number. |
| JsNumber.ParseIntOfRenderedInt | src/components/CoffeeComparison/CoffeeComparsion.tsx:94 | `parseInt` reads a printed integer back exactly. |
| JsNumber.ParseFloatRejectsLeadingSymbol | src/components/CoffeeComparison/CoffeeComparsion.tsx:165-168 | A string that starts with a symbol such as "$" or "€" is NaN to `parseFloat`. |
| JsNumber.Fixed2 | src/components/CoffeeComparison/CoffeeComparsion.jsx:165 | Output is digits, a point, then two digits. The whole part reads as `cents / 100` and the two digits as `cents % 100`. |
| JsNumber.TwoDigitsValue | src/components/CoffeeComparison/CoffeeComparsion.jsx:165 | The zero-padded two digits read back as the number. |
| JsNumber.FormatUsd | src/components/CoffeeComparison/CoffeeComparsion.tsx:141-144 | Output starts with "$" followed by a digit. |
| Catalog.Select | src/components/CoffeeList/CoffeeList.tsx:97 | `filter` keeps exactly the entries that pass, and never makes the list longer. |
| Catalog.SelectAppend | src/components/CoffeeList/CoffeeList.tsx:97 | Filtering distributes over concatenation. |
| Catalog.SelectIsSubsequence | src/components/CoffeeList/CoffeeList.tsx:97 | Filtering keeps the catalog order. |
| Catalog.SelectKeepsConforming | src/components/CoffeeList/CoffeeList.tsx:97 | A list whose entries all pass comes back unchanged. |
| Catalog.FlavorLine | src/components/CoffeeDetail/CoffeeDetail.jsx:68 | Every note shows. A single note shows alone, no notes give "", and two or more contain ", ". |
| Catalog.ScaleLine | src/components/CoffeeDetail/CoffeeDetail.jsx:116-120 | The text ends in "/10", and `parseFloat` reads n back from it. |
| CatalogQuery.Filter | src/components/CoffeeList/CoffeeList.tsx:96-100 | An entry is kept exactly when it is in the catalog and matches the term and the category. |
| CatalogQuery.Matches | src/components/CoffeeList/CoffeeList.tsx:97-99 | No contract of its own; FilterSelects spells it out against `Occurs`. |
| CatalogQuery.FilterSelects | src/components/CoffeeList/CoffeeList.tsx:96-100 | An entry is in the result iff it is in the catalog and its lower-cased title contains the lower-cased term. When a category is selected, its category must also equal it. |
| CatalogQuery.EmptyQuerySelectsAll | src/components/CoffeeList/CoffeeList.tsx:98-99 | An empty term and no category give back the whole catalog. |
| CatalogQuery.FilterAppend | src/components/CoffeeList/CoffeeList.jsx:59-66 | The filter works entry by entry. |
| CatalogQuery.FilterIsSubsequence | src/components/CoffeeList/CoffeeList.jsx:59-66 | The filtered list is in catalog order. |
| CatalogQuery.FilterKeepsConforming | src/components/CoffeeList/CoffeeList.jsx:59-66 | Entries that all match come through unchanged. |
| CatalogQuery.FilterIdempotent | src/components/CoffeeList/CoffeeList.tsx:96-100 | Filtering twice is filtering once. |
| CatalogQuery.CompareJsx | src/components/CoffeeList/CoffeeList.jsx:69-83 | `b.localeCompare(a)` for descending order equals the `.tsx` variant's `-compare`. |
| CatalogQuery.Compare | src/components/CoffeeList/CoffeeList.tsx:103-111 | No contract of its own; CompareAntisymmetric, CompareZero and CompareTransitive state its laws. |
| CatalogQuery.CompareAntisymmetric | src/components/CoffeeList/CoffeeList.tsx:103-106 | The sort comparator is antisymmetric in both directions. |
| CatalogQuery.CompareZero | src/components/CoffeeList/CoffeeList.tsx:103-106 | The comparator is zero exactly on equal keys. |
| CatalogQuery.CompareTransitive | src/components/CoffeeList/CoffeeList.tsx:103-106 | The comparator is transitive in both directions. |
| CatalogQuery.InsertPermutes | src/components/CoffeeList/CoffeeList.tsx:103 | Insertion adds exactly one element. |
| CatalogQuery.Insert | src/components/CoffeeList/CoffeeList.tsx:103-111 | One insertion step of the sort adds one element; InsertPermutes, InsertSorted and InsertStable state the rest. |
| CatalogQuery.InsertSorted | src/components/CoffeeList/CoffeeList.tsx:103 | Inserting into a sorted list keeps it sorted. |
| CatalogQuery.Sort | src/components/CoffeeList/CoffeeList.tsx:103-111 | The sorted list is a permutation of the input, ordered by the comparator. |
| CatalogQuery.InsertStable | src/components/CoffeeList/CoffeeList.tsx:103 | Insertion keeps the relative order of entries with equal keys. |
| CatalogQuery.SortStable | src/components/CoffeeList/CoffeeList.tsx:103-111 | The sort is stable: entries with equal keys keep their input order. |
| CatalogQuery.Reverse | src/components/CoffeeList/CoffeeList.tsx:105 | Position i of the result holds element n-1-i. |
| CatalogQuery.InsertReverse | src/components/CoffeeList/CoffeeList.tsx:105 | With distinct keys, descending insertion into the reversed list is the reverse of ascending insertion. |
| CatalogQuery.SortDescIsReverseOfAsc | src/components/CoffeeList/CoffeeList.tsx:102-111 | With distinct keys, the descending sort is the exact reverse of the ascending one. |
| CatalogQuery.Derive | src/components/CoffeeList/CoffeeList.tsx:96-115 | The result is a permutation of the filtered list. Under a title or category sort it is ordered by that key in the chosen direction. |
| CatalogQuery.DeriveSelects | src/components/CoffeeList/CoffeeList.tsx:96-115 | Sorting changes no membership: an entry is shown iff it matches. |
| CatalogQuery.DeriveUnsortedKeepsCatalogOrder | src/components/CoffeeList/CoffeeList.tsx:97-114 | With no sort, the result is the filtered subsequence in catalog order. |
| CatalogQuery.DeriveStable | src/components/CoffeeList/CoffeeList.tsx:102-111 | Entries with equal sort keys keep their catalog order. |
| CatalogQuery.SelectKeepsDistinctKeys | src/components/CoffeeList/CoffeeList.tsx:97 | Filtering keeps keys distinct. |
| CatalogQuery.DeriveDescIsReverseOfAsc | src/components/CoffeeList/CoffeeList.tsx:102-111 | With distinct keys, the descending list is the reverse of the ascending one, for titles and for categories. |
| CatalogQuery.Distinct | src/components/CoffeeList/CoffeeList.tsx:92 | `new Set` keeps every value once and no others. |
| CatalogQuery.FirstIndex | src/components/CoffeeList/CoffeeList.tsx:92 | The first position of a value: it holds the value, and nothing before it does. |
| CatalogQuery.DistinctFirstOccurrenceOrder | src/components/CoffeeList/CoffeeList.tsx:92 | `new Set` lists values in order of first occurrence. |
| CatalogQuery.Categories | src/components/CoffeeList/CoffeeList.tsx:91-94 | The list is "" followed by every category of the catalog, each exactly once. |
| CatalogQuery.CategoriesInFirstOccurrenceOrder | src/components/CoffeeList/CoffeeList.tsx:91-94 | The categories appear in order of first occurrence in the catalog. |
| CatalogQuery.CategoryChangeCouplesSort | src/components/CoffeeList/CoffeeList.tsx:74-81 | The category is set. The sort becomes 'category' iff the value is non-empty, else 'none'. The direction becomes 'asc'. |
| CatalogQuery.OnCategoryChange | src/components/CoffeeList/CoffeeList.tsx:74-81 | No contract of its own; CategoryChangeCouplesSort states the new query. |
| CatalogQuery.TitleToggleFlips | src/components/CoffeeList/CoffeeList.tsx:83-89 | The sort becomes 'title'. The direction becomes 'desc' iff it was title/asc. The category is kept. |
| CatalogQuery.OnTitleToggle | src/components/CoffeeList/CoffeeList.tsx:83-89 | No contract of its own; TitleToggleFlips and TitleToggleTwice state the new query. |
| CatalogQuery.TitleToggleTwice | src/components/CoffeeList/CoffeeList.tsx:83-89 | Two toggles from title/asc return to title/asc. |
| CatalogQuery.CategoryRoundTrip | src/components/CoffeeList/CoffeeList.jsx:116-120 | Choosing a category sorts by category ascending. Clearing it again shows the unsorted, unfiltered-by-category list. |
| Debounce.Mount | src/components/CoffeeList/CoffeeList.tsx:44-54 | The first render schedules a commit of "" after 300 ms. |
| Debounce.Type | src/components/CoffeeList/CoffeeList.tsx:44-61 | A changed term replaces the pending timer with one due 300 ms later for the new term. An unchanged term changes nothing. |
| Debounce.Advance | src/components/CoffeeList/CoffeeList.tsx:49-54 | A timer that is due commits its term and is gone. Otherwise nothing changes but the time. |
| Debounce.Unmount | src/components/CoffeeList/CoffeeList.tsx:56-60 | The cleanup clears the pending timer. |
| Debounce.EventsPreserveValid | src/components/CoffeeList/CoffeeList.tsx:44-61 | At most one timer is pending, it is due within 300 ms, and it carries the latest term. Every event keeps this. |
| Debounce.FireCommitsLatest | src/components/CoffeeList/CoffeeList.tsx:49-54 | When the timer fires it commits the latest search term. |
| Debounce.QuietWindowCommits | src/components/CoffeeList/CoffeeList.jsx:39-44 | 300 ms without typing commits the latest term. |
| Debounce.BurstDefersCommit | src/components/CoffeeList/CoffeeList.jsx:39-44 | While keys come faster than 300 ms apart, nothing is committed. The single pending timer carries the last term. |
| Debounce.BurstThenQuietCommitsLast | src/components/CoffeeList/CoffeeList.jsx:39-44 | A burst followed by 300 ms of quiet commits exactly the last term. |
| CoffeeListTsx.CoffeeList.constructor | src/components/CoffeeList/CoffeeList.tsx:8-16 | The initial state record. |
| CoffeeListTsx.CoffeeList.FinishLoad | src/components/CoffeeList/CoffeeList.tsx:23-42 | An ok answer sets the catalog. Loading ends in both outcomes. The query is untouched. |
| CoffeeListTsx.CoffeeList.HandleSearchChange | src/components/CoffeeList/CoffeeList.tsx:67-72 | The raw term is set and the debounce is rescheduled. The query is untouched. |
| CoffeeListTsx.CoffeeList.Tick | src/components/CoffeeList/CoffeeList.tsx:49-54 | Time passes and a due timer commits. The debounce invariant is kept. |
| CoffeeListTsx.CoffeeList.Teardown | src/components/CoffeeList/CoffeeList.tsx:56-60 | The pending timer is cleared. |
| CoffeeListTsx.CoffeeList.HandleCategoryChange | src/components/CoffeeList/CoffeeList.tsx:74-81 | The query follows the category-change rule. Both search terms are unchanged. |
| CoffeeListTsx.CoffeeList.ToggleAlphabeticalSort | src/components/CoffeeList/CoffeeList.tsx:83-89 | The query follows the title-toggle rule. |
| CoffeeListTsx.CoffeeList.CategoryOptions | src/components/CoffeeList/CoffeeList.tsx:91-94 | The options are "" and then each category exactly once. |
| CoffeeListTsx.CoffeeList.FilteredCoffees | src/components/CoffeeList/CoffeeList.tsx:96-115 | The shown list holds exactly the matching entries, as a permutation of the filtered list. With no sort it is the filtered list in catalog order; under a title or category sort it is ordered by that key in the chosen direction. |
| CoffeeListJsx.SortInPlace | src/components/CoffeeList/CoffeeList.jsx:68-84 | The in-place sort leaves the array equal to the stable sort of its old contents. |
| CoffeeListJsx.InsertInto | src/components/CoffeeList/CoffeeList.jsx:68-84 | One insertion step shifts the sorted tail and places the element where `Insert` puts it. The prefix is untouched. |
| CoffeeListJsx.InsertPosition | src/components/CoffeeList/CoffeeList.jsx:68-84 | Insertion puts the element before the first entry that is not smaller. |
| CoffeeListJsx.CoffeeList.constructor | src/components/CoffeeList/CoffeeList.jsx:12-21 | The initial state. Favourites are read from storage, or [] when none are stored. |
| CoffeeListJsx.CoffeeList.FinishLoad | src/components/CoffeeList/CoffeeList.jsx:25-37 | A resolved request sets the catalog. Loading ends in both outcomes. |
| CoffeeListJsx.CoffeeList.OnSearchInput | src/components/CoffeeList/CoffeeList.jsx:39-44 | The raw term is set and the debounce is rescheduled. |
| CoffeeListJsx.CoffeeList.Tick | src/components/CoffeeList/CoffeeList.jsx:40-42 | A due timer commits the latest term. |
| CoffeeListJsx.CoffeeList.OnCategorySelect | src/components/CoffeeList/CoffeeList.jsx:116-120 | The category is set. The sort becomes 'category' or 'none', with direction 'asc'. |
| CoffeeListJsx.CoffeeList.OnTitleClick | src/components/CoffeeList/CoffeeList.jsx:132-136 | The sort becomes 'title'. The direction flips to 'desc' only from title/asc, judged on the values of the render that was clicked. |
| CoffeeListJsx.CoffeeList.HandleToggleFavorite | src/components/CoffeeList/CoffeeList.jsx:46-55 | The new favourites are the toggle of the old ones. Storage holds the same list. |
| CoffeeListJsx.CoffeeList.FilteredCoffees | src/components/CoffeeList/CoffeeList.jsx:59-84 | The fresh array sorted in place holds the derived list. The loaded catalog is not touched. |
| CoffeeListJsx.CoffeeList.FavoritesNote | src/components/CoffeeList/CoffeeList.jsx:162 | Output is empty iff there are no favourites; otherwise it gives the number of list entries, unknown ids included. |
| Favorites.Without | src/hooks/useCoffeeLogic.jsx:40 | Every occurrence of the id is dropped, and the others are kept in order. |
| Favorites.Toggle | src/hooks/useCoffeeLogic.jsx:39-41 | Membership of the id flips, and no other id's membership changes. A present id is removed everywhere; an absent one is appended. |
| Favorites.WithoutAbsent | src/hooks/useCoffeeLogic.jsx:40 | Removing an absent id changes nothing. |
| Favorites.WithoutAppend | src/hooks/useCoffeeLogic.jsx:40 | Removal works element by element. |
| Favorites.ToggleTwiceAbsent | src/components/CoffeeList/CoffeeList.jsx:48-52 | From a list without the id, two toggles restore the list exactly. |
| Favorites.ToggleTwicePresent | src/components/CoffeeList/CoffeeList.jsx:48-52 | From a list with the id, two toggles give the same set, with the id moved to the end. |
| Favorites.ToggleCommutesOnMembership | src/hooks/useCoffeeLogic.jsx:39-44 | Toggles of two ids commute as far as membership goes. |
| Favorites.FavoriteView | src/components/FavoritesList/FavoritesList.jsx:45-47 | The view holds exactly the catalog entries whose id is a favourite, in catalog order. |
| Favorites.ViewDependsOnMembershipOnly | src/components/FavoritesList/FavoritesList.jsx:45-47 | Only the set of ids matters. |
| Favorites.UnknownIdIgnored | src/components/FavoritesList/FavoritesList.jsx:45-47 | An id with no catalog entry changes nothing. |
| Favorites.DuplicateIdIgnored | src/components/FavoritesList/FavoritesList.jsx:45-47 | A duplicated id still yields its entry once. |
| Favorites.SelectBoth | src/components/FavoritesList/FavoritesList.jsx:45-47 | Filtering by two conditions equals filtering by one then the other. |
| Favorites.ToggleOffView | src/components/FavoritesList/FavoritesList.jsx:36-47 | After toggling an id off, its entries leave the view. All other entries stay in the same order. |
| Favorites.EmptyViewIffNoKnownId | src/components/FavoritesList/FavoritesList.jsx:66 | The view is empty exactly when no favourite id has a catalog entry, however long the list is. |
| Favorites.ResultsLabel | src/components/FavoritesList/FavoritesList.jsx:78-79 | The label starts with "Showing " followed by the count, and ends in "s" exactly when the count is not 1. |
| Favorites.Storage.constructor | src/hooks/useCoffeeLogic.jsx:9 | The store holds the given value, or nothing. |
| Favorites.Storage.Save | src/hooks/useCoffeeLogic.jsx:43 | The stored value becomes the given list. |
| Favorites.InitialFavorites | src/hooks/useCoffeeLogic.jsx:8-10 | The initial list is the stored one, or [] when nothing is stored. |
| FavoritesList.FavoritesPage.constructor | src/components/FavoritesList/FavoritesList.jsx:8-10 | No favourites, no coffees, loading. |
| FavoritesList.FavoritesPage.Mount | src/components/FavoritesList/FavoritesList.jsx:13-17 | Stored favourites are loaded only when something is stored; otherwise the list stays as it was. |
| FavoritesList.FavoritesPage.CoffeesFetched | src/components/FavoritesList/FavoritesList.jsx:19-29 | An ok answer gives the catalog, and loading ends in `finally`. |
| FavoritesList.FavoritesPage.HandleToggleFavorite | src/components/FavoritesList/FavoritesList.jsx:36-43 | The state becomes the toggled list, and storage holds the same list. |
| FavoritesList.FavoritesPage.View | src/components/FavoritesList/FavoritesList.jsx:49-94 | The spinner shows iff loading. The empty state shows iff the view is empty. Otherwise the cards are the view, with the count label. |
| FavoritesList.FirstVisitIsEmpty | src/components/FavoritesList/FavoritesList.jsx:13-17 | With nothing stored, the loaded page shows the empty state. |
| FavoritesList.OneFavoriteShowsOneCard | src/components/FavoritesList/FavoritesList.jsx:36-47 | One toggled coffee shows one card, with the singular label. |
| CoffeeLogic.ListErrorMessage | src/hooks/useCoffeeLogic.jsx:27 | The message is the server's non-empty message, else "Error loading coffees". |
| Http.ServerMessage | src/hooks/useCoffeeLogic.jsx:27 | No contract of its own: `err.response?.data?.message`; ListErrorMessage and RecordErrorMessage state how it is used. |
| Http.IsNotFound | src/hooks/useCoffeeLogic.jsx:60 | No contract of its own: `err.response?.status === 404`; RecordErrorMessage and NotFoundStatusMessage state how it is used. |
| CoffeeLogic.RecordErrorMessage | src/hooks/useCoffeeLogic.jsx:59-63 | A 404 gives "Coffee not found". Otherwise the message is the server's non-empty message, else "Error loading coffee". |
| CoffeeLogic.TryRecord | src/hooks/useCoffeeLogic.jsx:51-57 | A request error is passed on. An undefined record raises the local "Coffee not found". |
| CoffeeLogic.GetCoffeeById | src/hooks/useCoffeeLogic.jsx:48-65 | The result fails iff the `try` block throws, and then it carries the re-mapped message. Otherwise it returns the record. |
| CoffeeLogic.NotFoundStatusMessage | src/hooks/useCoffeeLogic.jsx:60-61 | A 404 reads "Coffee not found". |
| CoffeeLogic.MissingRecordSurfacesAsGeneric | src/hooks/useCoffeeLogic.jsx:56-63 | The locally thrown "Coffee not found" has no response, so it surfaces as "Error loading coffee". |
| CoffeeLogic.ResolvedRecords | src/hooks/useCoffeeLogic.jsx:53-57 | A successful envelope gives its payload and a bare body itself. An unsuccessful envelope comes back whole. |
| CoffeeLogic.CoffeeStore.constructor | src/hooks/useCoffeeLogic.jsx:7-12 | The initial state. Favourites are the stored list or []. |
| CoffeeLogic.CoffeeStore.FetchCoffees | src/hooks/useCoffeeLogic.jsx:18-31 | A resolved load sets the unwrapped list; a failure sets the error message. Loading ends false in both outcomes. |
| CoffeeLogic.CoffeeStore.ToggleFavorite | src/hooks/useCoffeeLogic.jsx:37-45 | The favourites become the toggled list, and storage holds the same list. |
| CoffeeDetail.TryLoad | src/components/CoffeeDetail/CoffeeDetail.jsx:18-25 | The load succeeds iff the unwrapped record has a truthy id. Otherwise it raises "Invalid coffee data". |
| CoffeeDetail.DetailErrorMessage | src/components/CoffeeDetail/CoffeeDetail.jsx:27-31 | A 404 gives "Coffee not found". Otherwise the message is the error's message, or "Failed to load coffee" when it is empty. |
| CoffeeDetail.InvalidRecordsRejected | src/components/CoffeeDetail/CoffeeDetail.jsx:23 | A missing id or id 0 is rejected with "Invalid coffee data", whatever the envelope. |
| CoffeeDetail.DetailPage.constructor | src/components/CoffeeDetail/CoffeeDetail.jsx:9-11 | No coffee, loading, no error. |
| CoffeeDetail.DetailPage.BeginLoad | src/components/CoffeeDetail/CoffeeDetail.jsx:16-17 | Each load starts with loading on and the error cleared. |
| CoffeeDetail.DetailPage.Settle | src/components/CoffeeDetail/CoffeeDetail.jsx:18-34 | The record or the mapped error is stored, and loading always ends false. |
| CoffeeDetail.DetailPage.View | src/components/CoffeeDetail/CoffeeDetail.jsx:40-61 | The spinner shows while loading. The error view shows iff an error is set or there is no coffee; its heading is "Error" iff an error is set. |
| CoffeeDetail.LoadFresh | src/components/CoffeeDetail/CoffeeDetail.jsx:13-61 | A full load shows the details iff the reply has a record with a truthy id. Otherwise it shows "Error" with the mapped message. |
| Comparison.Display | src/components/CoffeeComparison/CoffeeComparsion.tsx:106-158 | The text fields print themselves and every flavour note shows. `parseFloat` reads acidity and body back from their print. The price starts with "$" and is NaN to `parseFloat`. Organic prints "Yes" iff organic, else "No". |
| Comparison.NumericItems | src/components/CoffeeComparison/CoffeeComparsion.tsx:106-158 | The table has nine rows, and exactly acidity, body and price are flagged numeric. |
| Comparison.Evaluate | src/components/CoffeeComparison/CoffeeComparsion.tsx:161-173 | A numeric row whose values both parse is 'higher', 'lower' or 'equal' exactly as the numbers compare. Every other row is 'equal' iff the printed strings are identical, else 'different'. |
| Comparison.EvaluateSwap | src/components/CoffeeComparison/CoffeeComparsion.tsx:161-173 | Swapping the coffees swaps 'higher' and 'lower' and keeps the other verdicts. |
| Comparison.ScaleRowsCompareNumbers | src/components/CoffeeComparison/CoffeeComparsion.tsx:127-138 | Acidity and body compare by their integers. |
| Comparison.SixOverThreeIsHigher | src/components/CoffeeComparison/CoffeeComparsion.tsx:166-169 | Acidity 6 against 3 is 'higher'. |
| Comparison.PriceComparesAsText | src/components/CoffeeComparison/CoffeeComparsion.tsx:139-147 | The "$" price never parses, so the price row is only 'equal' or 'different', by the printed strings. |
| Comparison.Verdicts | src/components/CoffeeComparison/CoffeeComparsion.tsx:266-267 | There is one verdict per descriptor, in table order. |
| Comparison.VerdictsSwap | src/components/CoffeeComparison/CoffeeComparsion.tsx:266-267 | Swapping the coffees mirrors every row. |
| Comparison.SelfComparisonIsEqual | src/components/CoffeeComparison/CoffeeComparsion.tsx:161-173 | A coffee compared with itself is 'equal' on every row. |
| ComparisonTsx.Choices | src/components/CoffeeComparison/CoffeeComparsion.tsx:54 | The selector list is each coffee's id and title, in catalog order. |
| ComparisonTsx.RequestedId | src/components/CoffeeComparison/CoffeeComparsion.tsx:94-100 | A request starts only for a non-empty value whose `parseInt` is a non-zero number. |
| ComparisonTsx.ChoosingAnOptionRequestsItsId | src/components/CoffeeComparison/CoffeeComparsion.tsx:223-228 | Choosing an option requests its coffee's id. A coffee with id 0 can never be requested. |
| ComparisonTsx.FetchError | src/components/CoffeeComparison/CoffeeComparsion.tsx:71-87 | There is no error exactly for an ok answer. A non-ok answer gives "Coffee not found" and a failed request gives its message. |
| ComparisonTsx.ComparisonPage.constructor | src/components/CoffeeComparison/CoffeeComparsion.tsx:42-45 | Both entries are null and the list is loading; there are no errors. |
| ComparisonTsx.ComparisonPage.LoadAll | src/components/CoffeeComparison/CoffeeComparsion.tsx:48-62 | An ok answer gives the list of choices. `loading.all` ends false. |
| ComparisonTsx.ComparisonPage.HandleSelect | src/components/CoffeeComparison/CoffeeComparsion.tsx:93-101 | The entry at p is cleared. A truthy id starts a request with loading on and the error cleared. The other position is untouched. |
| ComparisonTsx.ComparisonPage.FetchSettle | src/components/CoffeeComparison/CoffeeComparsion.tsx:71-90 | Only position p changes. An ok answer stores the unwrapped body; a failure sets the error. Loading ends. |
| ComparisonTsx.ComparisonPage.Reset | src/components/CoffeeComparison/CoffeeComparsion.tsx:103 | Both entries become null; loading and errors stay. |
| ComparisonTsx.ComparisonPage.View | src/components/CoffeeComparison/CoffeeComparsion.tsx:246-267 | The table exists only when both entries are truthy, and then has one verdict per descriptor in order. |
| ComparisonTsx.Shown | src/components/CoffeeComparison/CoffeeComparsion.tsx:246 | No contract of its own: an entry is truthy unless null or undefined; View states the table in terms of it. |
| ComparisonTsx.ComparisonPage.CanReset | src/components/CoffeeComparison/CoffeeComparsion.tsx:203 | No contract of its own: Reset is enabled while some entry is truthy; ResetHidesTable states that a reset disables it. |
| ComparisonTsx.ResetHidesTable | src/components/CoffeeComparison/CoffeeComparsion.tsx:103 | After a reset there is no table and the Reset button is disabled. |
| ComparisonTsx.CompareWithItself | src/components/CoffeeComparison/CoffeeComparsion.tsx:93-101 | Selecting and loading one coffee with a non-zero id in both positions gives 'equal' on every row. Id 0 starts no request, so there is no table. |
| ComparisonJsx.TextOrDash | src/components/CoffeeComparison/CoffeeComparsion.jsx:115-180 | A missing or empty string prints as "-"; any other string prints as itself. |
| ComparisonJsx.FlavorOrDash | src/components/CoffeeComparison/CoffeeComparsion.jsx:139-140 | Only a missing list prints as "-". A present list is joined with ", ", and an empty list prints as "". |
| ComparisonJsx.NumberOrDash | src/components/CoffeeComparison/CoffeeComparsion.jsx:147-156 | Only a missing number prints as "-", and `parseInt` reads any printed number back. |
| ComparisonJsx.PriceOrDash | src/components/CoffeeComparison/CoffeeComparsion.jsx:164-171 | Only a missing price prints as "-"; otherwise "€ " then `toFixed(2)`. |
| ComparisonJsx.OrganicLabel | src/components/CoffeeComparison/CoffeeComparsion.jsx:187-188 | Output is "Sì" iff organic, otherwise "No", never the placeholder. |
| ComparisonJsx.PlaceholderRulesDiffer | src/components/CoffeeComparison/CoffeeComparsion.jsx:115-148 | Logical or hides a present empty string, but `??` shows a present 0. |
| ComparisonJsx.Lines | src/components/CoffeeComparison/CoffeeComparsion.jsx:111-190 | The body has nine rows in page order. Each row has its heading, then the left record's value and the right record's value under that row's rule. |
| ComparisonJsx.Cell | src/components/CoffeeComparison/CoffeeComparsion.jsx:113-188 | Each row applies its own field's rule: logical or for the four text fields, the flavour rule, `??` for acidity and body, the price rule, and the organic label. |
| ComparisonJsx.LinesSwap | src/components/CoffeeComparison/CoffeeComparsion.jsx:111-190 | Each column depends on its own coffee only. |
| ComparisonJsx.Options | src/components/CoffeeComparison/CoffeeComparsion.jsx:48-76 | "Seleziona" comes first with value "", then every catalog entry in catalog order. |
| ComparisonJsx.OptionLooksUpItsCoffee | src/components/CoffeeComparison/CoffeeComparsion.jsx:48-53 | Choosing an entry looks up exactly its id. |
| ComparisonJsx.ComparisonPage.constructor | src/components/CoffeeComparison/CoffeeComparsion.jsx:6-9 | Both ids are empty and both coffees are null. |
| ComparisonJsx.ComparisonPage.ChooseFirst | src/components/CoffeeComparison/CoffeeComparsion.jsx:11-17 | An empty id makes coffeeA null. Any other id looks up `parseInt(id)`. The second slot is untouched. |
| ComparisonJsx.ComparisonPage.ChooseSecond | src/components/CoffeeComparison/CoffeeComparsion.jsx:19-25 | The same for the second selector and coffeeB, independently. |
| ComparisonJsx.ComparisonPage.FirstArrived | src/components/CoffeeComparison/CoffeeComparsion.jsx:13 | A found record is stored; a rejected lookup changes nothing. |
| ComparisonJsx.ComparisonPage.SecondArrived | src/components/CoffeeComparison/CoffeeComparsion.jsx:21 | The same for coffeeB. |
| ComparisonJsx.ComparisonPage.Body | src/components/CoffeeComparison/CoffeeComparsion.jsx:81 | The body is shown iff both coffees are set. |
| ComparisonJsx.ClearingHidesBody | src/components/CoffeeComparison/CoffeeComparsion.jsx:19-25 | Clearing a selector hides the body. |

## Left out

- Markup, styling, icons and routing are not modelled. This covers App, Navbar, Footer, the ad components and Home.
- CoffeeCard is not modelled. It only wires clicks and keys, and its favourite click passes `coffee.id`.
- CoffeeContext is not modelled. It only passes the hook's return value down; the type files are shapes only.
- Requests, timers and storage are not modelled as effects. Their outcomes are inputs to the steps that settle them.
- The order of several in-flight requests is not modelled: each reply is settled as its own step.
- JSON parse failures of a response body, and a `null` body, are not modelled.
- A `catch` of something that is not an `Error` is not modelled. This is the "Unknown error" branch in `CoffeeComparsion.tsx`: `fetch` only rejects with `Error` values.
- The unhandled rejection of a failed lookup in `CoffeeComparsion.jsx` is not modelled beyond "coffeeA keeps its value".
- The effects in `CoffeeComparsion.jsx` re-run when the context hands out a new `getCoffeeById`. The model runs them on id changes only.
- Acidity and body levels are whole numbers. The source types them as `number`, so a level such as 6.5 would print as "6.5/10" and compare through `parseFloat` as 6.5; the model has no such input.
- Prices are whole cents, not binary floats. `toFixed(2)` and the en-US dollar format are modelled on cents, with no rounding issues.
- `parseFloat` and `parseInt` cover white space, a sign, decimal digits and a fraction. They do not cover exponents, "Infinity" or hexadecimal prefixes.
- `localeCompare` is code-unit order, not locale collation; only its ordering laws are used by the proofs.
- `toLowerCase` maps ASCII letters only.
- The `TypeError` that `flavor.join` throws on a record without a flavour list is not modelled in the detail page. In the `.tsx` comparison, where a stored unsuccessful envelope is such a record, the model shows it as `RenderError`.
- The `.tsx` comparison types the entry as `Coffee`, but a successful envelope without `coffee` stores `undefined`. The model keeps that case, as `Undefined`.
- One `Body` type stands for both envelopes: `data.coffees` for the list and `data.coffee` for a record.
- The `value` bound to each selector is not modelled. For the `.tsx` page this is `coffees[i]?.id || ''`.
- The sort-button caption, the "Showing n of m" line and the "No coffees found" message of the list page are not modelled. They are direct renderings of the list length and the query state.
- The favourite heart in a list card is `favorites.includes(coffee.id)`. It is the predicate `CoffeeListJsx.CoffeeList.IsFavorite`, which has no contract of its own.
