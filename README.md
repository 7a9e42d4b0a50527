# Movie catalog view-model in Dafny

A model of the browsing logic of the catalogMovie-landing Angular application. The
application fetches a catalog of movies, lets the user search, filter and sort it,
and shows one movie at a time in a modal. The model covers four parts:

- **The list view** (`MovieList`). `filteredMovies` is a trimmed, lower-cased title
  search, a genre filter, an inclusive lower and upper year bound (each applied only
  when its value is truthy), then a stable copy-and-sort by one of six keys.
  `resultsCount`, `totalCount`, `hasNoResults` and `hasActiveFilters` sit around it.
  `MovieListComponent` is a class whose fields are the component's signals; its
  methods are the handlers that update them.
- **The filter panel** (`MovieFilters`). It holds the sort options and their
  captions. `AvailableGenres` is a loop-based method mirroring the nested `forEach`
  into a `Set`, followed by the default string sort. It also has `yearRange` and
  `MovieFiltersComponent`, a class with the four form fields, `onFilterChange`,
  `resetFilters` and the `hasActiveFilters` getter.
- **The catalog service** (`MovieService`). It covers `getMovies`, `getMovieById` and
  `searchMovies` over the outcome of the HTTP request, which is given as a
  `Result` value.
- **The modal** (`MovieModal`). It covers `formatDuration`, with JavaScript's
  truncating `%`, and the Escape and backdrop close decisions.

Supporting modules:

- `Text` holds `toLowerCase`, `trim`, `includes`, the code-unit string order and a
  stand-in for `localeCompare`.
- `Selection` holds the order-preserving, criteria-based `filter`.
- `StableSort` holds a stable sort by a comparison. It is proved to produce a sorted
  permutation that keeps ties in input order. `SortIsUnique` proves that any such
  sort yields the same sequence, so insertion sort can stand in for the engine's
  sort.
- `Wrappers` holds `Option` and `Result`.

Main results:

- **The list view.** It is proved to hold exactly the matching catalog movies, each
  as often as in the catalog. It is ordered by the chosen key, with ties in catalog
  order. An unknown key keeps the filtered order, and inactive filters keep the
  whole catalog.
- **The genre list.** It holds exactly the genres that occur in the catalog, in
  strictly ascending order, so each appears once.
- **Durations.** A rendered non-negative duration reads back as the same number of
  minutes.
- **The service.** Lookup returns the first movie with the id, or none. Search is
  complete and keeps the catalog order. Every failure becomes the one fixed message.

`MovieService` has no cache and defines no `clearCache`, although `retryLoading`
calls one; reads go straight to the fetch outcome.

## Model

| member | source | states |
|---|---|---|
| MovieList.FilteredMoviesContents | src/app/components/movie-list/movie-list.component.ts:42-86 | each movie occurs in the view exactly as often as in the catalog if it matches every active filter (query substring of the lower-cased title, genre membership, year >= yearFrom, year <= yearTo), and not at all otherwise: the view is a permutation of the matching sub-multiset |
| MovieList.FilteredMoviesSound | src/app/components/movie-list/movie-list.component.ts:44-63 | every movie shown is in the catalog and satisfies every active predicate |
| MovieList.FilterStagesCombine | src/app/components/movie-list/movie-list.component.ts:48-66 | the four conditional filter stages equal one filter by the list of switched-on criteria, followed by the sort |
| MovieList.ActiveCriteriaMeaning | src/app/components/movie-list/movie-list.component.ts:44-63 | a movie meets the switched-on criteria iff it matches each filter whose value is truthy |
| MovieList.StageAfterFilter | src/app/components/movie-list/movie-list.component.ts:48-63 | one `if (value) result = result.filter(...)` step after a filter is a single filter by the extended criteria |
| MovieList.OptionalHolds | src/app/components/movie-list/movie-list.component.ts:48-63 | a switched-off stage imposes no constraint; a switched-on one imposes exactly its predicate |
| MovieList.InactiveFiltersKeepCatalog | src/app/components/movie-list/movie-list.component.ts:44-63 | with an empty or all-whitespace query, no genre and null-or-0 year bounds, the view is the sorted catalog, the same multiset as the catalog |
| MovieList.CompareTotalPreorder | src/app/components/movie-list/movie-list.component.ts:66-83 | for every sort key, known or not, "the comparator is <= 0" is total and transitive |
| MovieList.SortMovies | src/app/components/movie-list/movie-list.component.ts:66 | the sorted copy is a permutation of its argument; the argument, a value, is unchanged |
| MovieList.SortedMeaning | src/app/components/movie-list/movie-list.component.ts:66-83 | ordered by a key's comparator means non-increasing rating (rating_desc), non-decreasing rating (rating_asc), likewise for year, and ascending or descending collation for the two title keys |
| MovieList.FilteredMoviesOrdered | src/app/components/movie-list/movie-list.component.ts:66-83 | the view is ordered by the chosen key's comparator |
| MovieList.FilteredMoviesStable | src/app/components/movie-list/movie-list.component.ts:66-83 | the filtered list is an order-preserving subsequence of the catalog, and the movies the key ties keep that order in the view |
| MovieList.UnknownSortKeepsOrder | src/app/components/movie-list/movie-list.component.ts:80-81 | a key outside the six (comparator `default: return 0`) leaves the list as it was |
| MovieList.RatingDescExample | src/app/components/movie-list/movie-list.component.ts:68-69 | with the initial filters, ratings 5 and 8 come out 8 first |
| MovieList.SortPairByRating | src/app/components/movie-list/movie-list.component.ts:68-69 | under `rating_desc` a lower-rated movie moves behind a higher-rated one |
| MovieList.ResultsCount | src/app/components/movie-list/movie-list.component.ts:92-93 | `resultsCount`, the length of the view, is at most `totalCount`, the catalog length |
| MovieList.NoResultsIffNothingMatches | src/app/components/movie-list/movie-list.component.ts:88-90 | once loaded without error, `hasNoResults` holds iff no catalog movie matches the active filters |
| MovieList.InactiveFlagShowsCatalog | src/app/components/movie-list/movie-list.component.ts:95-98 | when `hasActiveFilters` is false the view is the catalog in the default rating_desc order; the flag is false for the initial query and filters |
| MovieList.WhitespaceQueryFlaggedButInert | src/app/components/movie-list/movie-list.component.ts:44-97 | an all-whitespace query raises `hasActiveFilters` (it tests the untrimmed query) yet the view equals the one for the empty query |
| MovieList.ActiveFlagsAgree | src/app/components/movie-list/movie-list.component.ts:95-98 | the list's flag is the panel's `hasActiveFilters` or a non-empty query |
| MovieList.MovieListComponent.constructor | src/app/components/movie-list/movie-list.component.ts:32-38 | initial signals: no movies, loading, no error, empty query, no selection, initial filters, panel hidden |
| MovieList.MovieListComponent.LoadMovies | src/app/components/movie-list/movie-list.component.ts:105-119 | success replaces `movies`; failure sets `error` to the service's message and keeps `movies`; loading ends either way; nothing else changes; loading and an error are never shown together |
| MovieList.MovieListComponent.RetryLoading | src/app/components/movie-list/movie-list.component.ts:150-152 | clears the error and sets loading, nothing else changes |
| MovieList.MovieListComponent.SetSearchQuery | src/app/components/movie-list/movie-list.component.ts:124-126 | the debounced query becomes `searchQuery`; only that field changes |
| MovieList.MovieListComponent.OnFilterChange | src/app/components/movie-list/movie-list.component.ts:134-136 | the emitted state becomes `filters`; only that field changes |
| MovieList.MovieListComponent.ToggleFilters | src/app/components/movie-list/movie-list.component.ts:138-140 | `showFilters` is negated; only that field changes |
| MovieList.MovieListComponent.OpenMovieModal | src/app/components/movie-list/movie-list.component.ts:142-144 | `selectedMovie` becomes the movie; only that field changes |
| MovieList.MovieListComponent.CloseMovieModal | src/app/components/movie-list/movie-list.component.ts:146-148 | `selectedMovie` becomes null; only that field changes |
| MovieFilters.SortOptionsEachOnce | src/app/components/movie-filters/movie-filters.component.ts:5-43 | the selector lists each of the six sort options exactly once |
| MovieFilters.AvailableGenres | src/app/components/movie-filters/movie-filters.component.ts:45-51 | a genre is listed iff it occurs in some movie; the list is strictly ascending in code-unit order, so each genre appears once |
| MovieFilters.CodeUnitOrderTotalPreorder | src/app/components/movie-filters/movie-filters.component.ts:50 | the default string order of `sort()` is total and transitive |
| MovieFilters.MinYear | src/app/components/movie-filters/movie-filters.component.ts:56 | `Math.min` of the years: no movie is earlier, and some movie has that year |
| MovieFilters.MaxYear | src/app/components/movie-filters/movie-filters.component.ts:57 | `Math.max` of the years: no movie is later, and some movie has that year |
| MovieFilters.YearRange | src/app/components/movie-filters/movie-filters.component.ts:53-59 | for a non-empty catalog, min <= year <= max for every movie, and both bounds are attained |
| MovieFilters.MovieFiltersComponent.constructor | src/app/components/movie-filters/movie-filters.component.ts:31-34 | the fields start as no genre, null bounds, rating_desc |
| MovieFilters.MovieFiltersComponent.OnFilterChange | src/app/components/movie-filters/movie-filters.component.ts:61-68 | emits a state whose four fields equal the current genre, bounds and sort, changing nothing |
| MovieFilters.MovieFiltersComponent.ResetFilters | src/app/components/movie-filters/movie-filters.component.ts:70-80 | sets the fields to '', null, null, rating_desc, emits exactly that state, and `hasActiveFilters` is then false |
| MovieService.GetMovies | src/app/services/movie.service.ts:17-25 | succeeds iff the fetch did, with exactly `response.movies`; any failure becomes the one fixed message |
| MovieService.FindById | src/app/services/movie.service.ts:28 | `find` by id: none iff no movie has the id; a result is the catalog movie at the first index holding the id |
| MovieService.FindByIdIsFirst | src/app/services/movie.service.ts:28 | the movie found is the first one with the id |
| MovieService.GetMovieById | src/app/services/movie.service.ts:27-29 | fails (with the fixed message) iff the load failed; otherwise none iff no movie has the id, and a found movie is the first with that id |
| MovieService.SearchMovies | src/app/services/movie.service.ts:31-37 | fails (with the fixed message) iff the load failed; every result is a catalog movie whose lower-cased title contains the lower-cased, untrimmed query |
| MovieService.SearchMoviesComplete | src/app/services/movie.service.ts:33-35 | the result is an order-preserving subsequence of the catalog, holding each matching movie as often as the catalog does and no other |
| MovieService.SearchEmptyQuery | src/app/services/movie.service.ts:34 | the empty query returns the whole catalog, or the same failure |
| MovieModal.CloseModal | src/app/components/movie-modal/movie-modal.component.ts:27-29 | emits `close` once |
| MovieModal.OnEscapeKey | src/app/components/movie-modal/movie-modal.component.ts:22-25 | the Escape key always emits `close` once |
| MovieModal.OnBackdropClick | src/app/components/movie-modal/movie-modal.component.ts:31-35 | emits `close` iff the target's classes include `modal__backdrop`, otherwise nothing |
| MovieModal.DurationSplit | src/app/components/movie-modal/movie-modal.component.ts:38-39 | for minutes >= 0, hours * 60 + mins == minutes, 0 <= mins < 60 and hours >= 0 |
| MovieModal.NegativeDurationSplit | src/app/components/movie-modal/movie-modal.component.ts:38-39 | for a negative duration that is not a whole number of hours, floored hours and truncated minutes recompose to an hour less |
| MovieModal.Digits | src/app/components/movie-modal/movie-modal.component.ts:40 | the decimal rendering of a number: at least one digit, digits only, no leading zero; a rendering that starts with '0' is exactly "0", for the number 0 |
| MovieModal.DigitsValueOfDigits | src/app/components/movie-modal/movie-modal.component.ts:40 | the decimal rendering reads back as the number |
| MovieModal.ParseRendered | src/app/components/movie-modal/movie-modal.component.ts:40 | for any two units that do not start with a digit, digits, the hours unit, digits and the minutes unit read back as hours * 60 + minutes |
| MovieModal.FormatDurationRoundTrip | src/app/components/movie-modal/movie-modal.component.ts:37-41 | for minutes >= 0 the rendering (hours, "ч ", unpadded minutes, "мин") reads back as the same number of minutes |
| Text.LowerChar | src/app/components/movie-list/movie-list.component.ts:44 | a capital becomes a small letter that `UpperChar` maps back to it; a non-capital is unchanged; the result is never a capital |
| Text.ToLower | src/app/components/movie-list/movie-list.component.ts:44 | lower-casing keeps the length and lower-cases each character on its own |
| Text.TrimStart | src/app/components/movie-list/movie-list.component.ts:44 | a suffix of the input, not starting with whitespace, with only whitespace cut off |
| Text.TrimEnd | src/app/components/movie-list/movie-list.component.ts:44 | a prefix of the input, not ending with whitespace, with only whitespace cut off |
| Text.Trim | src/app/components/movie-list/movie-list.component.ts:44 | `trim` yields an infix `s[i..j]` of the input, empty or starting and ending with non-whitespace, where everything before `i` and from `j` on is whitespace |
| Text.TrimEmptyIff | src/app/components/movie-list/movie-list.component.ts:44-48 | the trimmed query is empty iff the query is all whitespace |
| Text.ContainsEmpty | src/app/services/movie.service.ts:34 | every string includes the empty string |
| Text.CodeUnitLessIrreflexive | src/app/components/movie-filters/movie-filters.component.ts:50 | no string sorts before itself |
| Text.CodeUnitLessAsymmetric | src/app/components/movie-filters/movie-filters.component.ts:50 | two strings cannot each sort before the other |
| Text.CodeUnitLessTrichotomy | src/app/components/movie-filters/movie-filters.component.ts:50 | of two different strings one sorts first |
| Text.CodeUnitLessTransitive | src/app/components/movie-filters/movie-filters.component.ts:50 | the string order is transitive |
| Text.LocaleCompare | src/app/components/movie-list/movie-list.component.ts:77-79 | negative iff the first title collates first, zero iff the titles are equal, otherwise positive |
| Text.LocaleCompareAntisymmetric | src/app/components/movie-list/movie-list.component.ts:77-79 | swapping the titles negates the comparison |
| Text.LocaleCompareTransitive | src/app/components/movie-list/movie-list.component.ts:77-79 | "collates no later than" is transitive |
| Selection.Filter | src/app/components/movie-list/movie-list.component.ts:49-62 | `filter` never lengthens the list and keeps only listed movies that meet every criterion |
| Selection.FilterCount | src/app/components/movie-list/movie-list.component.ts:49-62 | `filter` keeps each qualifying movie as often as it occurs and drops the rest |
| Selection.FilterSubsequence | src/app/components/movie-list/movie-list.component.ts:49-62 | `filter` keeps the input order |
| Selection.FilterThen | src/app/components/movie-list/movie-list.component.ts:49-62 | two successive filters are one filter by both sets of criteria |
| Selection.FilterKeepsAll | src/app/components/movie-list/movie-list.component.ts:49-62 | criteria every movie meets remove nothing |
| StableSort.Insert | src/app/components/movie-list/movie-list.component.ts:66 | insertion adds exactly the element |
| StableSort.Sort | src/app/components/movie-list/movie-list.component.ts:66 | the sort is a permutation of its input |
| StableSort.InsertSorted | src/app/components/movie-list/movie-list.component.ts:66 | inserting into a sorted list keeps it sorted |
| StableSort.SortSorted | src/app/components/movie-list/movie-list.component.ts:66 | the output is sorted under a total preorder |
| StableSort.InsertTies | src/app/components/movie-list/movie-list.component.ts:66 | insertion puts the new element ahead of every element it ties with |
| StableSort.SortStable | src/app/components/movie-list/movie-list.component.ts:66 | elements that tie keep their input order |
| StableSort.SortAllTied | src/app/components/movie-list/movie-list.component.ts:80-81 | a comparison under which everything ties leaves the input unchanged |
| StableSort.SortIsUnique | src/app/components/movie-list/movie-list.component.ts:66 | every sorted, stable permutation of the input equals `Sort` of it |
| StableSort.SortedTiesDetermine | src/app/components/movie-list/movie-list.component.ts:66 | two sorted permutations with the same tie orders are equal |
| StableSort.PermutationNoDuplicates | src/app/components/movie-filters/movie-filters.component.ts:46-50 | sorting a duplicate-free list (a `Set`'s contents) keeps it duplicate-free |

## Left out

- The HTTP request for `/data/movies.json`, the RxJS plumbing (`pipe`, `map`, `catchError`, `takeUntilDestroyed`) and the `console.error` call. Each service operation and `LoadMovies` receives the request's outcome as a `Result` value.
- MovieList.MovieListComponent.LoadMovies: the request is asynchronous. The model splits `retryLoading` into the synchronous reset (`RetryLoading`) and the later delivery of the response (`LoadMovies`). `ngOnInit`'s first load is the constructor followed by `LoadMovies`.
- The cache and `clearCache`. `retryLoading` calls `movieService.clearCache()`, but the service defines no such method and has no cache. The call is not modelled, and no expiry or storage behaviour is invented.
- The search debounce (300 ms) and `distinctUntilChanged`, and `onSearchInput`, which only forwards the input value into the debounced subject. `SetSearchQuery` is the value arriving after the debounce.
- Text.ToLower: lower-cases only ASCII A–Z and the Cyrillic capitals U+0400..U+042F. Every other capital stays unchanged (for example 'É', 'Ä', 'Ö', Greek capitals), whereas `toLowerCase` maps it; the context-dependent and length-changing cases of full Unicode case mapping are not modelled either.
- Text.LowerChar: the same restriction as `Text.ToLower`; its capitals are exactly ASCII A–Z and U+0400..U+042F.
- Text.LocaleCompare: ICU collation for the `ru` locale is replaced by code-unit lexicographic order. What is kept is the property the sort depends on: the result is antisymmetric and defines a total preorder. So the title orders are proved for this stand-in collation, not for the locale's.
- MovieFilters.AvailableGenres: Dafny strings are sequences of Unicode scalar values, while JavaScript compares UTF-16 code units. The two orders differ only for characters outside the Basic Multilingual Plane.
- MovieFilters.YearRange: `Math.min()` and `Math.max()` of an empty list give `Infinity` and `-Infinity`, which are floating-point values. The model requires a non-empty catalog.
- Years, ids and durations are whole numbers. NaN, fractional years and JavaScript's 64-bit float arithmetic are not modelled. Ratings are `real` and are compared exactly.
- A response body without a `movies` field (a type error the code does not guard against) is not modelled.
- StableSort.Sort: insertion sort stands in for the engine's stable sort (TimSort in V8). `SortIsUnique` proves that every sorted, stable permutation is the same sequence, so the choice does not change the result.
- DOM effects and framework glue are not modelled: `document.body.style.overflow`, `@HostListener`, the templates, `skeletonItems` and `inject`. A backdrop click is given as the target's class list.
- src/app/components/movie-card/movie-card.component.ts only re-emits a click, so it has no model.
- The debounced `searchSubject` and the injected service are not fields of `MovieListComponent`. The derived signals are functions of its fields: `FilteredMovies`, `ResultsCount`, `TotalCount`, `HasNoResults` and `HasActiveFilters`.
