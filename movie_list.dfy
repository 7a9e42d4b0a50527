/** The catalog list: the view derived from the loaded movies, the debounced search
    query and the filter state, and the component state the handlers update. */
module MovieList {
  import opened Wrappers
  import opened MovieModel
  import opened Text
  import opened Selection
  import StableSort
  import opened MovieFilters
  import opened MovieService

  /** The comparator handed to `sort`, switched on the sort key's string value;
      an unrecognised key compares everything equal. Only its sign is used. */
  function Compare(sort: string, a: Movie, b: Movie): real {
    if sort == "rating_desc" then b.rating - a.rating
    else if sort == "rating_asc" then a.rating - b.rating
    else if sort == "year_desc" then (b.year - a.year) as real
    else if sort == "year_asc" then (a.year - b.year) as real
    else if sort == "title_asc" then LocaleCompare(a.title, b.title)
    else if sort == "title_desc" then LocaleCompare(b.title, a.title)
    else 0.0
  }

  /** `a` may stay before `b`: the comparator does not ask to swap them. */
  function MayPrecede(sort: string): (Movie, Movie) -> bool {
    (a: Movie, b: Movie) => Compare(sort, a, b) <= 0.0
  }

  /** Every sort key, known or not, orders movies by a total preorder, the
      condition under which `Array.prototype.sort` is well defined. */
  lemma CompareTotalPreorder(sort: string)
    ensures StableSort.TotalPreorder(MayPrecede(sort))
  {
    var leq := MayPrecede(sort);
    forall a, b ensures leq(a, b) || leq(b, a) {
      LocaleCompareAntisymmetric(a.title, b.title);
    }
    forall a, b, c | leq(a, b) && leq(b, c) ensures leq(a, c) {
      if sort == "title_asc" {
        LocaleCompareTransitive(a.title, b.title, c.title);
      } else if sort == "title_desc" {
        LocaleCompareTransitive(c.title, b.title, a.title);
      }
    }
  }

  /** `[...result].sort(comparator)`: a sorted copy; the argument is not changed. */
  function SortMovies(movies: seq<Movie>, sort: string): (r: seq<Movie>)
    ensures multiset(r) == multiset(movies)
  {
    StableSort.Sort(movies, MayPrecede(sort))
  }

  /** The title-search query as the list applies it: lower-cased, then trimmed. */
  function NormalizedQuery(searchQuery: string): string {
    Trim(ToLower(searchQuery))
  }

  /** One `if (value) result = result.filter(...)` step of the pipeline. */
  function Stage(movies: seq<Movie>, on: bool, c: Criterion): seq<Movie> {
    if on then Filter(movies, [c]) else movies
  }

  /** `filteredMovies`: search, genre, lower and upper year bound (each applied only
      when its value is truthy), then the sort. */
  function FilteredMovies(movies: seq<Movie>, searchQuery: string, filters: FilterState): seq<Movie> {
    var query := NormalizedQuery(searchQuery);
    var bySearch := Stage(movies, query != "", TitleContains(query));
    var byGenre := Stage(bySearch, filters.genre != "", InGenre(filters.genre));
    var byFrom := Stage(byGenre, Truthy(filters.yearFrom), YearFrom(filters.yearFrom.GetOr(0)));
    var byTo := Stage(byFrom, Truthy(filters.yearTo), YearTo(filters.yearTo.GetOr(0)));
    SortMovies(byTo, SortValue(filters.sort))
  }

  /** What a movie must satisfy to be shown, one conjunct per switched-on filter. */
  ghost predicate Matches(searchQuery: string, filters: FilterState, m: Movie) {
    && (NormalizedQuery(searchQuery) != "" ==> Contains(ToLower(m.title), NormalizedQuery(searchQuery)))
    && (filters.genre != "" ==> filters.genre in m.genres)
    && (Truthy(filters.yearFrom) ==> m.year >= filters.yearFrom.value)
    && (Truthy(filters.yearTo) ==> m.year <= filters.yearTo.value)
  }

  function Optional(on: bool, c: Criterion): seq<Criterion> {
    if on then [c] else []
  }

  /** The switched-on filters as criteria, in the order they are applied. */
  function ActiveCriteria(searchQuery: string, filters: FilterState): seq<Criterion> {
    var query := NormalizedQuery(searchQuery);
    Optional(query != "", TitleContains(query)) +
    Optional(filters.genre != "", InGenre(filters.genre)) +
    Optional(Truthy(filters.yearFrom), YearFrom(filters.yearFrom.GetOr(0))) +
    Optional(Truthy(filters.yearTo), YearTo(filters.yearTo.GetOr(0)))
  }

  lemma OptionalHolds(on: bool, c: Criterion, m: Movie)
    ensures HoldsAll(Optional(on, c), m) <==> (on ==> Holds(c, m))
  {
    if on {
      HoldsAllSingle(c, m);
    }
  }

  /** A movie meets the active criteria exactly when it matches every switched-on filter. */
  lemma ActiveCriteriaMeaning(searchQuery: string, filters: FilterState, m: Movie)
    ensures HoldsAll(ActiveCriteria(searchQuery, filters), m) <==> Matches(searchQuery, filters, m)
  {
    var query := NormalizedQuery(searchQuery);
    var c0 := Optional(query != "", TitleContains(query));
    var c1 := Optional(filters.genre != "", InGenre(filters.genre));
    var c2 := Optional(Truthy(filters.yearFrom), YearFrom(filters.yearFrom.GetOr(0)));
    var c3 := Optional(Truthy(filters.yearTo), YearTo(filters.yearTo.GetOr(0)));
    HoldsAllConcat(c0 + c1 + c2, c3, m);
    HoldsAllConcat(c0 + c1, c2, m);
    HoldsAllConcat(c0, c1, m);
    OptionalHolds(query != "", TitleContains(query), m);
    OptionalHolds(filters.genre != "", InGenre(filters.genre), m);
    OptionalHolds(Truthy(filters.yearFrom), YearFrom(filters.yearFrom.GetOr(0)), m);
    OptionalHolds(Truthy(filters.yearTo), YearTo(filters.yearTo.GetOr(0)), m);
  }

  /** A stage after a filter by `cs` is one filter by `cs` and the stage's criterion. */
  lemma StageAfterFilter(movies: seq<Movie>, cs: seq<Criterion>, on: bool, c: Criterion)
    ensures Stage(Filter(movies, cs), on, c) == Filter(movies, cs + Optional(on, c))
  {
    if on {
      FilterThen(movies, cs, [c]);
    } else {
      assert cs + [] == cs;
    }
  }

  /** The four filter stages are one filter by the active criteria. */
  lemma FilterStagesCombine(movies: seq<Movie>, searchQuery: string, filters: FilterState)
    ensures FilteredMovies(movies, searchQuery, filters)
            == SortMovies(Filter(movies, ActiveCriteria(searchQuery, filters)), SortValue(filters.sort))
  {
    var query := NormalizedQuery(searchQuery);
    var c0 := Optional(query != "", TitleContains(query));
    var c1 := Optional(filters.genre != "", InGenre(filters.genre));
    var c2 := Optional(Truthy(filters.yearFrom), YearFrom(filters.yearFrom.GetOr(0)));
    var c3 := Optional(Truthy(filters.yearTo), YearTo(filters.yearTo.GetOr(0)));
    FilterKeepsAll(movies, []);
    var s0 := Stage(movies, query != "", TitleContains(query));
    StageAfterFilter(movies, [], query != "", TitleContains(query));
    assert [] + c0 == c0;
    assert s0 == Filter(movies, c0);
    var s1 := Stage(s0, filters.genre != "", InGenre(filters.genre));
    StageAfterFilter(movies, c0, filters.genre != "", InGenre(filters.genre));
    assert s1 == Filter(movies, c0 + c1);
    var s2 := Stage(s1, Truthy(filters.yearFrom), YearFrom(filters.yearFrom.GetOr(0)));
    StageAfterFilter(movies, c0 + c1, Truthy(filters.yearFrom), YearFrom(filters.yearFrom.GetOr(0)));
    assert s2 == Filter(movies, c0 + c1 + c2);
    var s3 := Stage(s2, Truthy(filters.yearTo), YearTo(filters.yearTo.GetOr(0)));
    StageAfterFilter(movies, c0 + c1 + c2, Truthy(filters.yearTo), YearTo(filters.yearTo.GetOr(0)));
    assert s3 == Filter(movies, c0 + c1 + c2 + c3);
  }

  /** Soundness, completeness and no duplication: the view holds each movie exactly
      as often as the catalog does when it matches every active filter, and not at
      all otherwise; so it is a permutation of the matching movies. */
  lemma FilteredMoviesContents(movies: seq<Movie>, searchQuery: string, filters: FilterState, m: Movie)
    ensures multiset(FilteredMovies(movies, searchQuery, filters))[m]
            == if Matches(searchQuery, filters, m) then multiset(movies)[m] else 0
  {
    FilterStagesCombine(movies, searchQuery, filters);
    FilterCount(movies, ActiveCriteria(searchQuery, filters), m);
    ActiveCriteriaMeaning(searchQuery, filters, m);
  }

  /** Every movie shown is in the catalog and matches every active filter. */
  lemma FilteredMoviesSound(movies: seq<Movie>, searchQuery: string, filters: FilterState)
    ensures forall m :: m in FilteredMovies(movies, searchQuery, filters) ==>
              m in movies && Matches(searchQuery, filters, m)
  {
    forall m | m in FilteredMovies(movies, searchQuery, filters)
      ensures m in movies && Matches(searchQuery, filters, m)
    {
      FilteredMoviesContents(movies, searchQuery, filters, m);
      assert m in multiset(FilteredMovies(movies, searchQuery, filters));
    }
  }

  /** Ordered by a sort option's comparator means ordered by the rating, year or
      collated title that the option names, in its direction. */
  lemma SortedMeaning(r: seq<Movie>, o: SortOption)
    requires StableSort.Sorted(r, MayPrecede(SortValue(o)))
    ensures o == RatingDesc ==> forall i, j :: 0 <= i < j < |r| ==> r[i].rating >= r[j].rating
    ensures o == RatingAsc ==> forall i, j :: 0 <= i < j < |r| ==> r[i].rating <= r[j].rating
    ensures o == YearDesc ==> forall i, j :: 0 <= i < j < |r| ==> r[i].year >= r[j].year
    ensures o == YearAsc ==> forall i, j :: 0 <= i < j < |r| ==> r[i].year <= r[j].year
    ensures o == TitleAsc ==> forall i, j :: 0 <= i < j < |r| ==> LocaleCompare(r[i].title, r[j].title) <= 0.0
    ensures o == TitleDesc ==> forall i, j :: 0 <= i < j < |r| ==> LocaleCompare(r[j].title, r[i].title) <= 0.0
  {
    var key := SortValue(o);
    forall i, j | 0 <= i < j < |r| ensures Compare(key, r[i], r[j]) <= 0.0 {
      assert MayPrecede(key)(r[i], r[j]);
    }
  }

  /** The view is ordered by its sort key. */
  lemma FilteredMoviesOrdered(movies: seq<Movie>, searchQuery: string, filters: FilterState)
    ensures StableSort.Sorted(FilteredMovies(movies, searchQuery, filters), MayPrecede(SortValue(filters.sort)))
  {
    var key := SortValue(filters.sort);
    var selected := Filter(movies, ActiveCriteria(searchQuery, filters));
    FilterStagesCombine(movies, searchQuery, filters);
    CompareTotalPreorder(key);
    StableSort.SortSorted(selected, MayPrecede(key));
  }

  /** Stability: movies the sort key ties keep the order they have in the catalog. */
  lemma FilteredMoviesStable(movies: seq<Movie>, searchQuery: string, filters: FilterState, x: Movie)
    ensures var leq := MayPrecede(SortValue(filters.sort));
            var selected := Filter(movies, ActiveCriteria(searchQuery, filters));
            && IsSubsequence(selected, movies)
            && StableSort.Ties(FilteredMovies(movies, searchQuery, filters), x, leq)
               == StableSort.Ties(selected, x, leq)
  {
    var key := SortValue(filters.sort);
    var selected := Filter(movies, ActiveCriteria(searchQuery, filters));
    FilterStagesCombine(movies, searchQuery, filters);
    FilterSubsequence(movies, ActiveCriteria(searchQuery, filters));
    CompareTotalPreorder(key);
    StableSort.SortStable(selected, x, MayPrecede(key));
  }

  /** A key outside the six (the comparator's `default: return 0`) keeps the order. */
  lemma UnknownSortKeepsOrder(movies: seq<Movie>, sort: string)
    requires forall o :: sort != SortValue(o)
    ensures SortMovies(movies, sort) == movies
  {
    assert sort != SortValue(RatingDesc) && sort != SortValue(RatingAsc);
    assert sort != SortValue(YearDesc) && sort != SortValue(YearAsc);
    assert sort != SortValue(TitleAsc) && sort != SortValue(TitleDesc);
    StableSort.SortAllTied(movies, MayPrecede(sort));
  }

  /** With no filter switched on (an empty or all-whitespace query, no genre, year
      bounds null or 0) the view is the whole catalog, only reordered. */
  lemma InactiveFiltersKeepCatalog(movies: seq<Movie>, searchQuery: string, filters: FilterState)
    requires forall k :: 0 <= k < |searchQuery| ==> IsWhitespace(searchQuery[k])
    requires filters.genre == "" && !Truthy(filters.yearFrom) && !Truthy(filters.yearTo)
    ensures FilteredMovies(movies, searchQuery, filters) == SortMovies(movies, SortValue(filters.sort))
    ensures multiset(FilteredMovies(movies, searchQuery, filters)) == multiset(movies)
  {
    var lower := ToLower(searchQuery);
    assert forall k :: 0 <= k < |lower| ==> IsWhitespace(lower[k]);
    TrimEmptyIff(lower);
  }

  /** The example ordering: ratings 5 and 8 under `rating_desc` come out 8 first. */
  lemma RatingDescExample(a: Movie, b: Movie)
    requires a.rating == 5.0 && b.rating == 8.0
    ensures FilteredMovies([a, b], "", InitialFilters) == [b, a]
  {
    InactiveFiltersKeepCatalog([a, b], "", InitialFilters);
    SortPairByRating(a, b);
  }

  lemma SortPairByRating(a: Movie, b: Movie)
    requires a.rating < b.rating
    ensures SortMovies([a, b], "rating_desc") == [b, a]
  {
    var leq := MayPrecede("rating_desc");
    assert !leq(a, b);
    assert [a, b][1..] == [b];
    assert StableSort.Sort([b], leq) == [b];
    assert StableSort.Insert(a, [b], leq) == [b] + StableSort.Insert(a, [], leq) == [b, a];
  }

  /** `resultsCount`: the length of the view, never more than `totalCount`. */
  function ResultsCount(movies: seq<Movie>, searchQuery: string, filters: FilterState): (n: nat)
    ensures n <= TotalCount(movies)
  {
    FilterStagesCombine(movies, searchQuery, filters);
    |FilteredMovies(movies, searchQuery, filters)|
  }

  /** `totalCount`: the length of the catalog. */
  function TotalCount(movies: seq<Movie>): nat {
    |movies|
  }

  /** `hasNoResults`: loaded without error, and the view is empty. */
  predicate HasNoResults(isLoading: bool, error: Option<string>, view: seq<Movie>) {
    !isLoading && error.None? && |view| == 0
  }

  /** Once loaded without error, the empty-result message shows exactly when no movie
      of the catalog matches the active filters. */
  lemma NoResultsIffNothingMatches(movies: seq<Movie>, searchQuery: string, filters: FilterState)
    ensures HasNoResults(false, None, FilteredMovies(movies, searchQuery, filters))
            <==> forall m :: m in movies ==> !Matches(searchQuery, filters, m)
  {
    var view := FilteredMovies(movies, searchQuery, filters);
    if view != [] {
      FilteredMoviesSound(movies, searchQuery, filters);
      assert view[0] in view;
    } else {
      forall m | m in movies ensures !Matches(searchQuery, filters, m) {
        FilteredMoviesContents(movies, searchQuery, filters, m);
        assert m in multiset(movies);
      }
    }
  }

  /** `hasActiveFilters` of the list: a non-empty (untrimmed) query, a genre, a truthy
      year bound, or a sort other than the default. */
  predicate HasActiveFilters(searchQuery: string, filters: FilterState) {
    searchQuery != "" || filters.genre != "" || Truthy(filters.yearFrom) ||
    Truthy(filters.yearTo) || filters.sort != RatingDesc
  }

  /** When the flag is off the view is the catalog in the default order. */
  lemma InactiveFlagShowsCatalog(movies: seq<Movie>, searchQuery: string, filters: FilterState)
    requires !HasActiveFilters(searchQuery, filters)
    ensures FilteredMovies(movies, searchQuery, filters) == SortMovies(movies, "rating_desc")
    ensures !HasActiveFilters("", InitialFilters)
  {
    InactiveFiltersKeepCatalog(movies, searchQuery, filters);
  }

  /** The flag counts an all-whitespace query as a filter, although trimming makes
      it select nothing away. */
  lemma WhitespaceQueryFlaggedButInert(movies: seq<Movie>, searchQuery: string, filters: FilterState)
    requires searchQuery != [] && forall k :: 0 <= k < |searchQuery| ==> IsWhitespace(searchQuery[k])
    ensures HasActiveFilters(searchQuery, filters)
    ensures FilteredMovies(movies, searchQuery, filters) == FilteredMovies(movies, "", filters)
  {
    var lower := ToLower(searchQuery);
    assert forall k :: 0 <= k < |lower| ==> IsWhitespace(lower[k]);
    TrimEmptyIff(lower);
  }

  /** The list's flag is the panel's flag plus the search query. */
  lemma ActiveFlagsAgree(searchQuery: string, panel: MovieFiltersComponent)
    ensures HasActiveFilters(searchQuery, panel.State()) <==> searchQuery != "" || panel.HasActiveFilters()
  {
  }

  /** The list component's state. The debounced search subject, the service and
      `skeletonItems` are not part of it; the view and flags are the functions above
      applied to these fields. */
  class MovieListComponent {
    var movies: seq<Movie>
    var isLoading: bool
    var error: Option<string>
    var searchQuery: string
    var selectedMovie: Option<Movie>
    var filters: FilterState
    var showFilters: bool

    /** The loading indicator and an error message are never shown together. */
    ghost predicate Valid()
      reads this
    {
      isLoading ==> error == None
    }

    constructor ()
      ensures Valid()
      ensures movies == [] && isLoading && error == None && searchQuery == ""
      ensures selectedMovie == None && filters == InitialFilters && !showFilters
    {
      movies := [];
      isLoading := true;
      error := None;
      searchQuery := "";
      selectedMovie := None;
      filters := InitialFilters;
      showFilters := false;
    }

    /** The `next` and `error` handlers of `loadMovies`, receiving the outcome of the
        request: the movies replace the list, or the service's message is shown;
        loading ends either way. */
    method LoadMovies(fetch: Fetch)
      requires Valid()
      modifies this
      ensures Valid() && !isLoading
      ensures fetch.Success? ==> movies == fetch.value.movies && error == old(error)
      ensures fetch.Failure? ==> error == Some(LoadErrorMessage) && movies == old(movies)
      ensures searchQuery == old(searchQuery) && selectedMovie == old(selectedMovie)
      ensures filters == old(filters) && showFilters == old(showFilters)
    {
      match GetMovies(fetch) {
        case Success(loaded) =>
          movies := loaded;
          isLoading := false;
        case Failure(message) =>
          error := Some(message);
          isLoading := false;
      }
    }

    /** `retryLoading` up to the new request: clears the error and shows loading.
        The request's outcome arrives later through LoadMovies. */
    method RetryLoading()
      requires Valid()
      modifies this
      ensures Valid() && error == None && isLoading
      ensures movies == old(movies) && searchQuery == old(searchQuery)
      ensures selectedMovie == old(selectedMovie) && filters == old(filters) && showFilters == old(showFilters)
    {
      error := None;
      isLoading := true;
    }

    /** The search subscription: a query that has passed the debounce becomes the
        current search. */
    method SetSearchQuery(query: string)
      requires Valid()
      modifies this`searchQuery
      ensures Valid() && searchQuery == query
    {
      searchQuery := query;
    }

    /** `onFilterChange`: the panel's emitted state becomes the current filters. */
    method OnFilterChange(filterState: FilterState)
      requires Valid()
      modifies this`filters
      ensures Valid() && filters == filterState
    {
      filters := filterState;
    }

    method ToggleFilters()
      requires Valid()
      modifies this`showFilters
      ensures Valid() && showFilters == !old(showFilters)
    {
      showFilters := !showFilters;
    }

    method OpenMovieModal(movie: Movie)
      requires Valid()
      modifies this`selectedMovie
      ensures Valid() && selectedMovie == Some(movie)
    {
      selectedMovie := Some(movie);
    }

    method CloseMovieModal()
      requires Valid()
      modifies this`selectedMovie
      ensures Valid() && selectedMovie == None
    {
      selectedMovie := None;
    }
  }
}
