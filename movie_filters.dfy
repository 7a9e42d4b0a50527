/** The filter panel: the sort options, the genres and year range offered for
    choice, and the filter state it emits to the list. */
module MovieFilters {
  import opened Wrappers
  import opened MovieModel
  import opened Text
  import StableSort

  datatype SortOption = RatingDesc | RatingAsc | YearDesc | YearAsc | TitleAsc | TitleDesc

  /** The string value of each option, the key the list's comparator switches on. */
  function SortValue(o: SortOption): string {
    match o
    case RatingDesc => "rating_desc"
    case RatingAsc => "rating_asc"
    case YearDesc => "year_desc"
    case YearAsc => "year_asc"
    case TitleAsc => "title_asc"
    case TitleDesc => "title_desc"
  }

  /** A year bound is `number | null`; `None` is `null`. */
  datatype FilterState = FilterState(genre: string, yearFrom: Option<int>, yearTo: Option<int>, sort: SortOption)

  /** No genre, no year bounds, highest rating first: the state both components start in. */
  const InitialFilters: FilterState := FilterState("", None, None, RatingDesc)

  /** JavaScript truthiness of a year bound: `null` and `0` are falsy. */
  predicate Truthy(y: Option<int>) {
    y.Some? && y.value != 0
  }

  datatype SortChoice = SortChoice(value: SortOption, caption: string)

  const SortOptions: seq<SortChoice> := [
    SortChoice(RatingDesc, "С высоким рейтингом"),
    SortChoice(RatingAsc, "С низким рейтингом"),
    SortChoice(YearDesc, "Сначала новые"),
    SortChoice(YearAsc, "Сначала старые"),
    SortChoice(TitleAsc, "По названию А-Я"),
    SortChoice(TitleDesc, "По названию Я-А")
  ]

  /** How many entries of `choices` carry the option `o`. */
  function Occurrences(choices: seq<SortChoice>, o: SortOption): nat
  {
    if choices == [] then 0
    else (if choices[0].value == o then 1 else 0) + Occurrences(choices[1..], o)
  }

  /** The selector offers every sort option exactly once. */
  lemma SortOptionsEachOnce(o: SortOption)
    ensures Occurrences(SortOptions, o) == 1
  {
    var s := SortOptions;
    assert s[1..][1..][1..][1..][1..][1..] == [];
  }

  /** The genres occurring in at least one movie. */
  ghost predicate GenreOccurs(movies: seq<Movie>, g: string) {
    exists k :: 0 <= k < |movies| && g in movies[k].genres
  }

  /** `Array.prototype.sort()` on strings: `a` may precede `b` unless `b` is smaller by code unit. */
  function CodeUnitOrder(): (string, string) -> bool {
    (a: string, b: string) => !CodeUnitLess(b, a)
  }

  lemma CodeUnitOrderTotalPreorder()
    ensures StableSort.TotalPreorder(CodeUnitOrder())
  {
    var leq := CodeUnitOrder();
    forall a, b ensures leq(a, b) || leq(b, a) {
      CodeUnitLessAsymmetricBoth(a, b);
    }
    forall a, b, c | leq(a, b) && leq(b, c) ensures leq(a, c) {
      CodeUnitLessTrichotomy(a, b);
      if CodeUnitLess(c, a) {
        if CodeUnitLess(a, b) {
          CodeUnitLessTransitive(c, a, b);
        }
      }
    }
  }

  /** `availableGenres`: every genre of the catalog once, in ascending code-unit order.
      The inner loops mirror the nested `forEach` adding to a `Set` (kept here as a
      duplicate-free sequence in insertion order). */
  method AvailableGenres(movies: seq<Movie>) returns (genres: seq<string>)
    ensures forall g :: g in genres <==> GenreOccurs(movies, g)
    ensures forall i, j :: 0 <= i < j < |genres| ==> CodeUnitLess(genres[i], genres[j])
  {
    var seen: seq<string> := [];
    for i := 0 to |movies|
      invariant StableSort.NoDuplicates(seen)
      invariant forall g :: g in seen <==> GenreOccurs(movies[..i], g)
    {
      var gs := movies[i].genres;
      for j := 0 to |gs|
        invariant StableSort.NoDuplicates(seen)
        invariant forall g :: g in seen <==> GenreOccurs(movies[..i], g) || g in gs[..j]
      {
        if gs[j] !in seen {
          seen := seen + [gs[j]];
        }
      }
      assert gs[..|gs|] == gs;
      forall g ensures GenreOccurs(movies[..i + 1], g) <==> GenreOccurs(movies[..i], g) || g in gs {
        if GenreOccurs(movies[..i], g) {
          var k :| 0 <= k < i && g in movies[..i][k].genres;
          assert movies[..i + 1][k] == movies[..i][k];
        }
        if g in gs {
          assert movies[..i + 1][i] == movies[i];
        }
        if GenreOccurs(movies[..i + 1], g) {
          var k :| 0 <= k < i + 1 && g in movies[..i + 1][k].genres;
          if k < i {
            assert movies[..i][k] == movies[..i + 1][k];
          }
        }
      }
    }
    assert movies[..|movies|] == movies;
    genres := StableSort.Sort(seen, CodeUnitOrder());
    CodeUnitOrderTotalPreorder();
    StableSort.SortSorted(seen, CodeUnitOrder());
    StableSort.PermutationNoDuplicates(seen, genres);
    forall g ensures g in genres <==> g in seen {
      assert g in genres <==> g in multiset(genres);
      assert g in seen <==> g in multiset(seen);
    }
    forall i, j | 0 <= i < j < |genres| ensures CodeUnitLess(genres[i], genres[j]) {
      assert CodeUnitOrder()(genres[i], genres[j]);
      CodeUnitLessTrichotomy(genres[i], genres[j]);
    }
  }

  /** `yearRange.min`: `Math.min` over the years of a non-empty list. */
  function MinYear(movies: seq<Movie>): (y: int)
    requires |movies| > 0
    ensures forall m :: m in movies ==> y <= m.year
    ensures exists m :: m in movies && m.year == y
  {
    if |movies| == 1 then movies[0].year
    else
      var rest := MinYear(movies[1..]);
      if movies[0].year <= rest then movies[0].year else rest
  }

  /** `yearRange.max`: `Math.max` over the years of a non-empty list. */
  function MaxYear(movies: seq<Movie>): (y: int)
    requires |movies| > 0
    ensures forall m :: m in movies ==> m.year <= y
    ensures exists m :: m in movies && m.year == y
  {
    if |movies| == 1 then movies[0].year
    else
      var rest := MaxYear(movies[1..]);
      if movies[0].year >= rest then movies[0].year else rest
  }

  datatype YearBounds = YearBounds(min: int, max: int)

  /** `yearRange`: the tightest bounds around the catalog's years; both are attained. */
  function YearRange(movies: seq<Movie>): (r: YearBounds)
    requires |movies| > 0
    ensures r.min <= r.max
    ensures forall m :: m in movies ==> r.min <= m.year <= r.max
    ensures (exists m :: m in movies && m.year == r.min) && (exists m :: m in movies && m.year == r.max)
  {
    YearBounds(MinYear(movies), MaxYear(movies))
  }

  /** The filter panel's form fields (two-way bound to its controls). */
  class MovieFiltersComponent {
    var selectedGenre: string
    var yearFrom: Option<int>
    var yearTo: Option<int>
    var selectedSort: SortOption

    constructor ()
      ensures State() == InitialFilters
    {
      selectedGenre := "";
      yearFrom := None;
      yearTo := None;
      selectedSort := RatingDesc;
    }

    /** The four fields as the `FilterState` they describe. */
    function State(): FilterState
      reads this
    {
      FilterState(selectedGenre, yearFrom, yearTo, selectedSort)
    }

    /** The `hasActiveFilters` getter: a genre is chosen, a year bound is truthy, or
        the sort is not the default. */
    predicate HasActiveFilters()
      reads this
    {
      selectedGenre != "" || Truthy(yearFrom) || Truthy(yearTo) || selectedSort != RatingDesc
    }

    /** `onFilterChange`: emits the current fields, changing nothing. */
    method OnFilterChange() returns (emitted: FilterState)
      ensures emitted.genre == selectedGenre && emitted.yearFrom == yearFrom
      ensures emitted.yearTo == yearTo && emitted.sort == selectedSort
    {
      emitted := FilterState(selectedGenre, yearFrom, yearTo, selectedSort);
    }

    /** `resetFilters`: back to the initial fields, then emits them. */
    method ResetFilters() returns (emitted: FilterState)
      modifies this
      ensures State() == InitialFilters && emitted == InitialFilters
      ensures !HasActiveFilters()
    {
      selectedGenre := "";
      yearFrom := None;
      yearTo := None;
      selectedSort := RatingDesc;
      emitted := OnFilterChange();
    }
  }
}
