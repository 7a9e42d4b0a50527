/** The catalog service's read operations. The HTTP request for `/data/movies.json`
    is not modelled; each operation receives its outcome, `fetch`. */
module MovieService {
  import opened Wrappers
  import opened MovieModel
  import opened Text
  import opened Selection

  /** The JSON body: the movie array under the `movies` field. */
  datatype MoviesResponse = MoviesResponse(movies: seq<Movie>)

  /** Why the request failed (transport, status or body); never shown to the user. */
  datatype HttpError = HttpError(status: int, message: string)

  type Fetch = Result<MoviesResponse, HttpError>

  /** The one message every load failure turns into. */
  const LoadErrorMessage: string := "Не удалось загрузить фильмы. Попробуйте позже."

  /** `getMovies`: unwraps `movies` from the body; any failure, whatever its cause,
      becomes the fixed message. */
  function GetMovies(fetch: Fetch): (r: Result<seq<Movie>, string>)
    ensures r.Success? <==> fetch.Success?
    ensures r.Success? ==> r.value == fetch.value.movies
    ensures r.Failure? ==> r.error == LoadErrorMessage
  {
    match fetch
    case Success(response) => Success(response.movies)
    case Failure(_) => Failure(LoadErrorMessage)
  }

  /** `Array.prototype.find` by id: a movie with the id, if any (the first one: FindByIdIsFirst). */
  function FindById(movies: seq<Movie>, id: int): (r: Option<Movie>)
    ensures r.None? <==> forall m :: m in movies ==> m.id != id
    ensures r.Some? ==> r.value in movies && r.value.id == id
    ensures r.Some? ==> exists i :: 0 <= i < |movies| && movies[i] == r.value && FirstWithId(movies, id, i)
  {
    if movies == [] then None
    else if movies[0].id == id then Some(movies[0])
    else FindById(movies[1..], id)
  }

  /** Index `i` holds the id and no earlier index does. */
  predicate FirstWithId(movies: seq<Movie>, id: int, i: int) {
    0 <= i < |movies| && movies[i].id == id && forall j :: 0 <= j < i ==> movies[j].id != id
  }

  /** The movie found is the first with that id: every movie before it has another id. */
  lemma {:induction false} FindByIdIsFirst(movies: seq<Movie>, id: int, i: int)
    requires 0 <= i < |movies| && movies[i].id == id
    requires forall j :: 0 <= j < i ==> movies[j].id != id
    ensures FindById(movies, id) == Some(movies[i])
  {
    if movies[0].id != id {
      FindByIdIsFirst(movies[1..], id, i - 1);
    }
  }

  /** `getMovieById`: the first movie with the id, or none; a failed load fails with
      the fixed message. */
  function GetMovieById(fetch: Fetch, id: int): (r: Result<Option<Movie>, string>)
    ensures r.Failure? <==> fetch.Failure?
    ensures r.Failure? ==> r.error == LoadErrorMessage
    ensures r.Success? ==> (r.value.None? <==> forall m :: m in fetch.value.movies ==> m.id != id)
    ensures r.Success? && r.value.Some? ==> r.value.value in fetch.value.movies && r.value.value.id == id
    ensures r.Success? && r.value.Some? ==>
              exists i :: 0 <= i < |fetch.value.movies| && fetch.value.movies[i] == r.value.value
                          && FirstWithId(fetch.value.movies, id, i)
    ensures r.Success? ==> r.value == FindById(fetch.value.movies, id)
  {
    match GetMovies(fetch)
    case Success(movies) => Success(FindById(movies, id))
    case Failure(e) => Failure(e)
  }

  /** The criterion `searchMovies` applies: the lower-cased title contains the
      lower-cased, untrimmed query. */
  function SearchCriterion(query: string): Criterion {
    TitleContains(ToLower(query))
  }

  /** `searchMovies`: the movies whose title contains the query, ignoring case. */
  function SearchMovies(fetch: Fetch, query: string): (r: Result<seq<Movie>, string>)
    ensures r.Failure? <==> fetch.Failure?
    ensures r.Failure? ==> r.error == LoadErrorMessage
    ensures r.Success? ==> forall m :: m in r.value ==>
              m in fetch.value.movies && Contains(ToLower(m.title), ToLower(query))
  {
    match GetMovies(fetch)
    case Success(movies) =>
      var c := SearchCriterion(query);
      assert forall m :: HoldsAll([c], m) ==> Holds(c, m) by {
        assert c in [c];
      }
      Success(Filter(movies, [c]))
    case Failure(e) => Failure(e)
  }

  /** Search misses nothing, duplicates nothing and keeps the catalog order. */
  lemma SearchMoviesComplete(response: MoviesResponse, query: string, m: Movie)
    ensures var r := SearchMovies(Success(response), query).value;
            && IsSubsequence(r, response.movies)
            && multiset(r)[m] ==
               if Contains(ToLower(m.title), ToLower(query)) then multiset(response.movies)[m] else 0
  {
    FilterSubsequence(response.movies, [SearchCriterion(query)]);
    FilterCount(response.movies, [SearchCriterion(query)], m);
    var c := SearchCriterion(query);
    assert c in [c];
  }

  /** Every title contains the empty string, so the empty search is the whole catalog. */
  lemma SearchEmptyQuery(fetch: Fetch)
    ensures SearchMovies(fetch, "") == GetMovies(fetch)
  {
    if fetch.Success? {
      var movies := fetch.value.movies;
      forall m | m in movies ensures HoldsAll([SearchCriterion("")], m) {
        ContainsEmpty(ToLower(m.title));
      }
      FilterKeepsAll(movies, [SearchCriterion("")]);
    }
  }
}
