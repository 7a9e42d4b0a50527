/** The catalog record. Ratings are JavaScript numbers and may be fractional, so
    they are `real`; identifiers, years and durations are whole numbers. */
module MovieModel {

  datatype Movie = Movie(
    id: int,
    title: string,
    year: int,
    rating: real,
    genres: seq<string>,
    description: string,
    poster: string,
    director: string,
    duration: int)
}
