/**
 * The records held in the movie store's JSON document, and the values its
 * operations exchange with their callers.
 */
module Records {

  datatype Option<+T> = None | Some(value: T)

  /** One entry of a user's collection. `id` is per user, 1-based and
      contiguous; `year` and `rating` are kept as the text the lookup gave. */
  datatype Movie = Movie(
    id: int,
    name: string,
    director: string,
    year: string,
    rating: string,
    poster: string,
    plot: string)

  datatype User = User(id: int, name: string, movies: seq<Movie>)

  /** The whole persisted JSON document: a top-level list of users. */
  type Document = seq<User>

  /** A partial movie record for `update_movie_info`: a `Some` field is a key
      present in the update dictionary, a `None` field a key absent from it. */
  datatype MoviePatch = MoviePatch(
    id: Option<int>,
    name: Option<string>,
    director: Option<string>,
    year: Option<string>,
    rating: Option<string>,
    poster: Option<string>,
    plot: Option<string>)

  /** What the metadata lookup gave for a title: the decoded JSON response
      (a key missing from it raises when read), or a request that failed. */
  datatype Lookup = Response(fields: map<string, string>) | Unreachable

  /** Why a mutating operation gave up; the document is left as it was. */
  datatype Cause =
    | EmptyStore            // max() of no user ids
    | LookupFailed          // the metadata request raised
    | MissingKey(key: string) // the response lacks a key that is read
    | WriteFailed           // the file could not be opened for writing

  /** What a mutating operation returns: `Done` stands for Python's `None`. */
  datatype Outcome = Done | MovieAlreadyExists | Failed(cause: Cause)
}
