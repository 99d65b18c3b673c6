/** What a handler sends back. Plain-text bodies are not modelled: only
    which status goes out, and which record is sent as JSON. */
module Http {
  import Movies
  import Users

  datatype Payload =
    | Text
    | UserJson(user: Users.User)
    | MovieJson(movie: Movies.Movie)
    | MovieListJson(movies: seq<Movies.Movie>)
    | GenreJson(genre: Movies.Genre)
    | DirectorJson(director: Movies.Director)

  /** `Sent` is a response with a status; `NoResponse` is a handler that
      returns without answering, leaving the request open. */
  datatype Response = Sent(status: nat, payload: Payload) | NoResponse

  /** The error middleware's answer to an exception thrown by a handler. */
  const ServerError: Response := Sent(500, Text)
}
