/** The movie catalogue: the entries of the module-level `movies` array and
    the two movies it is seeded with. No request changes it. The free-text
    fields (a movie's Plot, a genre's Description, a director's Bio) are not
    carried: no handler reads or compares them. */
module Movies {

  datatype Genre = Genre(name: string)

  datatype Director = Director(name: string, birth: string, death: string)

  datatype Movie = Movie(
    title: string,
    genre: Genre,
    director: Director,
    imageUrl: string,
    featured: bool)

  const SilenceOfTheLambs: Movie := Movie(
    "The Silence of the Lambs",
    Genre("Thriller"),
    Director("Jonathan Demme", "February 22, 1944", "April 26, 2017"),
    "https://m.media-amazon.com/images/M/MV5BNjNhZTk0ZmEtNjJhMi00YzFlLWE1MmEtYzM1M2ZmMGMwMTU4XkEyXkFqcGdeQXVyNjU0OTQ0OTY@._V1_SX300.jpg",
    false)

  const Tombstone: Movie := Movie(
    "Tombstone",
    Genre("Drama"),
    Director("George P. Cosmatos", "January 4, 1941", "April 19, 2005"),
    "https://m.media-amazon.com/images/M/MV5BODRkYzA4MGItODE2MC00ZjkwLWI2NDEtYzU1NzFiZGU1YzA0XkEyXkFqcGdeQXVyNTAyODkwOQ@@._V1_SX300.jpg",
    false)

  /** The catalogue the server starts with, in order. */
  const Catalogue: seq<Movie> := [SilenceOfTheLambs, Tombstone]
}
