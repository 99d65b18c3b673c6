/** The read-only routes over the movie catalogue. Each is a function of the
    catalogue and the path parameter: no route changes `movies`. */
module MovieRoutes {
  import opened Js
  import opened Movies
  import opened Http

  /** GET /movies: 200 with the whole catalogue, in order, and every movie
      it lists can then be fetched by its title. */
  function AllMovies(movies: seq<Movie>): (r: Response)
    ensures r.Sent? && r.status == 200 && r.payload.MovieListJson?
    ensures r.payload.movies == movies
    ensures forall m :: m in r.payload.movies ==> MovieByTitle(movies, m.title).status == 200
  {
    Sent(200, MovieListJson(movies))
  }

  function TitleIs(title: string): Movie -> bool
  {
    (m: Movie) => m.title == title
  }

  function GenreIs(name: string): Movie -> bool
  {
    (m: Movie) => m.genre.name == name
  }

  function DirectorIs(name: string): Movie -> bool
  {
    (m: Movie) => m.director.name == name
  }

  /** GET /movies/:title: the first movie whose title is exactly `title`
      (case-sensitive), or 400 when there is none. */
  function MovieByTitle(movies: seq<Movie>, title: string): (r: Response)
    ensures r.Sent? && (r.status == 200 || r.status == 400)
    ensures r.status == 200 <==> exists i :: 0 <= i < |movies| && movies[i].title == title
    ensures r.status == 400 ==> r.payload == Text
    ensures r.status == 200 ==> exists i :: (
      && 0 <= i < |movies| && r.payload == MovieJson(movies[i])
      && movies[i].title == title
      && forall j :: 0 <= j < i ==> movies[j].title != title)
  {
    match FindIndex(movies, TitleIs(title))
    case Some(i) => Sent(200, MovieJson(movies[i]))
    case None => Sent(400, Text)
  }

  /** GET /movies/genre/:genreName: the genre object of the first movie whose
      genre is named exactly `name`. With no such movie, reading `.Genre` of
      undefined throws and the error middleware answers 500. */
  function GenreByName(movies: seq<Movie>, name: string): (r: Response)
    ensures r.Sent? && (r.status == 200 || r.status == 500)
    ensures r.status == 200 <==> exists i :: 0 <= i < |movies| && movies[i].genre.name == name
    ensures r.status == 500 ==> r == ServerError
    ensures r.status == 200 ==> exists i :: (
      && 0 <= i < |movies| && r.payload == GenreJson(movies[i].genre)
      && movies[i].genre.name == name
      && forall j :: 0 <= j < i ==> movies[j].genre.name != name)
  {
    match FindIndex(movies, GenreIs(name))
    case Some(i) => Sent(200, GenreJson(movies[i].genre))
    case None => ServerError
  }

  /** GET /movies/directors/:directorName: the director object of the first
      movie whose director is named exactly `name`, or 500 as for genres. */
  function DirectorByName(movies: seq<Movie>, name: string): (r: Response)
    ensures r.Sent? && (r.status == 200 || r.status == 500)
    ensures r.status == 200 <==> exists i :: 0 <= i < |movies| && movies[i].director.name == name
    ensures r.status == 500 ==> r == ServerError
    ensures r.status == 200 ==> exists i :: (
      && 0 <= i < |movies| && r.payload == DirectorJson(movies[i].director)
      && movies[i].director.name == name
      && forall j :: 0 <= j < i ==> movies[j].director.name != name)
  {
    match FindIndex(movies, DirectorIs(name))
    case Some(i) => Sent(200, DirectorJson(movies[i].director))
    case None => ServerError
  }

  /** Every movie in the list GET /movies returns can be fetched by its
      title, and the fetched movie is the listed one unless an earlier
      entry has the same title. */
  lemma ListedMovieIsFound(movies: seq<Movie>, i: nat)
    requires i < |movies|
    ensures var r := MovieByTitle(movies, movies[i].title);
      r.Sent? && r.status == 200 && r.payload.movie in AllMovies(movies).payload.movies
      && r.payload.movie.title == movies[i].title
    ensures (forall j :: 0 <= j < i ==> movies[j].title != movies[i].title)
      ==> MovieByTitle(movies, movies[i].title) == Sent(200, MovieJson(movies[i]))
  {
    var r := MovieByTitle(movies, movies[i].title);
    var k :| 0 <= k < |movies| && r.payload == MovieJson(movies[k]) && movies[k].title == movies[i].title
      && forall j :: 0 <= j < k ==> movies[j].title != movies[i].title;
    assert k <= i;
  }

  /** The genre of any movie in the catalogue can be looked up by name.
      Because each movie embeds its own copy, the lookup returns the copy
      of the first movie with that genre name, which is this movie's copy
      when no earlier movie shares the name. */
  lemma EmbeddedGenreIsFound(movies: seq<Movie>, i: nat)
    requires i < |movies|
    ensures GenreByName(movies, movies[i].genre.name).status == 200
    ensures (forall j :: 0 <= j < i ==> movies[j].genre.name != movies[i].genre.name)
      ==> GenreByName(movies, movies[i].genre.name) == Sent(200, GenreJson(movies[i].genre))
  {
    var name := movies[i].genre.name;
    var k :| 0 <= k < |movies| && GenreByName(movies, name).payload == GenreJson(movies[k].genre)
      && movies[k].genre.name == name
      && forall j :: 0 <= j < k ==> movies[j].genre.name != name;
    assert k <= i;
  }

  /** The director of any movie in the catalogue can be looked up by name,
      with the same first-copy-wins behaviour as for genres. */
  lemma EmbeddedDirectorIsFound(movies: seq<Movie>, i: nat)
    requires i < |movies|
    ensures DirectorByName(movies, movies[i].director.name).status == 200
    ensures (forall j :: 0 <= j < i ==> movies[j].director.name != movies[i].director.name)
      ==> DirectorByName(movies, movies[i].director.name) == Sent(200, DirectorJson(movies[i].director))
  {
    var name := movies[i].director.name;
    var k :| 0 <= k < |movies| && DirectorByName(movies, name).payload == DirectorJson(movies[k].director)
      && movies[k].director.name == name
      && forall j :: 0 <= j < k ==> movies[j].director.name != name;
    assert k <= i;
  }

  /** On the seeded catalogue, title lookup is case-sensitive. */
  lemma CatalogueTitleLookup()
    ensures MovieByTitle(Catalogue, "Tombstone") == Sent(200, MovieJson(Tombstone))
    ensures MovieByTitle(Catalogue, "tombstone") == Sent(400, Text)
  {
    assert Catalogue[0].title != "Tombstone" && Catalogue[1].title == "Tombstone";
    assert Catalogue[0].title != "tombstone" && Catalogue[1].title != "tombstone";
  }

  /** On the seeded catalogue, a genre no movie has makes the handler throw. */
  lemma CatalogueGenreLookup()
    ensures GenreByName(Catalogue, "Drama") == Sent(200, GenreJson(Tombstone.genre))
    ensures GenreByName(Catalogue, "Comedy") == ServerError
  {
    assert Catalogue[0].genre.name != "Drama" && Catalogue[1].genre.name == "Drama";
    assert Catalogue[0].genre.name != "Comedy" && Catalogue[1].genre.name != "Comedy";
  }

  /** On the seeded catalogue, director lookup is case-sensitive and a miss
      makes the handler throw. */
  lemma CatalogueDirectorLookup()
    ensures DirectorByName(Catalogue, "Jonathan Demme")
      == Sent(200, DirectorJson(SilenceOfTheLambs.director))
    ensures DirectorByName(Catalogue, "jonathan demme") == ServerError
  {
    assert Catalogue[0].director.name == "Jonathan Demme";
    assert Catalogue[0].director.name != "jonathan demme";
    assert Catalogue[1].director.name != "jonathan demme";
  }
}
