/** The server's module-level state and its user handlers, which change that
    state in place. Each handler is proved to do what the matching
    `UserRoutes` function describes, and to keep ids unique. The movie
    routes are the `MovieRoutes` functions applied to `movies`, which is a
    constant: no handler can change it. */
module Api {
  import opened Js
  import opened Movies
  import opened Users
  import opened Http
  import UserRoutes

  class Server {
    var users: seq<User>
    const movies: seq<Movie>

    /** No path parameter addresses two users. */
    ghost predicate Valid()
      reads this
    {
      UniqueIds(users)
    }

    /** The state at start-up: the two seeded users and the seeded catalogue. */
    constructor ()
      ensures users == SeedUsers && movies == Catalogue
      ensures Valid()
    {
      users := SeedUsers;
      movies := Catalogue;
    }

    /** POST /users, with `newId` the value `uuid.v4()` returned. */
    method CreateUser(body: Body, newId: string) returns (r: Response)
      modifies this
      ensures UserRoutes.Step(r, users) == UserRoutes.CreateUser(old(users), body, newId)
      ensures old(Valid()) && FreshId(newId, old(users)) ==> Valid()
    {
      ghost var before := users;
      if Truthy(body.name) {
        var created := User(Generated(newId), body.name, body.favoriteMovies);
        users := users + [created];
        r := Sent(201, UserJson(created));
      } else {
        r := Sent(400, Text);
      }
      if UniqueIds(before) && FreshId(newId, before) {
        UserRoutes.CreateKeepsUnique(before, body, newId);
      }
    }

    /** POST /users/:id/:movieTitle. */
    method AddFavorite(id: string, movieTitle: string) returns (r: Response)
      modifies this
      ensures UserRoutes.Step(r, users) == UserRoutes.AddFavorite(old(users), id, movieTitle)
      ensures old(Valid()) ==> Valid()
    {
      ghost var before := users;
      var found := FirstMatch(users, id);
      if found.None? {
        r := Sent(400, Text);
      } else {
        var user := users[found.value];
        if user.favoriteMovies.None? {
          r := ServerError;
        } else {
          var favs := user.favoriteMovies.value + [movieTitle];
          users := users[found.value := user.(favoriteMovies := Some(favs))];
          r := Sent(201, Text);
        }
      }
      if UniqueIds(before) {
        UserRoutes.AddFavoriteKeepsIds(before, id, movieTitle, id);
      }
    }

    /** PUT /users/:id. */
    method Rename(id: string, body: Body) returns (r: Response)
      modifies this
      ensures UserRoutes.Step(r, users) == UserRoutes.Rename(old(users), id, body)
      ensures old(Valid()) ==> Valid()
    {
      ghost var before := users;
      var found := FirstMatch(users, id);
      if found.None? {
        r := Sent(400, Text);
      } else {
        var user := users[found.value].(name := body.name);
        users := users[found.value := user];
        r := Sent(200, UserJson(user));
      }
      if UniqueIds(before) {
        UserRoutes.RenameKeepsIds(before, id, body, id);
      }
    }

    /** DELETE /users/:id/:movieTitle. */
    method RemoveFavorite(id: string, movieTitle: string) returns (r: Response)
      modifies this
      ensures UserRoutes.Step(r, users) == UserRoutes.RemoveFavorite(old(users), id, movieTitle)
      ensures old(Valid()) ==> Valid()
    {
      ghost var before := users;
      var found := FirstMatch(users, id);
      if found.None? {
        r := Sent(400, Text);
      } else {
        var user := users[found.value];
        if user.favoriteMovies.None? {
          r := ServerError;
        } else {
          var favs := Filter(user.favoriteMovies.value, IsNot(movieTitle));
          users := users[found.value := user.(favoriteMovies := Some(favs))];
          r := Sent(200, Text);
        }
      }
      if UniqueIds(before) {
        UserRoutes.RemoveFavoriteKeepsIds(before, id, movieTitle, id);
      }
    }

    /** DELETE /users/:id. */
    method DeleteUser(id: string) returns (r: Response)
      modifies this
      ensures UserRoutes.Step(r, users) == UserRoutes.DeleteUser(old(users), id)
      ensures old(Valid()) ==> Valid()
      ensures old(Valid()) && FirstMatch(old(users), id).Some? ==>
        var i := FirstMatch(old(users), id).value;
        users == old(users)[..i] + old(users)[i + 1..]
    {
      ghost var before := users;
      var found := FirstMatch(users, id);
      if found.Some? {
        users := Filter(users, IdIsNot(id));
        r := Sent(200, Text);
      } else {
        r := NoResponse;
      }
      if UniqueIds(before) {
        UserRoutes.DeleteRemovesOnlyTheMatch(before, id);
      }
    }
  }

  /** A session against a fresh server: the seeded user 1 is also reached
      by the parameter "01", deleting it leaves user 2 alone, and deleting
      it again gets no answer. */
  method Session()
  {
    var server := new Server();
    assert DigitsValue("0") == 0 && DigitsValue("01") == 1 && DigitsValue("1") == 1;
    assert FirstMatch(server.users, "01") == Some(0);
    var r := server.AddFavorite("01", "Tombstone");
    assert r == Sent(201, Text);
    r := server.DeleteUser("1");
    assert r == Sent(200, Text);
    assert |server.users| == 1 && server.users[0] == SeedUsers[1];
    r := server.DeleteUser("1");
    assert r == NoResponse;
  }
}
