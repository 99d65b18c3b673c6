/** The user routes as functions from the `users` array before a request to
    the response and the array after it. `Api.Server` runs the same steps
    in place and is proved equal to these. */
module UserRoutes {
  import opened Js
  import opened Users
  import opened Http

  datatype Step = Step(response: Response, users: seq<User>)

  /** Only the user at index `i` may differ between `before` and `after`. */
  predicate OthersUnchanged(before: seq<User>, after: seq<User>, i: nat)
  {
    |after| == |before| && forall j :: 0 <= j < |before| && j != i ==> after[j] == before[j]
  }

  /** POST /users: a body with a truthy `name` becomes a new user with the
      drawn uuid as its id, appended at the end and echoed with 201; any
      other body is refused with 400 and nothing changes. */
  function CreateUser(users: seq<User>, body: Body, newId: string): (s: Step)
    ensures !Truthy(body.name) ==> s == Step(Sent(400, Text), users)
    ensures Truthy(body.name) ==> (
      && |s.users| == |users| + 1
      && s.users[..|users|] == users
      && s.users[|users|] == User(Generated(newId), body.name, body.favoriteMovies)
      && s.response == Sent(201, UserJson(s.users[|users|])))
  {
    if Truthy(body.name) then
      var created := User(Generated(newId), body.name, body.favoriteMovies);
      Step(Sent(201, UserJson(created)), users + [created])
    else
      Step(Sent(400, Text), users)
  }

  /** POST /users/:id/:movieTitle: the first user whose id loosely equals
      `id` gets `title` pushed on the end of its favourites, even when it is
      already there, and the answer is 201. An unknown id is 400; a user
      without a favourites array makes `push` throw, so 500. Either failure
      leaves `users` as it was. */
  function AddFavorite(users: seq<User>, id: string, title: string): (s: Step)
    ensures FirstMatch(users, id).None? ==> s == Step(Sent(400, Text), users)
    ensures FirstMatch(users, id).Some? ==> (
      var i := FirstMatch(users, id).value;
      && (users[i].favoriteMovies.None? ==> s == Step(ServerError, users))
      && (users[i].favoriteMovies.Some? ==> (
        && s.response == Sent(201, Text)
        && OthersUnchanged(users, s.users, i)
        && s.users[i].id == users[i].id
        && s.users[i].name == users[i].name
        && s.users[i].favoriteMovies == Some(users[i].favoriteMovies.value + [title]))))
  {
    match FirstMatch(users, id)
    case None => Step(Sent(400, Text), users)
    case Some(i) =>
      match users[i].favoriteMovies
      case None => Step(ServerError, users)
      case Some(favs) =>
        Step(Sent(201, Text), users[i := users[i].(favoriteMovies := Some(favs + [title]))])
  }

  /** PUT /users/:id: the first user whose id loosely equals `id` takes the
      body's `name`, undefined included, and is echoed with 200. Its id and
      favourites and every other user stay as they were. An unknown id is
      400 with no change. */
  function Rename(users: seq<User>, id: string, body: Body): (s: Step)
    ensures FirstMatch(users, id).None? ==> s == Step(Sent(400, Text), users)
    ensures FirstMatch(users, id).Some? ==> (
      var i := FirstMatch(users, id).value;
      && OthersUnchanged(users, s.users, i)
      && s.users[i].id == users[i].id
      && s.users[i].favoriteMovies == users[i].favoriteMovies
      && s.users[i].name == body.name
      && s.response == Sent(200, UserJson(s.users[i])))
  {
    match FirstMatch(users, id)
    case None => Step(Sent(400, Text), users)
    case Some(i) =>
      var renamed := users[i].(name := body.name);
      Step(Sent(200, UserJson(renamed)), users[i := renamed])
  }

  /** DELETE /users/:id/:movieTitle: the first user whose id loosely equals
      `id` keeps every favourite other than `title`, in order (see
      `Users.WithoutTitleConcat`), and the answer
      is 200. An unknown id is 400; a user without a favourites array makes
      `filter` throw, so 500. Either failure leaves `users` as it was. */
  function RemoveFavorite(users: seq<User>, id: string, title: string): (s: Step)
    ensures FirstMatch(users, id).None? ==> s == Step(Sent(400, Text), users)
    ensures FirstMatch(users, id).Some? ==> (
      var i := FirstMatch(users, id).value;
      && (users[i].favoriteMovies.None? ==> s == Step(ServerError, users))
      && (users[i].favoriteMovies.Some? ==> (
        && s.response == Sent(200, Text)
        && OthersUnchanged(users, s.users, i)
        && s.users[i].id == users[i].id
        && s.users[i].name == users[i].name
        && s.users[i].favoriteMovies == Some(WithoutTitle(users[i].favoriteMovies.value, title))
        && title !in s.users[i].favoriteMovies.value
        && multiset(s.users[i].favoriteMovies.value)
           == multiset(users[i].favoriteMovies.value)[title := 0])))
  {
    match FirstMatch(users, id)
    case None => Step(Sent(400, Text), users)
    case Some(i) =>
      match users[i].favoriteMovies
      case None => Step(ServerError, users)
      case Some(favs) =>
        WithoutTitleCounts(favs, title);
        Step(Sent(200, Text), users[i := users[i].(favoriteMovies := Some(WithoutTitle(favs, title)))])
  }

  /** DELETE /users/:id: when some user's id loosely equals `id`, every such
      user is removed (`filter` with `!=`), the others keep their order, and
      the answer is 200. When none does, the handler never answers and
      `users` is unchanged. */
  function DeleteUser(users: seq<User>, id: string): (s: Step)
    ensures FirstMatch(users, id).None? ==> s == Step(NoResponse, users)
    ensures FirstMatch(users, id).Some? ==> (
      && s.response == Sent(200, Text)
      && |s.users| < |users|
      && forall u :: u in s.users <==> u in users && !LooseEquals(u.id, id))
  {
    match FirstMatch(users, id)
    case None => Step(NoResponse, users)
    case Some(i) =>
      FilterShrinks(users, IdIsNot(id), i);
      FilterMembers(users, IdIsNot(id));
      Step(Sent(200, Text), Filter(users, IdIsNot(id)))
  }

  /** A created user can be addressed by the id it was given: the first
      match for that id is the new, last user. */
  lemma CreatedUserIsFound(users: seq<User>, body: Body, newId: string)
    requires Truthy(body.name) && FreshId(newId, users)
    ensures FirstMatch(CreateUser(users, body, newId).users, newId) == Some(|users|)
  {
    var after := CreateUser(users, body, newId).users;
    forall j | 0 <= j < |users| ensures !LooseEquals(after[j].id, newId) {
      assert after[j] == users[j];
      CollideIffSharedParam(users[j].id, Generated(newId));
    }
  }

  /** Creating a user with a fresh uuid keeps ids unique. */
  lemma CreateKeepsUnique(users: seq<User>, body: Body, newId: string)
    requires UniqueIds(users) && FreshId(newId, users)
    ensures UniqueIds(CreateUser(users, body, newId).users)
  {
    var after := CreateUser(users, body, newId).users;
    if Truthy(body.name) {
      forall i, j | 0 <= i < j < |after| ensures !Collide(after[i].id, after[j].id) {
        assert after[i] == users[i];
        if j < |users| {
          assert after[j] == users[j];
        }
      }
    }
  }

  /** Adding a favourite never touches an id, so it keeps ids unique and
      keeps every parameter addressing the same user. */
  lemma AddFavoriteKeepsIds(users: seq<User>, id: string, title: string, param: string)
    requires UniqueIds(users)
    ensures UniqueIds(AddFavorite(users, id, title).users)
    ensures FirstMatch(AddFavorite(users, id, title).users, param) == FirstMatch(users, param)
  {
    var after := AddFavorite(users, id, title).users;
    assert forall j :: 0 <= j < |users| ==> after[j].id == users[j].id;
    SameIdsKeepUnique(users, after);
    SameIdsSameMatch(after, users, param);
  }

  /** Renaming never touches an id, so it keeps ids unique and keeps every
      parameter addressing the same user. */
  lemma RenameKeepsIds(users: seq<User>, id: string, body: Body, param: string)
    requires UniqueIds(users)
    ensures UniqueIds(Rename(users, id, body).users)
    ensures FirstMatch(Rename(users, id, body).users, param) == FirstMatch(users, param)
  {
    var after := Rename(users, id, body).users;
    assert forall j :: 0 <= j < |users| ==> after[j].id == users[j].id;
    SameIdsKeepUnique(users, after);
    SameIdsSameMatch(after, users, param);
  }

  /** Removing a favourite never touches an id, so it keeps ids unique and
      keeps every parameter addressing the same user. */
  lemma RemoveFavoriteKeepsIds(users: seq<User>, id: string, title: string, param: string)
    requires UniqueIds(users)
    ensures UniqueIds(RemoveFavorite(users, id, title).users)
    ensures FirstMatch(RemoveFavorite(users, id, title).users, param) == FirstMatch(users, param)
  {
    var after := RemoveFavorite(users, id, title).users;
    assert forall j :: 0 <= j < |users| ==> after[j].id == users[j].id;
    SameIdsKeepUnique(users, after);
    SameIdsSameMatch(after, users, param);
  }

  /** Deleting keeps ids unique. With unique ids it removes exactly the one
      user the id addresses, at its position. */
  lemma DeleteRemovesOnlyTheMatch(users: seq<User>, id: string)
    requires UniqueIds(users)
    ensures UniqueIds(DeleteUser(users, id).users)
    ensures FirstMatch(users, id).Some? ==> (
      var i := FirstMatch(users, id).value;
      DeleteUser(users, id).users == users[..i] + users[i + 1..])
  {
    FilterKeepsUnique(users, IdIsNot(id));
    match FirstMatch(users, id)
    case None =>
    case Some(i) =>
      forall j | 0 <= j < |users| && j != i ensures IdIsNot(id)(users[j]) {
        FirstMatchIsOnlyMatch(users, id, j);
      }
      FilterDropsOne(users, IdIsNot(id), i);
  }

  /** Removing the same favourite twice is removing it once. */
  lemma RemoveFavoriteIdempotent(users: seq<User>, id: string, title: string)
    ensures var once := RemoveFavorite(users, id, title).users;
      RemoveFavorite(once, id, title).users == once
  {
    var once := RemoveFavorite(users, id, title).users;
    assert forall j :: 0 <= j < |users| ==> once[j].id == users[j].id;
    SameIdsSameMatch(once, users, id);
    match FirstMatch(users, id)
    case None =>
    case Some(i) =>
      match users[i].favoriteMovies
      case None =>
      case Some(favs) =>
        WithoutTitleIdempotent(favs, title);
        var twice := RemoveFavorite(once, id, title).users;
        assert twice[i] == once[i];
        assert twice == once;
  }

  /** Adding `title` and then removing it leaves that user's favourites
      without `title` and everything else as it was; this restores the
      original `users` exactly when the list did not already hold `title`. */
  lemma AddThenRemove(users: seq<User>, id: string, title: string)
    requires FirstMatch(users, id).Some?
    requires users[FirstMatch(users, id).value].favoriteMovies.Some?
    ensures var i := FirstMatch(users, id).value;
      var favs := users[i].favoriteMovies.value;
      var after := RemoveFavorite(AddFavorite(users, id, title).users, id, title).users;
      && after == users[i := users[i].(favoriteMovies := Some(WithoutTitle(favs, title)))]
      && (after == users <==> title !in favs)
  {
    var i := FirstMatch(users, id).value;
    var favs := users[i].favoriteMovies.value;
    var added := AddFavorite(users, id, title).users;
    assert forall j :: 0 <= j < |users| ==> added[j].id == users[j].id;
    SameIdsSameMatch(added, users, id);
    AppendThenRemove(favs, title);
    var after := RemoveFavorite(added, id, title).users;
    assert after == users[i := users[i].(favoriteMovies := Some(WithoutTitle(favs, title)))];
    if after == users {
      assert WithoutTitle(favs, title) == favs by { assert after[i] == users[i]; }
    }
  }
}
