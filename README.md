# myFlix API, in-memory version: a verified model

This project models the early myFlix API, an Express server that keeps all
of its state in two module-level arrays of `index.js`: `users` (two seeded
users with ids 1 and 2) and `movies` (two seeded movies). The server offers
these routes:

- POST /users creates a user.
- POST /users/:id/:movieTitle adds a favourite.
- PUT /users/:id renames a user.
- DELETE /users/:id/:movieTitle removes a favourite.
- DELETE /users/:id deletes a user.
- GET /movies, GET /movies/:title, GET /movies/genre/:genreName and
  GET /movies/directors/:directorName read the catalogue.

Modules, leaf first:

- `Js` (js.dfy): the JavaScript semantics the handlers depend on. JSON
  values and their truthiness, `Array.prototype.find` (as `FindIndex`) and
  `Array.prototype.filter` (as `Filter`), with lemmas about `filter`: it
  keeps order, counts copies, is idempotent and removes a lone failing
  element.
- `Movies` (movies.dfy): the movie, genre and director records and the
  seeded catalogue.
- `Users` (users.dfy): user ids and records. Also JavaScript's loose
  `user.id == id` between a stored id and a path parameter, the
  `users.find(...)` lookup, the unique-id invariant and the favourites
  filter.
- `Http` (http.dfy): the response a handler sends. A status with a JSON
  record or plain text, the error middleware's 500, or no response at all.
- `MovieRoutes` (movie_routes.dfy): the four GET routes as functions of the
  catalogue.
- `UserRoutes` (user_routes.dfy): the five user routes as functions from
  `users` to a response and the new `users`, and the lemmas relating them.
- `Api` (api.dfy): the class `Server`. Its field `users` is updated in
  place by one method per user route. Its `movies` is a constant. Each
  method is proved equal to its `UserRoutes` function and to keep ids
  unique.

Behaviour as the code has it, which the model follows:

- Title, genre and director lookups compare with `===`, so they are
  case-sensitive.
- A title miss answers 400.
- A genre or director miss reads `.Genre` or `.Director` of `undefined`.
  That throws, and the error middleware answers 500. The `res.staus` branch
  after it can never run, because a found movie always carries its genre
  and director.
- Adding a favourite answers 201 and keeps duplicates.
- Removing a favourite drops every copy.
- Deleting an unknown user sends no response at all.
- Seeded ids are numbers and path parameters are strings. Under `==`, the
  parameter "01" addresses user 1 just as "1" does.
- A created user whose body had no `favoriteMovies` array can never gain
  or lose favourites. `push` and `filter` throw on it, so those routes
  answer 500.

## Model

| member | source | states |
|---|---|---|
| `Js.Truthy` | index.js:69 | `if (newUser.name)` holds exactly when the name is none of the falsy values: undefined, null, false, 0 and the empty string |
| `Js.FindIndex` | index.js:82 | `find` returns the first element satisfying the callback, and nothing exactly when no element does |
| `Js.Filter` | index.js:174 | `filter` never lengthens the array |
| `Js.FilterMembers` | index.js:174 | `filter` keeps exactly the elements that pass the test |
| `Js.FilterCounts` | index.js:160 | `filter` keeps every copy of a kept value and no copy of a dropped one |
| `Js.FilterConcat` | index.js:160 | `filter` distributes over concatenation, so survivors keep their order |
| `Js.FilterKeepsAllIff` | index.js:160 | `filter` returns the array unchanged if and only if every element passes |
| `Js.FilterIdempotent` | index.js:160 | filtering twice with one test equals filtering once |
| `Js.FilterDropsOne` | index.js:174 | when exactly one element fails, `filter` removes that element and nothing else |
| `Js.FilterShrinks` | index.js:174 | when some element fails, the result is strictly shorter |
| `Users.DecimalRoundTrip` | index.js:17 | ToNumber of a number's decimal spelling gives back the number, so every seeded id is reachable by a path parameter |
| `Users.LooseEquals` | index.js:82 | `user.id == id`: a uuid equals only the identical string. A seeded number equals its decimal spelling, equals only digit strings (or, for 0, the empty string), and a digit string without a leading zero that equals it is its decimal spelling |
| `Users.CanonicalDigits` | index.js:82 | a digit string without a leading zero is the decimal spelling of its value, so distinct such strings name distinct numbers |
| `Users.PaddedParamSameMatch` | index.js:82 | for a parameter of decimal digits, a leading zero addresses the same seeded user |
| `Users.CollideIffSharedParam` | index.js:82 | two ids collide exactly when one path parameter loosely equals both |
| `Users.FirstMatch` | index.js:82 | `users.find(user => user.id == id)` gives the first user whose id loosely equals the parameter, and nothing when none does |
| `Users.FirstMatchIsOnlyMatch` | index.js:171-174 | with unique ids, no user other than the first match is addressed by the parameter |
| `Users.SameIdsSameMatch` | index.js:143-146 | edits that keep every id keep every parameter addressing the same user |
| `Users.FilterKeepsUnique` | index.js:174 | filtering `users` keeps ids unique |
| `Users.WithoutTitle` | index.js:160 | the new favourites contain no copy of the title and every other title they had |
| `Users.WithoutTitleConcat` | index.js:160 | removing a title from a concatenation removes it from each part, so the titles that stay keep their order |
| `Users.WithoutTitleCounts` | index.js:160 | the new favourites hold as many copies of every other title as before, and none of the removed one |
| `Users.WithoutTitleIdempotent` | index.js:160 | removing a title twice equals removing it once |
| `Users.AppendThenRemove` | index.js:85-160 | push then filter gives the list without the title, which equals the original exactly when the title was absent |
| `MovieRoutes.AllMovies` | index.js:98-100 | 200 with the whole catalogue in order, and every listed movie is found by its title |
| `MovieRoutes.MovieByTitle` | index.js:103-112 | 200 with the first movie whose title equals the parameter exactly; 400 with text if and only if no title equals it |
| `MovieRoutes.GenreByName` | index.js:115-124 | 200 with the genre object of the first movie whose genre name equals the parameter; otherwise the error middleware's 500 |
| `MovieRoutes.DirectorByName` | index.js:127-136 | 200 with the director object of the first movie whose director name equals the parameter; otherwise 500 |
| `MovieRoutes.ListedMovieIsFound` | index.js:98-112 | every movie GET /movies lists is found by its title, and is the one returned unless an earlier movie shares the title |
| `MovieRoutes.EmbeddedGenreIsFound` | index.js:115-124 | every movie's genre is found by name; the copy returned is the first movie's with that name |
| `MovieRoutes.EmbeddedDirectorIsFound` | index.js:127-136 | every movie's director is found by name; the copy returned is the first movie's with that name |
| `MovieRoutes.CatalogueTitleLookup` | index.js:105 | on the seeded catalogue "Tombstone" is found and "tombstone" is answered with 400 |
| `MovieRoutes.CatalogueGenreLookup` | index.js:117 | on the seeded catalogue "Drama" gives Tombstone's genre and "Comedy" gives 500 |
| `MovieRoutes.CatalogueDirectorLookup` | index.js:129 | on the seeded catalogue "Jonathan Demme" is found and "jonathan demme" gives 500 |
| `UserRoutes.CreateUser` | index.js:66-76 | with a truthy name, one user carrying the new uuid and the body's fields is appended after the unchanged earlier users and echoed with 201; otherwise 400 and no change |
| `UserRoutes.AddFavorite` | index.js:79-90 | unknown id gives 400 and no change. A target without a favourites array gives 500 and no change. Otherwise only the first matching user changes: the title is appended to the end of its favourites, and the answer is 201 |
| `UserRoutes.Rename` | index.js:139-151 | unknown id gives 400 and no change; otherwise only the first matching user's name changes, to the body's name (undefined included), echoed with 200 |
| `UserRoutes.RemoveFavorite` | index.js:154-165 | unknown id gives 400 and no change. A target without a favourites array gives 500. Otherwise only the first matching user's favourites change, to the list without the title: every copy of the title goes and all other copies stay, in their order. The answer is 200 |
| `UserRoutes.DeleteUser` | index.js:168-177 | unknown id: no response and no change; otherwise 200, fewer users, and the survivors are exactly the users the id does not address |
| `UserRoutes.CreatedUserIsFound` | index.js:69-72 | a user created with a fresh uuid is the first match for that uuid |
| `UserRoutes.CreateKeepsUnique` | index.js:70-71 | creating with a fresh uuid keeps ids unique |
| `UserRoutes.AddFavoriteKeepsIds` | index.js:82-85 | adding a favourite keeps ids unique and keeps every parameter addressing the same user |
| `UserRoutes.RenameKeepsIds` | index.js:143-146 | renaming keeps ids unique and keeps every parameter addressing the same user |
| `UserRoutes.RemoveFavoriteKeepsIds` | index.js:157-160 | removing a favourite keeps ids unique and keeps every parameter addressing the same user |
| `UserRoutes.DeleteRemovesOnlyTheMatch` | index.js:171-174 | deletion keeps ids unique, and with unique ids removes exactly the addressed user, at its position, keeping the order of the rest |
| `UserRoutes.RemoveFavoriteIdempotent` | index.js:157-160 | removing the same favourite twice leaves the same users as removing it once |
| `UserRoutes.AddThenRemove` | index.js:79-165 | add then remove leaves the target's favourites without the title and all else unchanged; `users` is restored exactly when the title was absent before |
| `Api.Server.constructor` | index.js:15-63 | the server starts with the two seeded users and the seeded catalogue, with unique ids |
| `Api.Server.CreateUser` | index.js:66-76 | updates `users` in place as `UserRoutes.CreateUser` says, and keeps ids unique when the uuid is fresh |
| `Api.Server.AddFavorite` | index.js:79-90 | updates `users` in place as `UserRoutes.AddFavorite` says, keeping ids unique |
| `Api.Server.Rename` | index.js:139-151 | updates `users` in place as `UserRoutes.Rename` says, keeping ids unique |
| `Api.Server.RemoveFavorite` | index.js:154-165 | updates `users` in place as `UserRoutes.RemoveFavorite` says, keeping ids unique |
| `Api.Server.DeleteUser` | index.js:168-177 | reassigns `users` as `UserRoutes.DeleteUser` says, keeping ids unique; with unique ids the addressed user is cut out at its position and the rest keep their order |

## Left out

- Express wiring is not modelled: body parsing, morgan logging, static
  files from `public`, `app.listen` and the GET / welcome text. Each handler
  is a function or method from its parameters and body to a response.
- Response texts are not modelled. A plain-text answer is `Text`; a JSON
  answer carries the record it serialises.
- `uuid.v4()` is a source of randomness. Its result is the `newId`
  parameter. Its freshness (`Users.FreshId`) is a hypothesis of the
  lemmas about a created user: `UserRoutes.CreatedUserIsFound`,
  `UserRoutes.CreateKeepsUnique` and `Api.Server.CreateUser`'s unique-id
  clause. A uuid contains hyphens, so it collides with no seeded number.
- Loose equality covers only some parameters. An empty parameter or a
  string of decimal digits compares with a seeded number through its
  ToNumber value. JavaScript also converts white space, a sign, a
  fraction, an exponent and 0x/0o/0b prefixes. The model treats such a
  parameter as different from every seeded number.
- Request bodies carry only `name` and `favoriteMovies`. `POST /users`
  stores and echoes any other field, but no handler reads one.
- An object or array `name` is `Object`, without its contents.
- A favourites array with non-string entries is not modelled.
- Any non-array `favoriteMovies` is treated like an absent one. Both make
  `push` and `filter` throw.
- The free-text movie fields are not carried: Plot, Genre.Description and
  Director.Bio. No handler compares them, but the four GET routes send
  them in their JSON (index.js:99, 108, 120, 132). The modelled payloads
  omit them, so the model does not say what text those responses carry.
- MovieRoutes.GenreByName: without Description a genre is only its name,
  so every genre found by a name equals `Genre(name)`. The "first movie's
  copy wins" part of this contract and of
  `MovieRoutes.EmbeddedGenreIsFound` therefore says nothing for genres.
  In the source two movies may carry different descriptions under one
  genre name, and the first one's is sent.
- Users.PaddedParamSameMatch: it holds only for digit parameters. In
  JavaScript `1 == " 1"` and `1 == "+1"` hold while `1 == "0 1"` and
  `1 == "0+1"` do not; those forms lie outside the model's ToNumber.
- User objects are updated in place in the source. The model replaces the
  element of `users` instead. Nothing else references a user object or its
  favourites array, so no aliasing can be observed.
- Each handler runs to completion on Node's single thread, so the model has
  no interleavings.
- models.js is not part of this model. Its Mongoose schemas and collation
  indexes are configuration for an external database. Its password helpers
  wrap bcrypt.
- UserRoutes.DeleteUser: its contract states which users remain and that
  the list shrinks. The survivors' order is stated by
  `UserRoutes.DeleteRemovesOnlyTheMatch` when ids are unique, and in
  general by `Js.FilterConcat`.
