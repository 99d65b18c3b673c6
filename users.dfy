/** The user records kept in the module-level `users` array, how a path
    parameter picks one of them out, and the favourites list. */
module Users {
  import opened Js

  /** A user's `id`. The two seeded users carry the numbers 1 and 2; a user
      created by POST /users carries the uuid string drawn for it. */
  datatype UserId = Seeded(n: nat) | Generated(uuid: string)

  /** A stored user. `favoriteMovies` is None when the property is absent or
      is not an array: `push` and `filter` on it then throw. */
  datatype User = User(id: UserId, name: Value, favoriteMovies: Option<seq<string>>)

  /** The parts of a request body that the handlers read. */
  datatype Body = Body(name: Value, favoriteMovies: Option<seq<string>>)

  const SeedUsers: seq<User> := [
    User(Seeded(1), Str("Jeffrey"), Some([])),
    User(Seeded(2), Str("James"), Some([]))
  ]

  predicate IsDigit(c: char) { '0' <= c <= '9' }

  predicate AllDigits(s: string) { forall i :: 0 <= i < |s| ==> IsDigit(s[i]) }

  function DigitsValue(s: string): nat
    requires AllDigits(s)
  {
    if s == [] then 0
    else 10 * DigitsValue(s[..|s| - 1]) + (s[|s| - 1] as int - '0' as int)
  }

  /** JavaScript's ToNumber of a path parameter, for the forms this model
      covers: the empty string is 0 and a string of decimal digits (leading
      zeros allowed) is its value. Every other string gives None. */
  function NumericValue(s: string): Option<nat>
  {
    if AllDigits(s) then Some(DigitsValue(s)) else None
  }

  /** The shortest decimal spelling of `n`. */
  function Decimal(n: nat): (s: string)
    ensures s != [] && AllDigits(s)
  {
    (if n < 10 then "" else Decimal(n / 10)) + [('0' as int + n % 10) as char]
  }

  /** Reading back the decimal spelling of a number gives the number. */
  lemma {:induction false} DecimalRoundTrip(n: nat)
    ensures NumericValue(Decimal(n)) == Some(n)
  {
    var s := Decimal(n);
    var prefix := if n < 10 then "" else Decimal(n / 10);
    assert s[..|s| - 1] == prefix;
    if n >= 10 {
      DecimalRoundTrip(n / 10);
    }
  }

  /** A leading zero does not change the value of a digit string. */
  lemma {:induction false} LeadingZero(s: string)
    requires AllDigits(s)
    ensures AllDigits("0" + s) && DigitsValue("0" + s) == DigitsValue(s)
  {
    if s != [] {
      var t := "0" + s;
      assert t[..|t| - 1] == "0" + s[..|s| - 1];
      LeadingZero(s[..|s| - 1]);
    }
  }

  /** A digit string without a leading zero is the decimal spelling of its
      value, so two such strings with one value are the same string. */
  lemma {:induction false} CanonicalDigits(s: string)
    requires AllDigits(s) && s != [] && s[0] != '0'
    ensures s == Decimal(DigitsValue(s))
  {
    var p := s[..|s| - 1];
    var n := DigitsValue(s);
    if p != [] {
      CanonicalDigits(p);
      assert DigitsValue(p) != 0;
      assert n / 10 == DigitsValue(p) && n % 10 == s[|s| - 1] as int - '0' as int;
    }
    assert s == p + [s[|s| - 1]];
  }

  /** `user.id == param` under JavaScript's loose equality, `param` being a
      path parameter (always a string): a number equals a string whose
      ToNumber is that number, and two strings are equal when identical. So
      a seeded number is reached by its decimal spelling, with or without
      leading zeros, and by nothing but digits; a uuid only by itself. */
  predicate LooseEquals(id: UserId, param: string): (b: bool)
    ensures id.Generated? ==> (b <==> param == id.uuid)
    ensures id.Seeded? && b ==> param != [] || id.n == 0
    ensures id.Seeded? && b ==> forall k :: 0 <= k < |param| ==> '0' <= param[k] <= '9'
    ensures id.Seeded? && param == Decimal(id.n) ==> b
    ensures id.Seeded? && b && param != [] && param[0] != '0' ==> param == Decimal(id.n)
  {
    match id
    case Seeded(n) =>
      DecimalRoundTrip(n);
      if AllDigits(param) && param != [] && param[0] != '0' then
        CanonicalDigits(param);
        NumericValue(param) == Some(n)
      else
        NumericValue(param) == Some(n)
    case Generated(uuid) => uuid == param
  }

  /** A leading zero on a digit parameter addresses the same seeded user. */
  lemma PaddedParamSameMatch(n: nat, param: string)
    requires AllDigits(param)
    ensures LooseEquals(Seeded(n), "0" + param) <==> LooseEquals(Seeded(n), param)
  {
    LeadingZero(param);
  }

  /** Two ids collide when some path parameter loosely equals both. */
  predicate Collide(a: UserId, b: UserId)
  {
    match a
    case Seeded(m) => (match b
      case Seeded(n) => m == n
      case Generated(v) => NumericValue(v) == Some(m))
    case Generated(u) => (match b
      case Seeded(n) => NumericValue(u) == Some(n)
      case Generated(v) => u == v)
  }

  /** `Collide` is exactly "one path parameter addresses both ids". */
  lemma CollideIffSharedParam(a: UserId, b: UserId)
    ensures Collide(a, b) <==> exists p :: LooseEquals(a, p) && LooseEquals(b, p)
  {
    if Collide(a, b) {
      match a {
        case Seeded(m) =>
          match b {
            case Seeded(n) =>
              DecimalRoundTrip(m);
              assert LooseEquals(a, Decimal(m)) && LooseEquals(b, Decimal(m));
            case Generated(v) =>
              assert LooseEquals(a, v) && LooseEquals(b, v);
          }
        case Generated(u) =>
          assert LooseEquals(a, u) && LooseEquals(b, u);
      }
    }
  }

  /** The callback of `users.find(user => user.id == id)`. */
  function IdIs(param: string): User -> bool
  {
    (u: User) => LooseEquals(u.id, param)
  }

  /** The callback of `users.filter(user => user.id != id)`. */
  function IdIsNot(param: string): User -> bool
  {
    (u: User) => !LooseEquals(u.id, param)
  }

  /** The index of the user that `users.find(user => user.id == param)`
      returns: the first one whose id loosely equals `param`. */
  function FirstMatch(users: seq<User>, param: string): (r: Option<nat>)
    ensures r.Some? ==> r.value < |users| && LooseEquals(users[r.value].id, param)
    ensures r.Some? ==> forall j :: 0 <= j < r.value ==> !LooseEquals(users[j].id, param)
    ensures r.None? <==> forall j :: 0 <= j < |users| ==> !LooseEquals(users[j].id, param)
  {
    FindIndex(users, IdIs(param))
  }

  /** No path parameter addresses two different users. */
  predicate UniqueIds(users: seq<User>)
  {
    forall i, j :: 0 <= i < j < |users| ==> !Collide(users[i].id, users[j].id)
  }

  /** A newly drawn uuid collides with no existing user's id. */
  predicate FreshId(newId: string, users: seq<User>)
  {
    forall i :: 0 <= i < |users| ==> !Collide(users[i].id, Generated(newId))
  }

  /** Among users with unique ids, the first match is the only match. */
  lemma FirstMatchIsOnlyMatch(users: seq<User>, param: string, j: nat)
    requires UniqueIds(users)
    requires FirstMatch(users, param).Some? && j < |users|
    requires j != FirstMatch(users, param).value
    ensures !LooseEquals(users[j].id, param)
  {
  }

  /** Two lists whose ids agree position by position have the same first
      match for every parameter. */
  lemma SameIdsSameMatch(a: seq<User>, b: seq<User>, param: string)
    requires |a| == |b| && forall j :: 0 <= j < |a| ==> a[j].id == b[j].id
    ensures FirstMatch(a, param) == FirstMatch(b, param)
  {
    FindIndexAgrees(a, b, IdIs(param));
  }

  /** Changing fields other than `id` keeps the ids unique. */
  lemma SameIdsKeepUnique(a: seq<User>, b: seq<User>)
    requires |a| == |b| && forall j :: 0 <= j < |a| ==> a[j].id == b[j].id
    requires UniqueIds(a)
    ensures UniqueIds(b)
  {
  }

  /** Filtering users keeps their ids unique. */
  lemma {:induction false} FilterKeepsUnique(users: seq<User>, keep: User -> bool)
    requires UniqueIds(users)
    ensures UniqueIds(Filter(users, keep))
  {
    if users != [] {
      var rest := users[1..];
      assert UniqueIds(rest) by {
        forall i, j | 0 <= i < j < |rest| ensures !Collide(rest[i].id, rest[j].id) {
          assert rest[i] == users[i + 1] && rest[j] == users[j + 1];
        }
      }
      FilterKeepsUnique(rest, keep);
      var tail := Filter(rest, keep);
      FilterMembers(rest, keep);
      if keep(users[0]) {
        var r := Filter(users, keep);
        assert r == [users[0]] + tail;
        forall i, j | 0 <= i < j < |r| ensures !Collide(r[i].id, r[j].id) {
          if i > 0 {
            assert r[i] == tail[i - 1] && r[j] == tail[j - 1];
          } else {
            assert r[j] == tail[j - 1];
            assert tail[j - 1] in rest;
            var k :| 0 <= k < |rest| && rest[k] == tail[j - 1];
            assert users[k + 1] == r[j];
          }
        }
      }
    }
  }

  /** The callback of `favoriteMovies.filter(title => title !== movieTitle)`. */
  function IsNot(title: string): string -> bool
  {
    (t: string) => t != title
  }

  /** The favourites list without any copy of `title`. */
  function WithoutTitle(favs: seq<string>, title: string): (r: seq<string>)
    ensures title !in r
    ensures forall t :: t in r <==> t in favs && t != title
  {
    FilterMembers(favs, IsNot(title));
    Filter(favs, IsNot(title))
  }

  /** Removing `title` keeps every copy of every other title. */
  lemma WithoutTitleCounts(favs: seq<string>, title: string)
    ensures multiset(WithoutTitle(favs, title)) == multiset(favs)[title := 0]
  {
    FilterCounts(favs, IsNot(title));
  }

  /** Removing a title works piece by piece, so the titles that stay keep
      their order. */
  lemma WithoutTitleConcat(a: seq<string>, b: seq<string>, title: string)
    ensures WithoutTitle(a + b, title) == WithoutTitle(a, title) + WithoutTitle(b, title)
  {
    FilterConcat(a, b, IsNot(title));
  }

  /** Removing the same title twice is removing it once. */
  lemma WithoutTitleIdempotent(favs: seq<string>, title: string)
    ensures WithoutTitle(WithoutTitle(favs, title), title) == WithoutTitle(favs, title)
  {
    FilterIdempotent(favs, IsNot(title));
  }

  /** Appending `title` and then removing it gives the list without
      `title`, which is the original list exactly when it did not already
      hold `title`. */
  lemma AppendThenRemove(favs: seq<string>, title: string)
    ensures WithoutTitle(favs + [title], title) == WithoutTitle(favs, title)
    ensures WithoutTitle(favs + [title], title) == favs <==> title !in favs
  {
    FilterConcat(favs, [title], IsNot(title));
    assert Filter([title], IsNot(title)) == [];
    FilterKeepsAllIff(favs, IsNot(title));
  }
}
