/** The `User` entity and its set-mutation helpers. */
module Users {
  import opened Results
  import opened Text
  import opened Dates

  /** A user. `name` is nullable; `friends` and `likedFilms` are id sets. */
  datatype User = User(
    id: int,
    email: string,
    login: string,
    name: Option<string>,
    birthday: Date,
    friends: set<int>,
    likedFilms: set<int>)

  /** The builder. The id sets start empty. */
  function NewUser(id: int, email: string, login: string, name: Option<string>, birthday: Date): (u: User)
    ensures u.friends == {} && u.likedFilms == {}
    ensures u.id == id && u.email == email && u.login == login && u.name == name && u.birthday == birthday
  {
    User(id, email, login, name, birthday, {}, {})
  }

  /** The field annotations relative to the current date: `email` and `login`
      are `@NotNull @NotBlank` and `birthday` is `@PastOrPresent`. The `@Email`
      format check is not part of this predicate. */
  predicate DeclaredConstraints(u: User, today: Date) {
    && !IsBlank(u.email)
    && !IsBlank(u.login)
    && !After(u.birthday, today)
  }

  /** Boundaries of the annotations: a birthday of today is allowed, one a
      year later is not, and neither is a blank email or an empty login. */
  lemma DeclaredConstraintsBoundaries(u: User, today: Date)
    requires u.email == "a@b" && u.login == "a"
    ensures DeclaredConstraints(u.(birthday := today), today)
    ensures !DeclaredConstraints(u.(birthday := Date(today.year + 1, today.month, today.day)), today)
    ensures !DeclaredConstraints(u.(email := " "), today)
    ensures !DeclaredConstraints(u.(login := ""), today)
  {
    assert !IsWhitespace(u.email[0]) && !IsWhitespace(u.login[0]);
  }

  /** `addFriend`: inserts `friendId` into this user's friend set only. */
  function AddFriend(u: User, friendId: int): (v: User)
    ensures friendId in v.friends
    ensures forall x :: x != friendId ==> (x in v.friends <==> x in u.friends)
    ensures v.(friends := u.friends) == u
  {
    u.(friends := u.friends + {friendId})
  }

  /** `addLikedFilm`: inserts `filmId` into this user's liked-film set only. */
  function AddLikedFilm(u: User, filmId: int): (v: User)
    ensures filmId in v.likedFilms
    ensures forall x :: x != filmId ==> (x in v.likedFilms <==> x in u.likedFilms)
    ensures v.(likedFilms := u.likedFilms) == u
  {
    u.(likedFilms := u.likedFilms + {filmId})
  }

  /** `removeLikedFilm`: removes `filmId` from this user's liked-film set only. */
  function RemoveLikedFilm(u: User, filmId: int): (v: User)
    ensures filmId !in v.likedFilms
    ensures forall x :: x != filmId ==> (x in v.likedFilms <==> x in u.likedFilms)
    ensures v.(likedFilms := u.likedFilms) == u
  {
    u.(likedFilms := u.likedFilms - {filmId})
  }

  /** Adding a friend twice is the same as adding once. */
  lemma AddFriendIdempotent(u: User, friendId: int)
    ensures AddFriend(AddFriend(u, friendId), friendId) == AddFriend(u, friendId)
  {
  }

  /** Removing a liked film undoes adding it when it was not liked before, and
      removing an absent id changes nothing. */
  lemma RemoveLikedFilmInverse(u: User, filmId: int)
    ensures filmId !in u.likedFilms ==> RemoveLikedFilm(AddLikedFilm(u, filmId), filmId) == u
    ensures filmId !in u.likedFilms ==> RemoveLikedFilm(u, filmId) == u
  {
  }
}
