/** `InMemoryFilmStorage`: a map from id to film plus an id counter starting at
    1. Likes are checked against the user store, which is passed in. */
module InMemoryFilmStorage {
  import opened Results
  import opened Errors
  import opened Films
  import InMemoryUserStorage

  datatype FilmStore = FilmStore(films: map<int, Film>, counter: int)

  /** A freshly constructed store. */
  const Empty: FilmStore := FilmStore(map[], 1)

  /** What every reachable store satisfies: ids are below the counter, start at
      1, and each film is filed under its own id. */
  ghost predicate Valid(s: FilmStore) {
    && s.counter >= 1
    && forall k :: k in s.films ==> 1 <= k < s.counter && s.films[k].id == k
  }

  /** `get`: the film stored under `id`, or not-found. */
  function Get(s: FilmStore, id: int): (r: Result<Film, Error>)
    ensures r.Ok? <==> id in s.films
    ensures r.Ok? ==> r.value == s.films[id] && r.value in s.films.Values
    ensures r.Err? ==> r.error == FilmNotFound(id)
  {
    if id in s.films then Ok(s.films[id]) else Err(FilmNotFound(id))
  }

  /** `create`: the film gets the counter as its id, is stored, and the counter
      advances. Creation never fails and never reuses an id. */
  function Create(s: FilmStore, film: Film): (r: (FilmStore, Film))
    ensures r.1.id == s.counter && r.1.(id := film.id) == film
    ensures r.0.counter == s.counter + 1
    ensures Get(r.0, r.1.id) == Ok(r.1)
    ensures forall k :: k != r.1.id ==> Get(r.0, k) == Get(s, k)
    ensures Valid(s) ==> Valid(r.0) && r.1.id !in s.films
  {
    var created := film.(id := s.counter);
    (FilmStore(s.films[s.counter := created], s.counter + 1), created)
  }

  /** `update`: not-found if the film's id is absent, leaving the store as it
      was; otherwise that one entry is replaced and the counter stays. */
  function Update(s: FilmStore, film: Film): (r: (FilmStore, Result<Film, Error>))
    ensures film.id !in s.films ==> r.0 == s && r.1 == Err(FilmNotFound(film.id))
    ensures film.id in s.films ==> r.1 == Ok(film)
    ensures film.id in s.films ==> Get(r.0, film.id) == Ok(film) && r.0.counter == s.counter
    ensures forall k :: k != film.id ==> Get(r.0, k) == Get(s, k)
    ensures Valid(s) ==> Valid(r.0)
  {
    if film.id !in s.films then (s, Err(FilmNotFound(film.id)))
    else (s.(films := s.films[film.id := film]), Ok(film))
  }

  /** The lookups `addLike` and `deleteLike` perform before changing anything:
      the film first, then the user. */
  function CheckPair(s: FilmStore, users: InMemoryUserStorage.UserStore, filmId: int, userId: int): (r: Result<Film, Error>)
    ensures r.Ok? <==> filmId in s.films && userId in users.users
    ensures filmId !in s.films ==> r == Err(FilmNotFound(filmId))
    ensures filmId in s.films && userId !in users.users ==> r == Err(UserNotFound(userId))
    ensures r.Ok? ==> r.value == s.films[filmId]
  {
    match Get(s, filmId)
    case Err(e) => Err(e)
    case Ok(film) =>
      match InMemoryUserStorage.Get(users, userId)
      case Err(e) => Err(e)
      case Ok(_) => Ok(film)
  }

  /** `addLike`: when both the film and the user exist, `userId` joins that
      film's like-set and nothing else in the store changes; otherwise the
      store is left as it was. */
  function AddLike(s: FilmStore, users: InMemoryUserStorage.UserStore, filmId: int, userId: int): (r: (FilmStore, Result<(), Error>))
    ensures r.1 == CheckPair(s, users, filmId, userId).MapOk()
    ensures r.1.Err? ==> r.0 == s
    ensures r.1.Ok? ==> r.0.counter == s.counter && r.0.films.Keys == s.films.Keys
    ensures r.1.Ok? ==> r.0.films[filmId] == Liked(s.films[filmId], userId)
    ensures forall k :: k != filmId ==> Get(r.0, k) == Get(s, k)
    ensures Valid(s) ==> Valid(r.0)
  {
    match CheckPair(s, users, filmId, userId)
    case Err(e) => (s, Err(e))
    case Ok(film) => (s.(films := s.films[filmId := Liked(film, userId)]), Ok(()))
  }

  /** `deleteLike`: when both the film and the user exist, `userId` leaves
      that film's like-set and nothing else in the store changes; otherwise the
      store is left as it was. */
  function DeleteLike(s: FilmStore, users: InMemoryUserStorage.UserStore, filmId: int, userId: int): (r: (FilmStore, Result<(), Error>))
    ensures r.1 == CheckPair(s, users, filmId, userId).MapOk()
    ensures r.1.Err? ==> r.0 == s
    ensures r.1.Ok? ==> r.0.counter == s.counter && r.0.films.Keys == s.films.Keys
    ensures r.1.Ok? ==> r.0.films[filmId] == Unliked(s.films[filmId], userId)
    ensures forall k :: k != filmId ==> Get(r.0, k) == Get(s, k)
    ensures Valid(s) ==> Valid(r.0)
  {
    match CheckPair(s, users, filmId, userId)
    case Err(e) => (s, Err(e))
    case Ok(film) => (s.(films := s.films[filmId := Unliked(film, userId)]), Ok(()))
  }

  /** Liking twice is the same as liking once. */
  lemma AddLikeIdempotent(s: FilmStore, users: InMemoryUserStorage.UserStore, filmId: int, userId: int)
    ensures AddLike(AddLike(s, users, filmId, userId).0, users, filmId, userId) == AddLike(s, users, filmId, userId)
  {
    var (s1, r1) := AddLike(s, users, filmId, userId);
    if r1.Ok? {
      LikeIdempotent(s.films[filmId], userId);
      assert s1.films[filmId := Liked(s1.films[filmId], userId)] == s1.films;
    }
  }

  /** Removing a like that is not there leaves the store as it was. */
  lemma DeleteAbsentLikeIsNoOp(s: FilmStore, users: InMemoryUserStorage.UserStore, filmId: int, userId: int)
    requires filmId in s.films && userId !in s.films[filmId].likes
    ensures DeleteLike(s, users, filmId, userId).0 == s
  {
    if CheckPair(s, users, filmId, userId).Ok? {
      UnlikeAbsentIsNoOp(s.films[filmId], userId);
      assert s.films[filmId := s.films[filmId]] == s.films;
    }
  }

  /** A like followed by an unlike of the same pair leaves the user out of the
      like-set, restores a like-set that did not hold the user, and touches no
      other film. */
  lemma LikeThenUnlike(s: FilmStore, users: InMemoryUserStorage.UserStore, filmId: int, userId: int)
    requires filmId in s.films && userId in users.users
    ensures var s2 := DeleteLike(AddLike(s, users, filmId, userId).0, users, filmId, userId).0;
      && userId !in s2.films[filmId].likes
      && s2.films[filmId].likes == s.films[filmId].likes - {userId}
      && (userId !in s.films[filmId].likes ==> s2 == s)
      && forall k :: k != filmId ==> Get(s2, k) == Get(s, k)
  {
  }

  /** Creates the films in order, returning the final store and the ids given. */
  function CreateAll(s: FilmStore, films: seq<Film>): (r: (FilmStore, seq<int>))
    decreases |films|
  {
    if films == [] then (s, [])
    else
      var (s1, created) := Create(s, films[0]);
      var (s2, ids) := CreateAll(s1, films[1..]);
      (s2, [created.id] + ids)
  }

  /** Ids are handed out consecutively from the counter, and the keys after
      the run are the old keys plus exactly those ids. */
  lemma {:induction false} CreateAllConsecutive(s: FilmStore, films: seq<Film>)
    ensures |CreateAll(s, films).1| == |films|
    ensures forall i :: 0 <= i < |films| ==> CreateAll(s, films).1[i] == s.counter + i
    ensures CreateAll(s, films).0.counter == s.counter + |films|
    ensures forall k :: k in CreateAll(s, films).0.films <==> k in s.films || s.counter <= k < s.counter + |films|
    decreases |films|
  {
    if films != [] {
      var (s1, created) := Create(s, films[0]);
      CreateAllConsecutive(s1, films[1..]);
      assert s1.films.Keys == s.films.Keys + {s.counter};
    }
  }

  /** From a fresh store, n creations give ids 1, 2, ..., n and leave exactly those keys. */
  lemma IdsStartAtOne(films: seq<Film>)
    ensures |CreateAll(Empty, films).1| == |films|
    ensures forall i :: 0 <= i < |films| ==> CreateAll(Empty, films).1[i] == i + 1
    ensures forall k :: k in CreateAll(Empty, films).0.films <==> 1 <= k <= |films|
  {
    CreateAllConsecutive(Empty, films);
  }
}
