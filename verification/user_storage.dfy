/** `InMemoryUserStorage`: a map from id to user plus an id counter starting at 1. */
module InMemoryUserStorage {
  import opened Results
  import opened Errors
  import opened Users

  datatype UserStore = UserStore(users: map<int, User>, counter: int)

  /** A freshly constructed store. */
  const Empty: UserStore := UserStore(map[], 1)

  /** What every reachable store satisfies: ids are below the counter, start at
      1, and each user is filed under its own id. */
  ghost predicate Valid(s: UserStore) {
    && s.counter >= 1
    && forall k :: k in s.users ==> 1 <= k < s.counter && s.users[k].id == k
  }

  /** `get`: the user stored under `id`, or not-found. */
  function Get(s: UserStore, id: int): (r: Result<User, Error>)
    ensures r.Ok? <==> id in s.users
    ensures r.Ok? ==> r.value == s.users[id] && r.value in s.users.Values
    ensures r.Err? ==> r.error == UserNotFound(id)
  {
    if id in s.users then Ok(s.users[id]) else Err(UserNotFound(id))
  }

  /** `create`: the user gets the counter as its id, is stored, and the counter
      advances. Creation never fails and never reuses an id. */
  function Create(s: UserStore, user: User): (r: (UserStore, User))
    ensures r.1.id == s.counter && r.1.(id := user.id) == user
    ensures r.0.counter == s.counter + 1
    ensures Get(r.0, r.1.id) == Ok(r.1)
    ensures forall k :: k != r.1.id ==> Get(r.0, k) == Get(s, k)
    ensures Valid(s) ==> Valid(r.0) && r.1.id !in s.users
  {
    var created := user.(id := s.counter);
    (UserStore(s.users[s.counter := created], s.counter + 1), created)
  }

  /** `update`: not-found if the user's id is absent, leaving the store as it
      was; otherwise that one entry is replaced and the counter stays. */
  function Update(s: UserStore, user: User): (r: (UserStore, Result<User, Error>))
    ensures user.id !in s.users ==> r.0 == s && r.1 == Err(UserNotFound(user.id))
    ensures user.id in s.users ==> r.1 == Ok(user)
    ensures user.id in s.users ==> Get(r.0, user.id) == Ok(user) && r.0.counter == s.counter
    ensures forall k :: k != user.id ==> Get(r.0, k) == Get(s, k)
    ensures Valid(s) ==> Valid(r.0)
  {
    if user.id !in s.users then (s, Err(UserNotFound(user.id)))
    else (s.(users := s.users[user.id := user]), Ok(user))
  }

  /** Creates the users in order, returning the final store and the ids given. */
  function CreateAll(s: UserStore, users: seq<User>): (r: (UserStore, seq<int>))
    decreases |users|
  {
    if users == [] then (s, [])
    else
      var (s1, created) := Create(s, users[0]);
      var (s2, ids) := CreateAll(s1, users[1..]);
      (s2, [created.id] + ids)
  }

  /** Ids are handed out consecutively from the counter, and the keys after
      the run are the old keys plus exactly those ids. */
  lemma {:induction false} CreateAllConsecutive(s: UserStore, users: seq<User>)
    ensures |CreateAll(s, users).1| == |users|
    ensures forall i :: 0 <= i < |users| ==> CreateAll(s, users).1[i] == s.counter + i
    ensures CreateAll(s, users).0.counter == s.counter + |users|
    ensures forall k :: k in CreateAll(s, users).0.users <==> k in s.users || s.counter <= k < s.counter + |users|
    decreases |users|
  {
    if users != [] {
      var (s1, created) := Create(s, users[0]);
      CreateAllConsecutive(s1, users[1..]);
      assert s1.users.Keys == s.users.Keys + {s.counter};
    }
  }

  /** From a fresh store, n creations give ids 1, 2, ..., n and leave exactly those keys. */
  lemma IdsStartAtOne(users: seq<User>)
    ensures |CreateAll(Empty, users).1| == |users|
    ensures forall i :: 0 <= i < |users| ==> CreateAll(Empty, users).1[i] == i + 1
    ensures forall k :: k in CreateAll(Empty, users).0.users <==> 1 <= k <= |users|
  {
    CreateAllConsecutive(Empty, users);
  }
}
