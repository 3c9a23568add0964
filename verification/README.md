# Filmorate core in Dafny

This project models the core of the Filmorate backend. Filmorate is a film-rating service in which users create films and user profiles, like films, and ask for the most popular films. The model covers four parts:

- the `Film` and `User` entities, with their id sets (`likes`, `genres`, `friends`, `likedFilms`) and the small set-mutation helpers on `User`;
- the in-memory stores `InMemoryFilmStorage` and `InMemoryUserStorage`, each a map from id to entity plus an id counter that starts at 1;
- the validators in `FilmService` and `UserService`, which are ordered chains of checks where the first failure decides the error;
- the service operations `create` and `update`, and the popularity ranking `findMostPopular`.

Everything is pure. An entity is an immutable datatype. A store is a value. Every mutating operation returns the new store together with a `Result`, and on failure the returned store is the old one. Java exceptions become `Err` values of `Errors.Error`: a validation failure, film not found, or user not found. A Java `null` name becomes `Option.None`. The current date is a parameter.

Files and modules:

| file | module | models |
|---|---|---|
| results.dfy | `Results` | `Option`, `Result` |
| text.dfy | `Text` | `String.isBlank`, `String.length()` in UTF-16 code units |
| dates.dfy | `Dates` | `LocalDate.isBefore` / `isAfter` |
| errors.dfy | `Errors` | the exception kinds and validation messages |
| rules.dfy | `Rules` | the "first failing check wins" shape shared by both validators |
| films.dfy | `Films` | `Film`, `Mpa`, `Genre`, the like-set updates |
| users.dfy | `Users` | `User`, `addFriend`, `addLikedFilm`, `removeLikedFilm` |
| user_storage.dfy | `InMemoryUserStorage` | the user map and counter |
| film_storage.dfy | `InMemoryFilmStorage` | the film map and counter, likes |
| ranking.dfy | `Ranking` | sorting by like count and the most-popular property |
| film_service.dfy | `FilmService` | film validation, `create`, `update`, `findMostPopular` |
| user_service.dfy | `UserService` | user validation with the name default, `create`, `update` |

Behaviour worth noting, as the code has it:

- The login rule rejects the space character only, not whitespace in general. A login made of a tab passes (`UserService.ValidatorAcceptsBlankLogin`).
- The user checks run in this order: login has no space, name default, email not empty, email has `@`, birthday not after today, login not empty. The empty-login check comes last. Its repeated space test can never fire (`UserService.EmptyLoginCheckedLast`).
- `deleteLike` needs both the film and the user to exist, just like `addLike`. A missing film is reported before a missing user.
- `addLike` and `deleteLike` in the in-memory store change only the film's like-set. `User.likedFilms` is left alone.
- `User.addFriend` is one-directional: it changes one user's set.
- Popularity ties have no defined order. The source sorts the values of a `HashMap`.

## Model

| member | source | states |
|---|---|---|
| Text.Utf16Length | src/main/java/ru/yandex/practicum/filmorate/service/FilmService.java:68 | A description's `length()` is counted in UTF-16 code units: between one and two per character, exactly one per character when every character is in the Basic Multilingual Plane, and for a single character its own code-unit count |
| Text.Utf16LengthConcat | src/main/java/ru/yandex/practicum/filmorate/service/FilmService.java:68 | The code-unit length of a concatenation is the sum of the parts' lengths, so `length()` adds up each character's one or two code units |
| Text.SupplementaryCountsTwo | src/main/java/ru/yandex/practicum/filmorate/service/FilmService.java:68 | A character outside the Basic Multilingual Plane counts as two in `length()`: one such emoji has length 2, and with a letter before it 3 |
| Text.WhitespaceBoundaries | src/main/java/ru/yandex/practicum/filmorate/service/FilmService.java:80 | `isBlank` uses `Character.isWhitespace`: space, TAB, CR, U+001F, U+2028 and U+3000 are whitespace; U+0008, U+000E, U+0085 and the non-breaking spaces U+00A0, U+2007 and U+202F are not |
| Text.BlankConcat | src/main/java/ru/yandex/practicum/filmorate/service/UserService.java:65 | `isBlank` holds for a concatenation exactly when it holds for both parts; the empty string is blank and a non-breaking space is not |
| Dates.BeforeIsStrictTotalOrder | src/main/java/ru/yandex/practicum/filmorate/service/FilmService.java:72 | `isBefore` is irreflexive and transitive, and of two different dates one is before the other |
| Dates.AfterIsNotBeforeNorEqual | src/main/java/ru/yandex/practicum/filmorate/service/UserService.java:76 | `isAfter` holds exactly when the date is neither before the other nor equal to it |
| Rules.FirstFailure | src/main/java/ru/yandex/practicum/filmorate/service/FilmService.java:67-84 | In an ordered chain of checks, the result is the position of a failing check with every earlier check passing, and none exactly when all checks pass |
| Films.NewFilm | src/main/java/ru/yandex/practicum/filmorate/model/Film.java:14-35 | A built film has empty `likes` and `genres` sets and keeps the given id, name, description, release date, duration, rate and mpa |
| Films.Liked | src/main/java/ru/yandex/practicum/filmorate/storage/film/InMemoryFilmStorage.java:59 | After a like, the user is in the like-set, no other id joins or leaves, and no other field changes |
| Films.Unliked | src/main/java/ru/yandex/practicum/filmorate/storage/film/InMemoryFilmStorage.java:67 | After an unlike, the user is not in the like-set, no other id joins or leaves, and no other field changes |
| Films.LikeIdempotent | src/main/java/ru/yandex/practicum/filmorate/model/Film.java:29 | Liking twice equals liking once, and the like count grows by one only if the user had not liked the film |
| Films.UnlikeAbsentIsNoOp | src/main/java/ru/yandex/practicum/filmorate/storage/film/InMemoryFilmStorage.java:67 | Removing a like the film does not have leaves the film unchanged |
| Films.FreshFilmLikedTwiceCountsOnce | src/main/java/ru/yandex/practicum/filmorate/model/Film.java:29 | A film with no likes, liked twice by the same user, has exactly one like |
| Films.DeclaredConstraintsReadAnnotatedFields | src/main/java/ru/yandex/practicum/filmorate/model/Film.java:19-28 | Whether a film meets its annotations (`Films.DeclaredConstraints`) depends only on `name`, `duration` and `rate` |
| Films.DeclaredConstraintsBoundaries | src/main/java/ru/yandex/practicum/filmorate/model/Film.java:19-28 | Under the annotations, duration 1 and rate 0 are allowed. Duration 0, rate -1, a null name and a whitespace-only name are refused |
| Users.DeclaredConstraintsBoundaries | src/main/java/ru/yandex/practicum/filmorate/model/User.java:17-27 | Under the annotations (`Users.DeclaredConstraints`), a birthday equal to today is allowed and one a year later is refused. A blank email and an empty login are refused |
| Users.NewUser | src/main/java/ru/yandex/practicum/filmorate/model/User.java:13-29 | A built user has empty `friends` and `likedFilms` sets and keeps the given id, email, login, name and birthday |
| Users.AddFriend | src/main/java/ru/yandex/practicum/filmorate/model/User.java:31-33 | `addFriend(x)` puts x in this user's friend set, changes no other membership, and changes no other field |
| Users.AddLikedFilm | src/main/java/ru/yandex/practicum/filmorate/model/User.java:35-37 | `addLikedFilm(x)` puts x in `likedFilms`, changes no other membership, and changes no other field |
| Users.RemoveLikedFilm | src/main/java/ru/yandex/practicum/filmorate/model/User.java:39-41 | `removeLikedFilm(x)` takes x out of `likedFilms`, changes no other membership, and changes no other field |
| Users.AddFriendIdempotent | src/main/java/ru/yandex/practicum/filmorate/model/User.java:31-33 | Adding the same friend twice equals adding once |
| Users.RemoveLikedFilmInverse | src/main/java/ru/yandex/practicum/filmorate/model/User.java:35-41 | Removing undoes adding a film that was not liked before; removing an absent film changes nothing |
| InMemoryUserStorage.Get | src/main/java/ru/yandex/practicum/filmorate/storage/user/InMemoryUserStorage.java:37-45 | `get` succeeds exactly for stored ids and returns the stored user; an absent id is user-not-found |
| InMemoryUserStorage.Create | src/main/java/ru/yandex/practicum/filmorate/storage/user/InMemoryUserStorage.java:15-21 | `create` gives the user the counter as id and changes nothing else about it; `get` of that id returns it; other ids read as before; the counter grows by one; on a well-formed store the id was unused and the store stays well-formed |
| InMemoryUserStorage.Update | src/main/java/ru/yandex/practicum/filmorate/storage/user/InMemoryUserStorage.java:23-30 | `update` of an absent id is user-not-found and leaves the store unchanged; a present id gets the new user, and every other id and the counter stay the same |
| InMemoryUserStorage.CreateAllConsecutive | src/main/java/ru/yandex/practicum/filmorate/storage/user/InMemoryUserStorage.java:13-21 | A run of creations hands out consecutive ids from the counter, and afterwards the keys are the old keys plus exactly those ids |
| InMemoryUserStorage.IdsStartAtOne | src/main/java/ru/yandex/practicum/filmorate/storage/user/InMemoryUserStorage.java:13-21 | Starting from a new store, n creations give ids 1..n and the stored keys are exactly 1..n |
| InMemoryFilmStorage.Get | src/main/java/ru/yandex/practicum/filmorate/storage/film/InMemoryFilmStorage.java:47-53 | `get` succeeds exactly for stored ids and returns the stored film; an absent id is film-not-found |
| InMemoryFilmStorage.Create | src/main/java/ru/yandex/practicum/filmorate/storage/film/InMemoryFilmStorage.java:25-31 | `create` gives the film the counter as id and changes nothing else about it; `get` of that id returns it; other ids read as before; the counter grows by one; on a well-formed store the id was unused and the store stays well-formed |
| InMemoryFilmStorage.Update | src/main/java/ru/yandex/practicum/filmorate/storage/film/InMemoryFilmStorage.java:33-40 | `update` of an absent id is film-not-found and leaves the store unchanged; a present id gets the new film, and every other id and the counter stay the same |
| InMemoryFilmStorage.CheckPair | src/main/java/ru/yandex/practicum/filmorate/storage/film/InMemoryFilmStorage.java:56-58 | The like operations' lookups succeed exactly when both the film and the user exist; a missing film is reported before a missing user |
| InMemoryFilmStorage.AddLike | src/main/java/ru/yandex/practicum/filmorate/storage/film/InMemoryFilmStorage.java:55-61 | `addLike` fails, with the store unchanged, unless both the film and the user exist; otherwise only that film's like-set gains the user, and the keys, the counter and every other film stay the same |
| InMemoryFilmStorage.DeleteLike | src/main/java/ru/yandex/practicum/filmorate/storage/film/InMemoryFilmStorage.java:63-69 | `deleteLike` fails, with the store unchanged, unless both the film and the user exist; otherwise only that film's like-set loses the user, and the keys, the counter and every other film stay the same |
| InMemoryFilmStorage.AddLikeIdempotent | src/main/java/ru/yandex/practicum/filmorate/storage/film/InMemoryFilmStorage.java:56-61 | Applying `addLike` twice to the same pair gives the same store and outcome as applying it once |
| InMemoryFilmStorage.DeleteAbsentLikeIsNoOp | src/main/java/ru/yandex/practicum/filmorate/storage/film/InMemoryFilmStorage.java:64-69 | `deleteLike` for a user who has not liked the film leaves the store unchanged |
| InMemoryFilmStorage.LikeThenUnlike | src/main/java/ru/yandex/practicum/filmorate/storage/film/InMemoryFilmStorage.java:56-69 | `addLike` then `deleteLike` on an existing pair leaves the user out of the like-set, leaves the old like-set minus the user, restores the store if the user had not liked the film, and touches no other film |
| InMemoryFilmStorage.CreateAllConsecutive | src/main/java/ru/yandex/practicum/filmorate/storage/film/InMemoryFilmStorage.java:18-31 | A run of creations hands out consecutive ids from the counter, and afterwards the keys are the old keys plus exactly those ids |
| InMemoryFilmStorage.IdsStartAtOne | src/main/java/ru/yandex/practicum/filmorate/storage/film/InMemoryFilmStorage.java:18-31 | Starting from a new store, n creations give ids 1..n and the stored keys are exactly 1..n |
| Ranking.Popularity | src/main/java/ru/yandex/practicum/filmorate/service/FilmService.java:58 | The sort key of a stored film is the size of its like-set |
| Ranking.Insert | src/main/java/ru/yandex/practicum/filmorate/service/FilmService.java:58 | Inserting a key into a most-liked-first sequence keeps it most-liked-first and adds exactly that key |
| Ranking.Sort | src/main/java/ru/yandex/practicum/filmorate/service/FilmService.java:58 | Sorting gives a most-liked-first reordering of the input: the same multiset of keys |
| Ranking.StoredIds | src/main/java/ru/yandex/practicum/filmorate/service/FilmService.java:57 | Listing the store's values visits every stored key exactly once |
| Ranking.FilmsAt | src/main/java/ru/yandex/practicum/filmorate/service/FilmService.java:57-60 | Maps a key sequence to the films stored under those keys, in the same order |
| Ranking.SortedKeys | src/main/java/ru/yandex/practicum/filmorate/service/FilmService.java:57-58 | Sorting the stored keys gives every stored key exactly once, most liked first |
| Ranking.PrefixIsMostPopular | src/main/java/ru/yandex/practicum/filmorate/service/FilmService.java:58-59 | The first `count` entries of that ordering form a most-popular ranking |
| Ranking.RankingOfAllCoversStore | src/main/java/ru/yandex/practicum/filmorate/service/FilmService.java:56-60 | When `count` is at least the number of films, the ranking lists every stored film, so it is a permutation of the store |
| Ranking.RankingInFilmTerms | src/main/java/ru/yandex/practicum/filmorate/service/FilmService.java:56-60 | A ranking consists of stored films, as many as `count` allows, most liked first, and no stored film missing from it has more likes than one in it |
| Ranking.TopTwoOfThree | src/main/java/ru/yandex/practicum/filmorate/service/FilmService.java:56-60 | With films liked 0, 2 and 1 times, every ranking for `count` 2 is the 2-like film and then the 1-like film |
| FilmService.Validate | src/main/java/ru/yandex/practicum/filmorate/service/FilmService.java:67-84 | The validator returns the film unchanged when all four rules hold. Otherwise it reports the failure of the first broken rule, in the order description, release date, duration, name |
| FilmService.ValidateAcceptsExactly | src/main/java/ru/yandex/practicum/filmorate/service/FilmService.java:67-84 | A film passes exactly when it satisfies every rule, and a passing film is returned unchanged |
| FilmService.DescriptionLimit | src/main/java/ru/yandex/practicum/filmorate/service/FilmService.java:68-71 | A description over 200 code units is the error, whatever else is wrong; one of 200 or fewer never gives that error |
| FilmService.ReleaseDateLimit | src/main/java/ru/yandex/practicum/filmorate/service/FilmService.java:72-75 | Once the description fits, the release-date error occurs exactly for dates strictly before 1895-12-28 |
| FilmService.DurationLimit | src/main/java/ru/yandex/practicum/filmorate/service/FilmService.java:76-79 | Once the earlier checks pass, the duration error occurs exactly for a duration of zero or less |
| FilmService.NameRequired | src/main/java/ru/yandex/practicum/filmorate/service/FilmService.java:80-83 | Once the earlier checks pass, the name error occurs exactly for a null or blank name |
| FilmService.ValidationBoundaries | src/main/java/ru/yandex/practicum/filmorate/service/FilmService.java:68-75 | A film released on 1895-12-28 with a 200-unit description is accepted; with a 201-unit description it is rejected for the description |
| FilmService.ValidFilmMeetsNameAndDuration | src/main/java/ru/yandex/practicum/filmorate/model/Film.java:19-26 | A film that passes validation meets the annotations on `name` (not null, not blank) and `duration` (positive) |
| FilmService.ValidatorIgnoresRate | src/main/java/ru/yandex/practicum/filmorate/model/Film.java:27-28 | The validator accepts a film with rate -1, which breaks the `@PositiveOrZero` annotation on `rate` |
| FilmService.Create | src/main/java/ru/yandex/practicum/filmorate/service/FilmService.java:30-33 | An invalid film is rejected with its validation error and the store is unchanged. A valid film is stored under the counter, read back by `get`, and the counter advances. A well-formed store stays well-formed: its counter is at least 1, and every key lies between 1 and the counter and equals its entity's id |
| FilmService.Update | src/main/java/ru/yandex/practicum/filmorate/service/FilmService.java:35-38 | An invalid film is rejected and the store is unchanged. A valid film with an absent id is not-found and the store is unchanged. A valid film with a present id replaces only that entry. The counter never moves. A well-formed store stays well-formed: its counter is at least 1, and every key lies between 1 and the counter and equals its entity's id |
| FilmService.FindMostPopular | src/main/java/ru/yandex/practicum/filmorate/service/FilmService.java:56-61 | Returns min(count, number of films) distinct stored films with non-increasing like counts, and no film left out has more likes than a returned one |
| UserService.WithDefaultName | src/main/java/ru/yandex/practicum/filmorate/service/UserService.java:65-67 | A null or blank name becomes the login; a non-blank name is kept; nothing else changes; with a non-blank login the result's name is non-blank |
| UserService.Validate | src/main/java/ru/yandex/practicum/filmorate/service/UserService.java:60-84 | The validator returns the user with the name default applied when all rules hold. Otherwise it reports the failure of the first broken rule, in the order login space, email empty, email `@`, birthday, login empty |
| UserService.LoginSpaceCheckedFirst | src/main/java/ru/yandex/practicum/filmorate/service/UserService.java:61-64 | A login containing a space is the error, whatever else is wrong |
| UserService.NameDefaultsToLogin | src/main/java/ru/yandex/practicum/filmorate/service/UserService.java:65-67 | On success only the name may change: a null or blank name becomes the login, and otherwise the user is returned unchanged |
| UserService.EmailChecks | src/main/java/ru/yandex/practicum/filmorate/service/UserService.java:68-75 | Once the login has no space, an empty email is rejected, and then a non-empty email without `@` is rejected |
| UserService.BirthdayLimit | src/main/java/ru/yandex/practicum/filmorate/service/UserService.java:76-79 | Once the earlier checks pass, the birthday error occurs exactly for dates after today, and a birthday of today is accepted |
| UserService.EmptyLoginCheckedLast | src/main/java/ru/yandex/practicum/filmorate/service/UserService.java:80-83 | The login error occurs exactly when the login is empty, the email contains `@`, and the birthday is not in the future |
| UserService.ValidUserShape | src/main/java/ru/yandex/practicum/filmorate/service/UserService.java:60-84 | A passing user has a non-empty login without spaces, a non-blank email containing `@`, and a birthday no later than today |
| UserService.ValidatorAcceptsBlankLogin | src/main/java/ru/yandex/practicum/filmorate/model/User.java:21-23 | The validator accepts a tab as login, which the `@NotBlank` annotation on `login` refuses |
| UserService.Create | src/main/java/ru/yandex/practicum/filmorate/service/UserService.java:25-28 | An invalid user is rejected and the store is unchanged. A valid user gets the name default and is stored under the counter, read back by `get`, and the counter advances. A well-formed store stays well-formed: its counter is at least 1, and every key lies between 1 and the counter and equals its entity's id |
| UserService.Update | src/main/java/ru/yandex/practicum/filmorate/service/UserService.java:30-34 | An invalid user is rejected and the store is unchanged. An absent id is not-found and the store is unchanged. Otherwise the validated user, with the name default applied, replaces only that entry and is returned. A well-formed store stays well-formed: its counter is at least 1, and every key lies between 1 and the counter and equals its entity's id |

## Left out

- The JDBC stores (`FilmDb`, `UserDb`, `GenreDb`, `MpaDb`) are not modelled. Their behaviour is SQL run against a database that is not part of this model. The services in the source inject these stores. Here the services run over the in-memory stores instead.
- Friend listing, mutual friends, `addFriend` and `removeFriend` at the store level exist only as SQL in `UserDb`. `InMemoryUserStorage` has no friend operations. The service methods `addFriend`, `removeFriend`, `findFriends` and `findCommonFriends` only delegate to them, so they are not modelled.
- `FilmService.find`, `findAll`, `like` and `unlike`, and `UserService.find` and `findAll`, are one-line delegations. They are modelled by the stores' `Get`, `AddLike` and `DeleteLike`, and by reading the map.
- `getAll` and `findAll` return the stores' live `HashMap`. The model reads the map as a snapshot, so aliasing is not modelled.
- The in-memory stores keep the caller's object, so a later like changes an object the caller still holds. Entities here are values, so that sharing is not modelled.
- On a failed check, `UserService.validate` has already set the name on the argument before it throws. Only the discarded request object sees that change, so the model returns just the error.
- Controllers, `ErrorHandler`, HTTP status codes, logging, and the `count` default of 10 are transport concerns.
- Bean-validation annotations are checked by a library before the services run. They are stated only as the plain predicates `Films.DeclaredConstraints` and `Users.DeclaredConstraints`. The `@Email` format is not modelled.
- A Java `String` can hold an unpaired surrogate. It counts as one code unit and is not whitespace for `isBlank`. A Dafny string cannot hold one, so such names and descriptions are not modelled.
- `LocalDate.now()` is replaced by the `today` parameter.
- Only the `name` fields may be null in the model. A null description, login, email or date makes the source fail on dereference, and that failure is not modelled.
- `User.friends` and `User.likedFilms` are never initialised by the builder in the source. Here they start as empty sets.
- `InMemoryFilmStorage` calls `userStorage.getById`, which `InMemoryUserStorage` does not define. That call is modelled as the user store's `get`.
- Ids are unbounded integers. The wrap-around of the `Long` counter after 2^63 - 1 creations is not modelled.
- `duration` and `rate` are unbounded integers. Only their sign matters to the rules, so the Java `int` range is not modelled.
- `nextId` and `getNextId` in `FilmService` are dead code.
- FilmService.FindMostPopular: says nothing about the order of films with equal like counts, because the source sorts `HashMap` values and that order is not defined. It requires `count >= 0`, because `Stream.limit` throws for a negative count.
- `Genre` and `Mpa` ids are not checked against their catalogues. That check happens outside the core.
