/** The `Film` entity with its `Mpa` and `Genre` references. */
module Films {
  import opened Results
  import opened Text
  import opened Dates

  /** A content-rating label from the fixed catalogue. */
  datatype Mpa = Mpa(id: int, name: string)

  /** A genre label from the fixed catalogue. */
  datatype Genre = Genre(id: int, name: string)

  /** A film. `name` is nullable; `likes` holds the ids of the users who liked it. */
  datatype Film = Film(
    id: int,
    name: Option<string>,
    description: string,
    releaseDate: Date,
    duration: int,
    rate: int,
    likes: set<int>,
    genres: set<Genre>,
    mpa: Mpa)

  /** The builder: every field can be set except `likes` and `genres`, which are
      final and initialised to empty sets; `mpa` is final and fixed here. */
  function NewFilm(id: int, name: Option<string>, description: string, releaseDate: Date,
                   duration: int, rate: int, mpa: Mpa): (f: Film)
    ensures f.likes == {} && f.genres == {}
    ensures f.id == id && f.name == name && f.description == description
    ensures f.releaseDate == releaseDate && f.duration == duration && f.rate == rate && f.mpa == mpa
  {
    Film(id, name, description, releaseDate, duration, rate, {}, {}, mpa)
  }

  /** The field annotations: `name` is `@NotNull @NotBlank`, `duration` is
      `@Positive`, `rate` is `@PositiveOrZero`. `releaseDate` and `mpa` are
      `@NotNull`, which the types already guarantee. */
  predicate DeclaredConstraints(f: Film) {
    && f.name.Some?
    && !IsBlank(f.name.value)
    && f.duration > 0
    && f.rate >= 0
  }

  /** The annotations read only `name`, `duration` and `rate`. */
  lemma DeclaredConstraintsReadAnnotatedFields(f: Film, g: Film)
    requires f.name == g.name && f.duration == g.duration && f.rate == g.rate
    ensures DeclaredConstraints(f) <==> DeclaredConstraints(g)
  {
  }

  /** Boundaries of the annotations: duration 1 and rate 0 are allowed; duration
      0, rate -1, a missing name and a whitespace-only name are not. */
  lemma DeclaredConstraintsBoundaries(f: Film)
    requires f.name == Some("A")
    ensures DeclaredConstraints(f.(duration := 1, rate := 0))
    ensures !DeclaredConstraints(f.(duration := 0))
    ensures !DeclaredConstraints(f.(rate := -1))
    ensures !DeclaredConstraints(f.(name := None))
    ensures !DeclaredConstraints(f.(name := Some(" \t")))
  {
    assert !IsWhitespace(f.name.value[0]);
  }

  /** The film with `userId` added to its like-set; nothing else changes. */
  function Liked(f: Film, userId: int): (g: Film)
    ensures userId in g.likes
    ensures forall u :: u != userId ==> (u in g.likes <==> u in f.likes)
    ensures g.(likes := f.likes) == f
  {
    f.(likes := f.likes + {userId})
  }

  /** The film with `userId` removed from its like-set; nothing else changes. */
  function Unliked(f: Film, userId: int): (g: Film)
    ensures userId !in g.likes
    ensures forall u :: u != userId ==> (u in g.likes <==> u in f.likes)
    ensures g.(likes := f.likes) == f
  {
    f.(likes := f.likes - {userId})
  }

  /** Liking is idempotent, so the like count only grows on the first like. */
  lemma LikeIdempotent(f: Film, userId: int)
    ensures Liked(Liked(f, userId), userId) == Liked(f, userId)
    ensures |Liked(f, userId).likes| == if userId in f.likes then |f.likes| else |f.likes| + 1
  {
    if userId in f.likes {
      assert f.likes + {userId} == f.likes;
    }
  }

  /** Removing a like the film does not have changes nothing. */
  lemma UnlikeAbsentIsNoOp(f: Film, userId: int)
    requires userId !in f.likes
    ensures Unliked(f, userId) == f
  {
  }

  /** A fresh film liked twice by the same user has exactly one like. */
  lemma FreshFilmLikedTwiceCountsOnce(f: Film, userId: int)
    requires f.likes == {}
    ensures |Liked(Liked(f, userId), userId).likes| == 1
  {
  }
}
