/** `FilmService`: validation of film payloads before they reach the store,
    and the most-popular ranking. */
module FilmService {
  import opened Results
  import opened Text
  import opened Dates
  import opened Errors
  import opened Films
  import opened Rules
  import opened Ranking
  import Store = InMemoryFilmStorage

  /** Longest accepted description, in UTF-16 code units. */
  const MaxDescriptionLength := 200

  /** No film may be released before the first public film screening. */
  const CinemaBirthday := Date(1895, 12, 28)

  /** The film rules, each stated positively. */
  datatype FilmRule = DescriptionFits | ReleasedSinceCinemaBirthday | PositiveDuration | NamePresent

  /** The order in which `validate` checks the rules. */
  const FilmRuleOrder: seq<FilmRule> := [DescriptionFits, ReleasedSinceCinemaBirthday, PositiveDuration, NamePresent]

  predicate Satisfies(f: Film, rule: FilmRule) {
    match rule
    case DescriptionFits => Utf16Length(f.description) <= MaxDescriptionLength
    case ReleasedSinceCinemaBirthday => !Before(f.releaseDate, CinemaBirthday)
    case PositiveDuration => f.duration > 0
    case NamePresent => f.name.Some? && !IsBlank(f.name.value)
  }

  /** The failure reported when `rule` is the first one broken. */
  function FailureOf(rule: FilmRule): ValidationFailure {
    match rule
    case DescriptionFits => DescriptionTooLong
    case ReleasedSinceCinemaBirthday => ReleaseBeforeCinema
    case PositiveDuration => NonPositiveDuration
    case NamePresent => BlankFilmName
  }

  /** `validate`: the film unchanged when every rule holds, otherwise the
      failure of the first broken rule in `FilmRuleOrder`. */
  function Validate(f: Film): (r: Result<Film, Error>)
    ensures r == match FirstFailure(FilmRuleOrder, rule => Satisfies(f, rule))
                 case None => Ok(f)
                 case Some(i) => Err(Validation(FailureOf(FilmRuleOrder[i])))
  {
    if Utf16Length(f.description) > MaxDescriptionLength then Err(Validation(DescriptionTooLong))
    else if Before(f.releaseDate, CinemaBirthday) then Err(Validation(ReleaseBeforeCinema))
    else if f.duration <= 0 then Err(Validation(NonPositiveDuration))
    else if f.name.None? || IsBlank(f.name.value) then Err(Validation(BlankFilmName))
    else Ok(f)
  }

  /** A film passes exactly when it breaks none of the rules. */
  lemma ValidateAcceptsExactly(f: Film)
    ensures Validate(f).Ok? <==> forall rule :: rule in FilmRuleOrder ==> Satisfies(f, rule)
    ensures Validate(f).Ok? ==> Validate(f).value == f
  {
  }

  /** A description over 200 code units is rejected, and that check comes first. */
  lemma DescriptionLimit(f: Film)
    ensures Utf16Length(f.description) > 200 ==> Validate(f) == Err(Validation(DescriptionTooLong))
    ensures Utf16Length(f.description) <= 200 ==> Validate(f) != Err(Validation(DescriptionTooLong))
  {
  }

  /** A release strictly before 1895-12-28 is rejected; that day itself passes
      this check. */
  lemma ReleaseDateLimit(f: Film)
    requires Utf16Length(f.description) <= 200
    ensures Before(f.releaseDate, Date(1895, 12, 28)) <==> Validate(f) == Err(Validation(ReleaseBeforeCinema))
  {
  }

  /** A duration of zero or less is rejected once the earlier checks pass. */
  lemma DurationLimit(f: Film)
    requires Utf16Length(f.description) <= 200 && !Before(f.releaseDate, Date(1895, 12, 28))
    ensures f.duration <= 0 <==> Validate(f) == Err(Validation(NonPositiveDuration))
  {
  }

  /** A missing or blank name is rejected once the earlier checks pass. */
  lemma NameRequired(f: Film)
    requires Utf16Length(f.description) <= 200 && !Before(f.releaseDate, Date(1895, 12, 28)) && f.duration > 0
    ensures (f.name.None? || IsBlank(f.name.value)) <==> Validate(f) == Err(Validation(BlankFilmName))
  {
  }

  /** The boundary films: a 200-unit description and a release on 1895-12-28
      are accepted, a 201-unit description is not. */
  lemma ValidationBoundaries(f: Film)
    requires f.duration > 0 && f.name.Some? && !IsBlank(f.name.value)
    requires f.releaseDate == Date(1895, 12, 28)
    ensures Utf16Length(f.description) == 200 ==> Validate(f) == Ok(f)
    ensures Utf16Length(f.description) == 201 ==> Validate(f) == Err(Validation(DescriptionTooLong))
  {
  }

  /** A passing film meets the annotations on `name` and `duration`. */
  lemma ValidFilmMeetsNameAndDuration(f: Film)
    requires Validate(f).Ok?
    ensures f.name.Some? && !IsBlank(f.name.value) && f.duration > 0
  {
  }

  /** The validator does not check the `@PositiveOrZero` annotation on `rate`:
      a film with a negative rate passes. */
  lemma ValidatorIgnoresRate()
    ensures var f := NewFilm(0, Some("Film"), "", Date(2000, 1, 1), 90, -1, Mpa(1, "G"));
      Validate(f).Ok? && !DeclaredConstraints(f)
  {
    var f := NewFilm(0, Some("Film"), "", Date(2000, 1, 1), 90, -1, Mpa(1, "G"));
    assert !IsWhitespace(f.name.value[0]);
  }

  /** `create`: an invalid film is refused before the store is touched;
      a valid one is stored under the next id. */
  function Create(s: Store.FilmStore, f: Film): (r: (Store.FilmStore, Result<Film, Error>))
    ensures Validate(f).Err? ==> r.0 == s && r.1 == Err(Validate(f).error)
    ensures Validate(f).Ok? ==> r.1.Ok? && r.1.value.id == s.counter && r.1.value.(id := f.id) == f
    ensures Validate(f).Ok? ==> Store.Get(r.0, s.counter) == Ok(r.1.value) && r.0.counter == s.counter + 1
    ensures forall k :: k != s.counter ==> Store.Get(r.0, k) == Store.Get(s, k)
    ensures Store.Valid(s) ==> Store.Valid(r.0)
  {
    match Validate(f)
    case Err(e) => (s, Err(e))
    case Ok(valid) =>
      var (s1, created) := Store.Create(s, valid);
      (s1, Ok(created))
  }

  /** `update`: an invalid film is refused before the store is touched;
      otherwise the store's `update` decides. */
  function Update(s: Store.FilmStore, f: Film): (r: (Store.FilmStore, Result<Film, Error>))
    ensures Validate(f).Err? ==> r.0 == s && r.1 == Err(Validate(f).error)
    ensures Validate(f).Ok? && f.id !in s.films ==> r.0 == s && r.1 == Err(FilmNotFound(f.id))
    ensures Validate(f).Ok? && f.id in s.films ==> r.1 == Ok(f) && Store.Get(r.0, f.id) == Ok(f)
    ensures r.0.counter == s.counter
    ensures forall k :: k != f.id ==> Store.Get(r.0, k) == Store.Get(s, k)
    ensures Store.Valid(s) ==> Store.Valid(r.0)
  {
    match Validate(f)
    case Err(e) => (s, Err(e))
    case Ok(valid) => Store.Update(s, valid)
  }

  /** `findMostPopular(count)`: up to `count` stored films, most liked first,
      none of those left out liked more than one returned. The ghost `ids`
      are the keys the returned films are stored under. A negative `count`
      makes `Stream.limit` in `findMostPopular` throw, hence the precondition. */
  method FindMostPopular(s: Store.FilmStore, count: int) returns (r: seq<Film>, ghost ids: seq<int>)
    requires count >= 0
    ensures |r| == if count < |s.films| then count else |s.films|
    ensures forall i :: 0 <= i < |r| ==> r[i] in s.films.Values
    ensures forall i, j :: 0 <= i < j < |r| ==> |r[i].likes| >= |r[j].likes|
    ensures forall k, i :: k in s.films && s.films[k] !in r && 0 <= i < |r| ==> |s.films[k].likes| <= |r[i].likes|
    ensures IsMostPopular(s.films, count, r, ids)
  {
    var all := StoredIds(s.films);
    var sorted := Sort(Popularity(s.films), all);
    var n := if count < |sorted| then count else |sorted|;
    SortedKeys(s.films, all, sorted);
    PrefixIsMostPopular(s.films, count, sorted);
    r := FilmsAt(s.films, sorted[..n]);
    ids := sorted[..n];
    RankingInFilmTerms(s.films, count, r, ids);
  }
}
