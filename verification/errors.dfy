/** The two kinds of failure the core signals: a rejected payload and a missing id. */
module Errors {

  /** Which validation rule rejected a payload (the messages of `ValidationException`). */
  datatype ValidationFailure =
    | DescriptionTooLong
    | ReleaseBeforeCinema
    | NonPositiveDuration
    | BlankFilmName
    | LoginHasSpace
    | EmptyEmail
    | EmailWithoutAt
    | BirthdayInFuture
    | InvalidLogin

  /** `ValidationException`, `FilmNotFoundException`, `UserNotFoundException`. */
  datatype Error =
    | Validation(failure: ValidationFailure)
    | FilmNotFound(filmId: int)
    | UserNotFound(userId: int)
}
