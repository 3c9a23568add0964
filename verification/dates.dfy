/** Calendar dates in the shape of `java.time.LocalDate`. */
module Dates {

  /** A proleptic Gregorian date. */
  datatype Date = Date(year: int, month: int, day: int)

  /** `LocalDate.isBefore`: strictly earlier, comparing year, then month, then day. */
  predicate Before(a: Date, b: Date) {
    || a.year < b.year
    || (a.year == b.year && a.month < b.month)
    || (a.year == b.year && a.month == b.month && a.day < b.day)
  }

  /** `LocalDate.isAfter`: strictly later. */
  predicate After(a: Date, b: Date) {
    Before(b, a)
  }

  /** `isBefore` is a strict total order on dates. */
  lemma BeforeIsStrictTotalOrder(a: Date, b: Date, c: Date)
    ensures !Before(a, a)
    ensures Before(a, b) && Before(b, c) ==> Before(a, c)
    ensures a == b || Before(a, b) || Before(b, a)
  {
  }

  /** `isAfter` holds exactly when the date is neither earlier nor the same. */
  lemma AfterIsNotBeforeNorEqual(a: Date, b: Date)
    ensures After(a, b) <==> !Before(a, b) && a != b
  {
  }
}
