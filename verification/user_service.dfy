/** `UserService`: validation of user payloads, including the display-name
    default, before they reach the store. The current date is a parameter. */
module UserService {
  import opened Results
  import opened Text
  import opened Dates
  import opened Errors
  import opened Users
  import opened Rules
  import Store = InMemoryUserStorage

  /** The user rules, each stated positively, in the order `validate` checks
      them. The last one re-tests for a space, which the first already
      excluded, so in effect it only rejects an empty login. */
  datatype UserRule = LoginWithoutSpace | EmailNotEmpty | EmailHasAt | BirthdayNotInFuture | LoginPresent

  const UserRuleOrder: seq<UserRule> := [LoginWithoutSpace, EmailNotEmpty, EmailHasAt, BirthdayNotInFuture, LoginPresent]

  predicate Satisfies(u: User, today: Date, rule: UserRule) {
    match rule
    case LoginWithoutSpace => ' ' !in u.login
    case EmailNotEmpty => |u.email| > 0
    case EmailHasAt => '@' in u.email
    case BirthdayNotInFuture => !After(u.birthday, today)
    case LoginPresent => ' ' !in u.login && |u.login| > 0
  }

  /** The failure reported when `rule` is the first one broken. */
  function FailureOf(rule: UserRule): ValidationFailure {
    match rule
    case LoginWithoutSpace => LoginHasSpace
    case EmailNotEmpty => EmptyEmail
    case EmailHasAt => EmailWithoutAt
    case BirthdayNotInFuture => BirthdayInFuture
    case LoginPresent => InvalidLogin
  }

  /** The user with a missing or blank display name replaced by the login. */
  function WithDefaultName(u: User): (v: User)
    ensures v.name.Some? && (u.name.Some? && !IsBlank(u.name.value) ==> v.name == u.name)
    ensures u.name.None? || IsBlank(u.name.value) ==> v.name == Some(u.login)
    ensures !IsBlank(u.login) ==> !IsBlank(v.name.value)
    ensures v.(name := u.name) == u
  {
    if u.name.None? || IsBlank(u.name.value) then u.(name := Some(u.login)) else u
  }

  /** `validate`: the user with the name default applied when every rule
      holds, otherwise the failure of the first broken rule in `UserRuleOrder`. */
  function Validate(u: User, today: Date): (r: Result<User, Error>)
    ensures r == match FirstFailure(UserRuleOrder, rule => Satisfies(u, today, rule))
                 case None => Ok(WithDefaultName(u))
                 case Some(i) => Err(Validation(FailureOf(UserRuleOrder[i])))
  {
    if ' ' in u.login then Err(Validation(LoginHasSpace))
    else
      var named := if u.name.None? || IsBlank(u.name.value) then u.(name := Some(u.login)) else u;
      if |named.email| == 0 then Err(Validation(EmptyEmail))
      else if '@' !in named.email then Err(Validation(EmailWithoutAt))
      else if After(named.birthday, today) then Err(Validation(BirthdayInFuture))
      else if ' ' in named.login || |named.login| == 0 then Err(Validation(InvalidLogin))
      else Ok(named)
  }

  /** A login with a space is rejected whatever else the payload holds. */
  lemma LoginSpaceCheckedFirst(u: User, today: Date)
    requires ' ' in u.login
    ensures Validate(u, today) == Err(Validation(LoginHasSpace))
  {
  }

  /** On success the only change is the name: a missing or blank one becomes
      the login, a non-blank one is kept. */
  lemma NameDefaultsToLogin(u: User, today: Date)
    requires Validate(u, today).Ok?
    ensures Validate(u, today).value.(name := u.name) == u
    ensures u.name.None? || IsBlank(u.name.value) ==> Validate(u, today).value.name == Some(u.login)
    ensures u.name.Some? && !IsBlank(u.name.value) ==> Validate(u, today).value == u
  {
  }

  /** Once the login has no space, an empty email and an email without `@`
      are rejected, in that order. */
  lemma EmailChecks(u: User, today: Date)
    requires ' ' !in u.login
    ensures |u.email| == 0 ==> Validate(u, today) == Err(Validation(EmptyEmail))
    ensures |u.email| > 0 && '@' !in u.email ==> Validate(u, today) == Err(Validation(EmailWithoutAt))
  {
  }

  /** Once the login and email checks pass, a birthday after today is
      rejected and a birthday of today is not. */
  lemma BirthdayLimit(u: User, today: Date)
    requires ' ' !in u.login && '@' in u.email
    ensures After(u.birthday, today) <==> Validate(u, today) == Err(Validation(BirthdayInFuture))
    ensures u.birthday == today && |u.login| > 0 ==> Validate(u, today).Ok?
  {
  }

  /** The empty-login failure is reported exactly when the login is empty and
      everything checked before it passed; the space half of that last check
      never fires. */
  lemma EmptyLoginCheckedLast(u: User, today: Date)
    ensures Validate(u, today) == Err(Validation(InvalidLogin)) <==>
      |u.login| == 0 && '@' in u.email && !After(u.birthday, today)
  {
  }

  /** A passing user has a non-empty login without spaces, an email with `@`
      and a birthday no later than today. */
  lemma ValidUserShape(u: User, today: Date)
    requires Validate(u, today).Ok?
    ensures |u.login| > 0 && ' ' !in u.login
    ensures '@' in u.email && !IsBlank(u.email)
    ensures !After(u.birthday, today)
  {
  }

  /** The validator only looks for the space character: a login made of a tab
      passes although the `@NotBlank` annotation would refuse it. */
  lemma ValidatorAcceptsBlankLogin(today: Date)
    requires !After(Date(2000, 7, 22), today)
    ensures var u := NewUser(0, "a@b", "\t", None, Date(2000, 7, 22));
      Validate(u, today).Ok? && !DeclaredConstraints(u, today)
  {
  }

  /** `create`: an invalid user is refused before the store is touched; a
      valid one, with its name default applied, is stored under the next id. */
  function Create(s: Store.UserStore, u: User, today: Date): (r: (Store.UserStore, Result<User, Error>))
    ensures Validate(u, today).Err? ==> r.0 == s && r.1 == Err(Validate(u, today).error)
    ensures Validate(u, today).Ok? ==> r.1.Ok? && r.1.value.id == s.counter
    ensures Validate(u, today).Ok? ==> r.1.value.(id := u.id) == WithDefaultName(u)
    ensures Validate(u, today).Ok? ==> Store.Get(r.0, s.counter) == Ok(r.1.value) && r.0.counter == s.counter + 1
    ensures forall k :: k != s.counter ==> Store.Get(r.0, k) == Store.Get(s, k)
    ensures Store.Valid(s) ==> Store.Valid(r.0)
  {
    match Validate(u, today)
    case Err(e) => (s, Err(e))
    case Ok(valid) =>
      var (s1, created) := Store.Create(s, valid);
      (s1, Ok(created))
  }

  /** `update`: an invalid user is refused before the store is touched; an
      absent id is not-found; otherwise the validated user, name default
      applied, replaces the stored one and is returned. */
  function Update(s: Store.UserStore, u: User, today: Date): (r: (Store.UserStore, Result<User, Error>))
    ensures Validate(u, today).Err? ==> r.0 == s && r.1 == Err(Validate(u, today).error)
    ensures Validate(u, today).Ok? && u.id !in s.users ==> r.0 == s && r.1 == Err(UserNotFound(u.id))
    ensures Validate(u, today).Ok? && u.id in s.users ==>
      r.1 == Ok(WithDefaultName(u)) && Store.Get(r.0, u.id) == Ok(WithDefaultName(u))
    ensures r.0.counter == s.counter
    ensures forall k :: k != u.id ==> Store.Get(r.0, k) == Store.Get(s, k)
    ensures Store.Valid(s) ==> Store.Valid(r.0)
  {
    match Validate(u, today)
    case Err(e) => (s, Err(e))
    case Ok(valid) =>
      var (s1, result) := Store.Update(s, valid);
      match result
      case Err(e) => (s1, Err(e))
      case Ok(_) => (s1, Ok(valid))
  }
}
