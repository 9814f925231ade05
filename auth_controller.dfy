/**
 * The authentication controller: registration, the two token endpoints built on one
 * role-parameterised login chain, and the three token-verification endpoints.
 *
 * The framework calls the action makes are parameters: `lookup` is
 * `User::where('email', e)->first()`, `validate` is `Auth::validate`, and
 * `attempt(c, claims)` is `auth('api')->attempt(c)`, or with `->claims(...)` in front when
 * claims are given; None stands for the `false` it returns on failure.
 */
module AuthController {
  import opened Basics
  import opened Credentials
  import opened Users
  import opened Http

  type Lookup = Bytes -> Option<UserRecord>
  type Validator = Credentials -> bool
  type Issuer = (Credentials, Option<UserClaims>) -> Option<Token>

  /** `response_token`: 202 with the token and type "Bearer", and a `user` key only when a user is given. */
  function ResponseToken(token: Option<Token>, user: Option<UserRecord>): (r: Response)
    ensures r.status == StatusAccepted && r.body.TokenBody?
    ensures r.body.tokenType == "Bearer" && r.body.token == token
    ensures r.body.user.Some? <==> user.Some?
    ensures user.Some? ==> r.body.user == user
  {
    Response(StatusAccepted, TokenBody(token, "Bearer", user))
  }

  /**
   * The tail both `store` and `getTokenByRole` end with: re-check the credentials, try to issue
   * a plain token, and on success answer with a second token that carries the user claim.
   */
  function IssueToken(c: Credentials, u: UserRecord, validate: Validator, attempt: Issuer): (r: Response)
    ensures r.status == StatusAccepted <==> validate(c) && attempt(c, None).Some?
    ensures r.status == StatusAccepted ==> r == ResponseToken(attempt(c, Some(Claims(u))), Some(u))
    ensures !validate(c) ==> r == Error(StatusUnauthorized, InvalidCredentials)
    ensures validate(c) && attempt(c, None).None? ==> r == Error(StatusBadRequest, TokenGenerationFailed)
  {
    if !validate(c) then Error(StatusUnauthorized, InvalidCredentials)
    else if attempt(c, None).None? then Error(StatusBadRequest, TokenGenerationFailed)
    else ResponseToken(attempt(c, Some(Claims(u))), Some(u))
  }

  /** The early returns of the shared tail: the credential re-check, then the first token. */
  function IssueChecks(c: Credentials, validate: Validator, attempt: Issuer): seq<Check> {
    [ Check(validate(c), Error(StatusUnauthorized, InvalidCredentials)),
      Check(attempt(c, None).Some?, Error(StatusBadRequest, TokenGenerationFailed)) ]
  }

  /** The shared tail is exactly its two early returns run in order. */
  lemma IssueTokenIsEarlyReturn(c: Credentials, u: UserRecord, validate: Validator, attempt: Issuer)
    ensures IssueToken(c, u, validate, attempt)
              == EarlyReturn(IssueChecks(c, validate, attempt), ResponseToken(attempt(c, Some(Claims(u))), Some(u)))
  {
    var checks := IssueChecks(c, validate, attempt);
    var success := ResponseToken(attempt(c, Some(Claims(u))), Some(u));
    if !checks[0].holds {
      EarlyReturnFirstFailure(checks, success, 0);
    } else if !checks[1].holds {
      EarlyReturnFirstFailure(checks, success, 1);
    } else {
      EarlyReturnAllHold(checks, success);
    }
  }

  /** The `$role` argument of `getTokenByRole`: a single role name or an array of roles. */
  datatype RoleArg = RoleName(role: Role) | RoleList(roles: seq<Role>)

  /** `!(is_array($role) && !in_array($user->role, $role))`: only an array restricts. */
  predicate RolePermits(arg: RoleArg, role: Role) {
    arg.RoleList? ==> role in arg.roles
  }

  /**
   * `getTokenByRole`: normalise the credentials, find the user by the lower-cased e-mail, and
   * stop at the first failing check: missing, disabled, role not permitted, credentials
   * rejected, token refused.
   */
  function GetTokenByRole(request: LoginRequest, arg: RoleArg, lookup: Lookup, validate: Validator, attempt: Issuer): (r: Response)
    ensures request.password.None? ==> r == Error(StatusInternalServerError, InternalServerError)
    ensures request.password.Some? ==>
              var c := ValidateCredentials(request).value;
              && (r.status == StatusNotFound <==> lookup(c.email).None?)
              && (r.status == StatusAccepted <==>
                    && lookup(c.email).Some?
                    && lookup(c.email).value.enabled
                    && RolePermits(arg, lookup(c.email).value.role)
                    && validate(c)
                    && attempt(c, None).Some?)
              && (r.status == StatusAccepted ==>
                    r == ResponseToken(attempt(c, Some(Claims(lookup(c.email).value))), lookup(c.email)))
  {
    match ValidateCredentials(request)
    case None => Error(StatusInternalServerError, InternalServerError)
    case Some(c) =>
      match lookup(c.email)
      case None => Error(StatusNotFound, InvalidCredentials)
      case Some(u) =>
        if !u.enabled then Error(StatusUnauthorized, AccountDisabledContactSupport)
        else if !RolePermits(arg, u.role) then Error(StatusUnauthorized, MissingPermissions)
        else IssueToken(c, u, validate, attempt)
  }

  /** The early returns of `getTokenByRole`, in the order the action runs them. */
  function LoginChecks(c: Credentials, arg: RoleArg, found: Option<UserRecord>, validate: Validator, attempt: Issuer): seq<Check> {
    [ Check(found.Some?, Error(StatusNotFound, InvalidCredentials)),
      Check(found.Some? && found.value.enabled, Error(StatusUnauthorized, AccountDisabledContactSupport)),
      Check(found.Some? && RolePermits(arg, found.value.role), Error(StatusUnauthorized, MissingPermissions)),
      Check(validate(c), Error(StatusUnauthorized, InvalidCredentials)),
      Check(attempt(c, None).Some?, Error(StatusBadRequest, TokenGenerationFailed)) ]
  }

  /**
   * `getTokenByRole` is exactly its chain of checks: existence before enabled before role
   * before credentials before token issue, whichever of them fail together.
   */
  lemma GetTokenByRoleIsEarlyReturn(request: LoginRequest, arg: RoleArg, lookup: Lookup, validate: Validator, attempt: Issuer, u: UserRecord)
    requires request.password.Some?
    requires lookup(ValidateCredentials(request).value.email).Some? ==>
               lookup(ValidateCredentials(request).value.email).value == u
    ensures var c := ValidateCredentials(request).value;
            GetTokenByRole(request, arg, lookup, validate, attempt)
              == EarlyReturn(LoginChecks(c, arg, lookup(c.email), validate, attempt),
                             ResponseToken(attempt(c, Some(Claims(u))), Some(u)))
  {
    var c := ValidateCredentials(request).value;
    var checks := LoginChecks(c, arg, lookup(c.email), validate, attempt);
    var success := ResponseToken(attempt(c, Some(Claims(u))), Some(u));
    if !checks[0].holds {
      EarlyReturnFirstFailure(checks, success, 0);
    } else if !checks[1].holds {
      EarlyReturnFirstFailure(checks, success, 1);
    } else if !checks[2].holds {
      EarlyReturnFirstFailure(checks, success, 2);
    } else if !checks[3].holds {
      EarlyReturnFirstFailure(checks, success, 3);
    } else if !checks[4].holds {
      EarlyReturnFirstFailure(checks, success, 4);
    } else {
      EarlyReturnAllHold(checks, success);
    }
  }

  /** A disabled account is refused before its credentials or a token are ever looked at. */
  lemma DisabledNeverReachesCredentialCheck(request: LoginRequest, arg: RoleArg, lookup: Lookup,
                                            validate1: Validator, attempt1: Issuer, validate2: Validator, attempt2: Issuer)
    requires request.password.Some?
    requires var found := lookup(ValidateCredentials(request).value.email); found.Some? && !found.value.enabled
    ensures GetTokenByRole(request, arg, lookup, validate1, attempt1) == GetTokenByRole(request, arg, lookup, validate2, attempt2)
    ensures GetTokenByRole(request, arg, lookup, validate1, attempt1) == Error(StatusUnauthorized, AccountDisabledContactSupport)
  {
  }

  /** A role the argument does not permit is refused before the credentials are checked. */
  lemma RoleRefusedNeverReachesCredentialCheck(request: LoginRequest, arg: RoleArg, lookup: Lookup,
                                               validate1: Validator, attempt1: Issuer, validate2: Validator, attempt2: Issuer)
    requires request.password.Some?
    requires var found := lookup(ValidateCredentials(request).value.email);
             found.Some? && found.value.enabled && !RolePermits(arg, found.value.role)
    ensures GetTokenByRole(request, arg, lookup, validate1, attempt1) == GetTokenByRole(request, arg, lookup, validate2, attempt2)
    ensures GetTokenByRole(request, arg, lookup, validate1, attempt1) == Error(StatusUnauthorized, MissingPermissions)
  {
  }

  /** `getToken`: the role argument is the string 'user', so no role is ever refused. */
  function GetToken(request: LoginRequest, lookup: Lookup, validate: Validator, attempt: Issuer): (r: Response)
    ensures r.body != ErrorBody(MissingPermissions)
    ensures request.password.Some? ==>
              var c := ValidateCredentials(request).value;
              var found := lookup(c.email);
              (r.status == StatusAccepted <==> found.Some? && found.value.enabled && validate(c) && attempt(c, None).Some?)
  {
    GetTokenByRole(request, RoleName(User), lookup, validate, attempt)
  }

  /** `getTokenAdmin`: only the roles `super` and `team` may obtain a token. */
  function GetTokenAdmin(request: LoginRequest, lookup: Lookup, validate: Validator, attempt: Issuer): (r: Response)
    ensures request.password.Some? ==>
              var c := ValidateCredentials(request).value;
              var found := lookup(c.email);
              && (r.status == StatusAccepted ==> found.Some? && found.value.role in {Super, Team})
              && (found.Some? && found.value.enabled && found.value.role !in {Super, Team} ==>
                    r == Error(StatusUnauthorized, MissingPermissions))
  {
    GetTokenByRole(request, RoleList([Super, Team]), lookup, validate, attempt)
  }

  /** The outcome of `JWTAuth::parseToken()->authenticate()`: the user (None for `false`), or any throwable. */
  datatype Authentication = Authenticated(user: Option<UserRecord>) | Threw

  /**
   * `verifyToken`: 202 with the user when it is enabled, 401 when disabled. Everything thrown is
   * caught as 500, including the ErrorException that reading `enabled` of `false` raises.
   */
  function VerifyToken(a: Authentication): (r: Response)
    ensures r.status == StatusAccepted <==> a.Authenticated? && a.user.Some? && a.user.value.enabled
    ensures r.status == StatusAccepted ==> r.body == UserBody(a.user.value)
    ensures r.status == StatusUnauthorized <==> a.Authenticated? && a.user.Some? && !a.user.value.enabled
    ensures r.status != StatusAccepted && r.status != StatusUnauthorized ==>
              r == Error(StatusInternalServerError, TokenAuthenticationFailed)
  {
    match a
    case Threw => Error(StatusInternalServerError, TokenAuthenticationFailed)
    case Authenticated(None) => Error(StatusInternalServerError, TokenAuthenticationFailed)
    case Authenticated(Some(u)) =>
      if !u.enabled then Error(StatusUnauthorized, AccountDisabled)
      else Response(StatusAccepted, UserBody(u))
  }

  /** The early returns of `verifyToken`: a user must be authenticated, then enabled. */
  function VerifyChecks(a: Authentication): seq<Check> {
    [ Check(a.Authenticated? && a.user.Some?, Error(StatusInternalServerError, TokenAuthenticationFailed)),
      Check(a.Authenticated? && a.user.Some? && a.user.value.enabled, Error(StatusUnauthorized, AccountDisabled)) ]
  }

  lemma VerifyTokenIsEarlyReturn(a: Authentication, u: UserRecord)
    requires a.Authenticated? && a.user.Some? ==> a.user.value == u
    ensures VerifyToken(a) == EarlyReturn(VerifyChecks(a), Response(StatusAccepted, UserBody(u)))
  {
    var checks := VerifyChecks(a);
    var success := Response(StatusAccepted, UserBody(u));
    if !checks[0].holds {
      EarlyReturnFirstFailure(checks, success, 0);
    } else if !checks[1].holds {
      EarlyReturnFirstFailure(checks, success, 1);
    } else {
      EarlyReturnAllHold(checks, success);
    }
  }

  /** `verifyTokenAdmin`: as `verifyToken`, then 401 for a role other than `super` or `team`. */
  function VerifyTokenAdmin(a: Authentication): (r: Response)
    ensures r.status == StatusAccepted <==>
              a.Authenticated? && a.user.Some? && a.user.value.enabled && a.user.value.role in {Super, Team}
    ensures a.Authenticated? && a.user.Some? && !a.user.value.enabled ==> r == Error(StatusUnauthorized, AccountDisabled)
    ensures a.Authenticated? && a.user.Some? && a.user.value.enabled && a.user.value.role !in {Super, Team} ==>
              r == Error(StatusUnauthorized, MissingPermissions)
    ensures (a.Threw? || a.user.None?) ==> r == Error(StatusInternalServerError, TokenAuthenticationFailed)
  {
    match a
    case Threw => Error(StatusInternalServerError, TokenAuthenticationFailed)
    case Authenticated(None) => Error(StatusInternalServerError, TokenAuthenticationFailed)
    case Authenticated(Some(u)) =>
      if !u.enabled then Error(StatusUnauthorized, AccountDisabled)
      else if u.role !in [Super, Team] then Error(StatusUnauthorized, MissingPermissions)
      else Response(StatusAccepted, UserBody(u))
  }

  /** The early returns of `verifyTokenAdmin`: authentication, then enabled, then role. */
  function AdminVerifyChecks(a: Authentication): seq<Check> {
    [ Check(a.Authenticated? && a.user.Some?, Error(StatusInternalServerError, TokenAuthenticationFailed)),
      Check(a.Authenticated? && a.user.Some? && a.user.value.enabled, Error(StatusUnauthorized, AccountDisabled)),
      Check(a.Authenticated? && a.user.Some? && a.user.value.role in [Super, Team], Error(StatusUnauthorized, MissingPermissions)) ]
  }

  lemma VerifyTokenAdminIsEarlyReturn(a: Authentication, u: UserRecord)
    requires a.Authenticated? && a.user.Some? ==> a.user.value == u
    ensures VerifyTokenAdmin(a) == EarlyReturn(AdminVerifyChecks(a), Response(StatusAccepted, UserBody(u)))
  {
    var checks := AdminVerifyChecks(a);
    var success := Response(StatusAccepted, UserBody(u));
    if !checks[0].holds {
      EarlyReturnFirstFailure(checks, success, 0);
    } else if !checks[1].holds {
      EarlyReturnFirstFailure(checks, success, 1);
    } else if !checks[2].holds {
      EarlyReturnFirstFailure(checks, success, 2);
    } else {
      EarlyReturnAllHold(checks, success);
    }
  }

  /** Whatever `verifyTokenAdmin` admits, `verifyToken` admits with the same answer. */
  lemma AdminVerificationImpliesVerification(a: Authentication)
    ensures VerifyTokenAdmin(a).status == StatusAccepted ==> VerifyToken(a) == VerifyTokenAdmin(a)
  {
  }

  /** `getAuth`: 400 when no user was authenticated, 500 for anything thrown, else 202 with the user. */
  function GetAuth(a: Authentication): (r: Response)
    ensures a.Threw? <==> r == Error(StatusInternalServerError, InternalServerError)
    ensures a == Authenticated(None) <==> r == Error(StatusBadRequest, UserNotFound)
    ensures a.Authenticated? && a.user.Some? ==> r == Response(StatusAccepted, UserBody(a.user.value))
    ensures r.status == StatusAccepted ==> a.Authenticated? && a.user.Some?
  {
    match a
    case Threw => Error(StatusInternalServerError, InternalServerError)
    case Authenticated(None) => Error(StatusBadRequest, UserNotFound)
    case Authenticated(Some(u)) => Response(StatusAccepted, UserBody(u))
  }

  /** The early returns of `getAuth`: nothing thrown, then a user found. */
  function GetAuthChecks(a: Authentication): seq<Check> {
    [ Check(a.Authenticated?, Error(StatusInternalServerError, InternalServerError)),
      Check(a.Authenticated? && a.user.Some?, Error(StatusBadRequest, UserNotFound)) ]
  }

  lemma GetAuthIsEarlyReturn(a: Authentication, u: UserRecord)
    requires a.Authenticated? && a.user.Some? ==> a.user.value == u
    ensures GetAuth(a) == EarlyReturn(GetAuthChecks(a), Response(StatusAccepted, UserBody(u)))
  {
    var checks := GetAuthChecks(a);
    var success := Response(StatusAccepted, UserBody(u));
    if !checks[0].holds {
      EarlyReturnFirstFailure(checks, success, 0);
    } else if !checks[1].holds {
      EarlyReturnFirstFailure(checks, success, 1);
    } else {
      EarlyReturnAllHold(checks, success);
    }
  }

  /** The credentials `store` re-checks: built from the request, so lower-cased and unwrapped. */
  function RegistrationCredentials(input: RegisterInput): (c: Credentials)
    ensures c.email == Lower(input.email) && c.password == DecodeBase64(input.password)
  {
    ValidateCredentials(LoginRequest(Some(input.email), Some(input.password))).value
  }

  /** The stored e-mail keeps its case while the re-check looks up the lower-cased one. */
  lemma StoredEmailIsNotTheCheckedEmail(code: int, input: RegisterInput, now: Bytes)
    requires HasUpper(input.email)
    ensures NewRecord(code, input, now).email != RegistrationCredentials(input).email
  {
    LowerFixesExactlyLowerCase(input.email);
  }

  /**
   * `store`: validate, create the record, then re-check the credentials and issue a token. The
   * record is created first, so a refusal by the re-check (401) or by the issuer (400) leaves it
   * in the table. `rulesHold` says whether the request passed every validation rule other than
   * `unique`, which is checked against the table; a validation failure is thrown inside the
   * `try` and so answered with 500.
   */
  method Store(table: UserTable, input: RegisterInput, rulesHold: bool, code: int, now: Bytes,
               validate: Validator, attempt: Issuer) returns (r: Response)
    requires table.Valid()
    requires ValidCode(code)
    modifies table
    ensures table.Valid()
    ensures CodesInRange(old(table.rows)) ==> CodesInRange(table.rows)
    ensures CreationRefused(old(table.rows), input, rulesHold, code) ==>
              && r == Error(StatusInternalServerError, RawException)
              && table.rows == old(table.rows) && table.nextId == old(table.nextId)
    ensures !CreationRefused(old(table.rows), input, rulesHold, code) ==>
              var u := NewRecord(code, input, now).(id := old(table.nextId));
              && old(table.nextId) !in old(table.rows)
              && table.rows == old(table.rows)[u.id := u]
              && table.nextId == old(table.nextId) + 1
              && r == IssueToken(RegistrationCredentials(input), u, validate, attempt)
    ensures r.status == StatusUnauthorized || r.status == StatusBadRequest ==>
              old(table.nextId) in table.rows && old(table.nextId) !in old(table.rows)
  {
    if !rulesHold || EmailTaken(table.rows, input.email) {
      return Error(StatusInternalServerError, RawException);
    }
    var created := table.Insert(NewRecord(code, input, now));
    if created.None? {
      return Error(StatusInternalServerError, RawException);
    }
    var user := created.value;
    var credentials := RegistrationCredentials(input);
    if !validate(credentials) {
      return Error(StatusUnauthorized, InvalidCredentials);
    }
    if attempt(credentials, None).None? {
      return Error(StatusBadRequest, TokenGenerationFailed);
    }
    var token := attempt(credentials, Some(Claims(user)));
    r := ResponseToken(token, Some(user));
  }
}
