/**
 * The base request guard (`Jwt::handle`). It authenticates the bearer token, reads the
 * token's `user` claim, and passes the request on when either the authenticated user or,
 * failing that, the claim is active. Token exceptions are mapped to statuses; any other
 * throwable leaves the guard and the framework answers it with 500.
 */
module Jwt {
  import opened Basics
  import opened Users
  import opened Http

  /**
   * What the guard reads from the authenticated user or from the `user` claim: whether the
   * `active` and `super` attributes are truthy. (The `users` table has no column of either name.)
   */
  datatype Subject = Subject(active: bool, super: bool)

  /**
   * What `$userToken->get('active')` and `->get('super')` read from the `user` claim the login
   * chain issues: the claim holds only `id`, `name`, `enabled` and `role`, so both keys are
   * absent and read as null.
   */
  function ClaimSubject(c: UserClaims): (s: Subject)
    ensures !s.active && !s.super
  {
    Subject(ClaimRead(ClaimEntries(c), "active"), ClaimRead(ClaimEntries(c), "super"))
  }

  /** PHP truthiness of a claim value: 0, "" and "0" are falsy, every role name is truthy. */
  predicate Truthy(v: ClaimValue) {
    match v
    case IdValue(n) => n != 0
    case TextValue(t) => t != [] && t != [48]
    case FlagValue(f) => f
    case RoleValue(_) => true
  }

  /** `->get(key)` taken as a boolean: a missing key reads as null, which is falsy. */
  function ClaimRead(entries: map<string, ClaimValue>, key: string): (b: bool)
    ensures key !in entries ==> !b
    ensures key in entries ==> (b <==> Truthy(entries[key]))
  {
    key in entries && Truthy(entries[key])
  }

  /**
   * The outcome of `JWTAuth::parseToken()->authenticate()` and `->getPayload()->get('user')`:
   * the authenticated user (None for a falsy result) and the claim (None when falsy), or the
   * exception parsing threw.
   */
  datatype ParseOutcome =
    | Parsed(authUser: Option<Subject>, claim: Option<Subject>)
    | Expired        // TokenExpiredException
    | Invalid        // TokenInvalidException
    | OtherJwtError  // any other JWTException, such as a missing token
    | OtherFailure   // any other throwable

  /** Either the request goes on to `$next`, or the guard answers in its place. */
  datatype Decision = PassThrough | Stop(response: Response)

  /** The status every exception gets, shared by both guards: the specific handlers come first. */
  function ExceptionDecision(o: ParseOutcome): (d: Decision)
    requires !o.Parsed?
    ensures d.Stop?
    ensures d.response.status == StatusUnauthorized <==> o.Expired? || o.Invalid?
    ensures d.response.status == StatusBadRequest <==> o.OtherJwtError?
    ensures d.response.status == StatusInternalServerError <==> o.OtherFailure?
  {
    match o
    case Expired => Stop(Error(StatusUnauthorized, TokenExpired))
    case Invalid => Stop(Error(StatusUnauthorized, TokenInvalid))
    case OtherJwtError => Stop(Error(StatusBadRequest, TokenMissing))
    case OtherFailure => Stop(Error(StatusInternalServerError, UnhandledException))
  }

  /** Whether the base guard lets a parsed token through. */
  predicate Admits(o: ParseOutcome) {
    o.Parsed? && o.authUser.Some? && (o.authUser.value.active || (o.claim.Some? && o.claim.value.active))
  }

  /**
   * The guard's decision. When the authenticated user is falsy but the claim is not, reading
   * `$authUser->active` is a PHP warning that the framework turns into an ErrorException; when
   * the user is inactive and the claim falsy, `$userToken->get(...)` is a call on null. Neither
   * is a JWTException, so both leave the guard as 500.
   */
  function Decide(o: ParseOutcome): (d: Decision)
    ensures d.PassThrough? <==> Admits(o)
    ensures o.Parsed? ==> (d == Stop(Error(StatusUnauthorized, NotAuthenticated)) <==> o.authUser.None? && o.claim.None?)
    ensures o.Parsed? ==>
              (d.Stop? && d.response.status == StatusUnauthorized <==> o.authUser.None? && o.claim.None?)
    ensures d.Stop? && d.response.status == StatusForbidden <==>
              && o.Parsed? && o.authUser.Some? && o.claim.Some?
              && !o.authUser.value.active && !o.claim.value.active
    ensures o.Parsed? && o.authUser.None? && o.claim.Some? ==>
              d == Stop(Error(StatusInternalServerError, UnhandledException))
    ensures o.Parsed? && o.authUser.Some? && !o.authUser.value.active && o.claim.None? ==>
              d == Stop(Error(StatusInternalServerError, UnhandledException))
    ensures !o.Parsed? ==> d == ExceptionDecision(o)
  {
    match o
    case Parsed(authUser, claim) =>
      if authUser.None? && claim.None? then Stop(Error(StatusUnauthorized, NotAuthenticated))
      else if authUser.None? then Stop(Error(StatusInternalServerError, UnhandledException))
      else if authUser.value.active then PassThrough
      else if claim.None? then Stop(Error(StatusInternalServerError, UnhandledException))
      else if claim.value.active then PassThrough
      else Stop(Error(StatusForbidden, InactiveUser))
    case _ => ExceptionDecision(o)
  }

  /** `handle`: on admission the request goes to `$next` unchanged and its answer is returned. */
  function Handle<R>(request: R, next: R -> Response, o: ParseOutcome): (r: Response)
    ensures Admits(o) ==> r == next(request)
    ensures !Admits(o) ==> r == Decide(o).response
  {
    match Decide(o)
    case PassThrough => next(request)
    case Stop(response) => response
  }

  /**
   * On a token the login chain issued, the claim fallback never admits: the request passes
   * exactly when the authenticated user itself is active.
   */
  lemma IssuedClaimNeverAdmits(authUser: Option<Subject>, u: UserRecord)
    ensures var admitted := Decide(Parsed(authUser, Some(ClaimSubject(Claims(u))))).PassThrough?;
            admitted <==> authUser.Some? && authUser.value.active
  {
  }
}
