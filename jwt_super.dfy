/**
 * The privileged request guard (`JwtSuper::handle`): the base guard's structure with the
 * extra requirement that the subject be `super` as well as `active`.
 */
module JwtSuper {
  import opened Basics
  import opened Users
  import opened Http
  import opened Jwt

  /** Whether a subject is both active and super. */
  predicate Privileged(s: Subject) {
    s.active && s.super
  }

  /** Whether the privileged guard lets a parsed token through. */
  predicate AdmitsSuper(o: ParseOutcome) {
    o.Parsed? && o.authUser.Some? && (Privileged(o.authUser.value) || (o.claim.Some? && Privileged(o.claim.value)))
  }

  /**
   * The guard's decision: 401 when both the user and the claim are falsy, 403 when neither is
   * active and super, and the exception mapping of the base guard. The two dereferences that
   * are not JWTExceptions leave the guard as 500, as in the base guard.
   */
  function Decide(o: ParseOutcome): (d: Decision)
    ensures d.PassThrough? <==> AdmitsSuper(o)
    ensures o.Parsed? ==>
              (d.Stop? && d.response.status == StatusUnauthorized <==> o.authUser.None? && o.claim.None?)
    ensures d.Stop? && d.response.status == StatusForbidden <==>
              && o.Parsed? && o.authUser.Some? && o.claim.Some?
              && !Privileged(o.authUser.value) && !Privileged(o.claim.value)
    ensures o.Parsed? && o.authUser.None? && o.claim.Some? ==>
              d == Stop(Error(StatusInternalServerError, UnhandledException))
    ensures o.Parsed? && o.authUser.Some? && !Privileged(o.authUser.value) && o.claim.None? ==>
              d == Stop(Error(StatusInternalServerError, UnhandledException))
    ensures !o.Parsed? ==> d == ExceptionDecision(o)
  {
    match o
    case Parsed(authUser, claim) =>
      if authUser.None? && claim.None? then Stop(Error(StatusUnauthorized, NotAuthenticated))
      else if authUser.None? then Stop(Error(StatusInternalServerError, UnhandledException))
      else if Privileged(authUser.value) then PassThrough
      else if claim.None? then Stop(Error(StatusInternalServerError, UnhandledException))
      else if Privileged(claim.value) then PassThrough
      else Stop(Error(StatusForbidden, InactiveUser))
    case _ => ExceptionDecision(o)
  }

  /** `handle`: on admission the request goes to `$next` unchanged and its answer is returned. */
  function Handle<R>(request: R, next: R -> Response, o: ParseOutcome): (r: Response)
    ensures AdmitsSuper(o) ==> r == next(request)
    ensures !AdmitsSuper(o) ==> r == Decide(o).response
  {
    match Decide(o)
    case PassThrough => next(request)
    case Stop(response) => response
  }

  /** Every request the privileged guard admits, the base guard admits too. */
  lemma SuperAdmissionImpliesAdmission(o: ParseOutcome)
    ensures Decide(o).PassThrough? ==> Jwt.Decide(o).PassThrough?
  {
  }

  /** The inclusion is strict: an active subject that is not super passes only the base guard. */
  lemma SuperGuardIsStricter()
    ensures var o := Parsed(Some(Subject(true, false)), Some(Subject(true, false)));
            Jwt.Decide(o).PassThrough? && Decide(o) == Stop(Error(StatusForbidden, InactiveUser))
  {
  }

  /** Both guards answer a token exception, and a falsy user and claim, in the same way. */
  lemma SameRefusalsBeforeTheRoleTest(o: ParseOutcome)
    requires !o.Parsed? || (o.authUser.None? && o.claim.None?)
    ensures Decide(o) == Jwt.Decide(o)
  {
  }

  /**
   * On a token the login chain issued, the claim fallback never admits: the request passes
   * exactly when the authenticated user itself is active and super.
   */
  lemma IssuedClaimNeverAdmitsSuper(authUser: Option<Subject>, u: UserRecord)
    ensures var admitted := Decide(Parsed(authUser, Some(ClaimSubject(Claims(u))))).PassThrough?;
            admitted <==> authUser.Some? && Privileged(authUser.value)
  {
  }
}
