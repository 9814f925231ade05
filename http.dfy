/**
 * JSON responses as the controllers build them (a status and the keys of the body), and the
 * early-return shape every action shares: a list of checks, each with the response it gives
 * when it fails, and the response given when all pass.
 */
module Http {
  import opened Basics
  import opened Users

  const StatusOk := 200
  const StatusCreated := 201
  const StatusAccepted := 202
  const StatusBadRequest := 400
  const StatusUnauthorized := 401
  const StatusForbidden := 403
  const StatusNotFound := 404
  const StatusInternalServerError := 500

  /** Which `error` message a response carries (the texts themselves are not modelled). */
  datatype ErrorMessage =
    | InvalidCredentials          // "Invalid credentials. Please check your email and password."
    | AccountDisabledContactSupport
    | AccountDisabled
    | MissingPermissions
    | TokenGenerationFailed
    | TokenAuthenticationFailed
    | InternalServerError
    | UserNotFound
    | RawException                // the caught Throwable itself, serialised
    | NotAuthenticated
    | InactiveUser
    | TokenExpired
    | TokenInvalid
    | TokenMissing
    | FailedToCreateUser
    | FailedToUpdateUser
    | FailedToDeleteUser
    | ModelNotFound               // route-model binding found no row
    | UnhandledException          // a throwable that left the action, answered by the framework

  /** The `message` of a user-directory success. */
  datatype Message = UserCreated | UserUpdated | UserDeleted

  type Token = Bytes

  datatype Body =
    | ErrorBody(error: ErrorMessage)
      /** `response_token`; the token is None when the issuer returned `false`. */
    | TokenBody(token: Option<Token>, tokenType: string, user: Option<UserRecord>)
    | UserBody(profile: UserRecord)
    | MessageBody(message: Message, user: Option<UserRecord>)

  datatype Response = Response(status: int, body: Body)

  function Error(status: int, e: ErrorMessage): Response {
    Response(status, ErrorBody(e))
  }

  /** One early return: when `holds` is false the action answers `onFailure` and stops. */
  datatype Check = Check(holds: bool, onFailure: Response)

  /** The answer of a chain of early returns: the first failing check's, else `success`. */
  function EarlyReturn(checks: seq<Check>, success: Response): Response
    decreases |checks|
  {
    if |checks| == 0 then success
    else if !checks[0].holds then checks[0].onFailure
    else EarlyReturn(checks[1..], success)
  }

  /** The first failing check decides; checks after it are never consulted. */
  lemma {:induction false} EarlyReturnFirstFailure(checks: seq<Check>, success: Response, i: nat)
    requires i < |checks| && !checks[i].holds
    requires forall j :: 0 <= j < i ==> checks[j].holds
    ensures EarlyReturn(checks, success) == checks[i].onFailure
    decreases i
  {
    if i > 0 {
      EarlyReturnFirstFailure(checks[1..], success, i - 1);
    }
  }

  /** When every check holds the chain answers `success`. */
  lemma {:induction false} EarlyReturnAllHold(checks: seq<Check>, success: Response)
    requires forall j :: 0 <= j < |checks| ==> checks[j].holds
    ensures EarlyReturn(checks, success) == success
    decreases |checks|
  {
    if |checks| > 0 {
      EarlyReturnAllHold(checks[1..], success);
    }
  }
}
