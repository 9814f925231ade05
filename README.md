# Authentication and user directory of the virtus back end, in Dafny

This project models the core of a Laravel JSON API that registers users, issues JWT bearer
tokens, verifies them, and administers the user directory:

- the authentication controller: registration (`store`), the two login endpoints (`getToken`,
  `getTokenAdmin`) built on the shared chain `getTokenByRole`, and the three endpoints that
  verify a token (`verifyToken`, `verifyTokenAdmin`, `getAuth`), with the helpers
  `validateCredentials`, `response_token` and `decodeBase64`;
- the user-directory controller: its constructor's guard assignment, and `store`, `update` and
  `destroy` over the `users` table;
- the two request guards, `Jwt::handle` and `JwtSuper::handle`.

Strings are byte sequences (`seq<bv8>`). `decodeBase64` is modelled literally: the text is
decoded strictly per section 4 of RFC 4648, re-encoded, and the decoded bytes are used only
when the re-encoding reproduces the text (a failed strict decode is `false`, which encodes
to the empty string). The `users` table is a class whose rows are a map from id to record.
Its methods refuse writes that would break the unique indexes on `email` and `code`.

The framework services an action calls are parameters of the model:

- `User::where('email', …)->first()` is a lookup function;
- `Auth::validate` is a predicate on credentials;
- `auth('api')->attempt` is an issuer that may return no token;
- `JWTAuth::parseToken()->authenticate()` is an outcome value: a user, no user, or an exception;
- `rand`, `now()` and the validator's format rules are inputs.

`Hash::make` is an injective constructor `Hashed(plain)`. `HashCheck(p, stored)` says when a
password matches a stored hash; the lemmas about changed passwords use it. `Auth::validate`
itself stays a free parameter and is not tied to `HashCheck`.

Laravel turns a PHP warning into an `ErrorException`, and the model follows that:

- reading `->enabled` of `false` in `verifyToken` is caught and answered with 500;
- reading `->active` of a falsy user in the guards is not a JWT exception, so it leaves the
  guard and is answered with the framework's 500. The same holds for calling `->get` on a
  missing claim.

Three behaviours of the source that the model keeps:

- registration stores the e-mail as given, while the login chain looks it up lower-cased;
- the token response of the login endpoints carries the user next to the token and its type;
- a request that fails validation throws inside the action's `try`, so its
  `catch (\Throwable)` answers it with 500.

`Http.EarlyReturn` is a reference definition of a chain of early returns: a list of
(condition, failure response) pairs where the first failing check decides. Lemmas prove
`getTokenByRole`, its credential-and-token tail (shared with registration), `verifyToken`,
`verifyTokenAdmin` and `getAuth` equal to their chains.

## Model

| member | source | states |
|---|---|---|
| Base64.Encode | app/Http/Controllers/AuthController.php:230 | `base64_encode`: the output has four characters for every started group of three bytes |
| Base64.Decode | app/Http/Controllers/AuthController.php:230 | the model's strict decoder, which, unlike PHP's strict `base64_decode`, demands padding: None for any length that is not a multiple of four, and at most three bytes per quantum otherwise |
| Base64.DecodeEncode | app/Http/Controllers/AuthController.php:230-231 | decoding an encoding gives back the bytes, for every byte string |
| Base64.EncodeInjective | app/Http/Controllers/AuthController.php:230 | different byte strings have different encodings |
| Base64.EncodedLengthIsQuanta | app/Http/Controllers/AuthController.php:230 | an encoding's length is a multiple of four and, for non-empty input, longer than the input |
| Base64.StrictDecodingAcceptsNonCanonical | app/Http/Controllers/AuthController.php:230 | the strict decoder accepts "YR==", which is not an encoding, so only the re-encode comparison tells encodings apart |
| Credentials.DecodeBase64 | app/Http/Controllers/AuthController.php:228-235 | the result is either the text unchanged or the bytes whose encoding is exactly the text; the identical helper of the user-directory controller (UserController.php, lines 152-159) is the same function |
| Credentials.DecodeBase64OfEncoding | app/Http/Controllers/AuthController.php:228-232 | the encoding of any bytes is unwrapped to those bytes |
| Credentials.NonCanonicalUnchanged | app/Http/Controllers/AuthController.php:234 | text that is not an encoding comes back unchanged |
| Credentials.ChangedOnlyWhenCanonical | app/Http/Controllers/AuthController.php:228-235 | the text changes exactly when it is a non-empty encoding, and it then changes into the encoded bytes |
| Credentials.WrappedAndPlainAgree | app/Http/Controllers/AuthController.php:228-235 | a password whose length is not a multiple of four is left as is, and its encoding unwraps to it |
| Credentials.WrappedPasswordExample | app/Http/Controllers/AuthController.php:228-235 | "cGFzczEyMw==" unwraps to "pass123" |
| Credentials.ValidateCredentials | app/Http/Controllers/AuthController.php:194-203 | credentials exist exactly when a password was sent; the e-mail is lower-cased and the password unwrapped |
| Credentials.CredentialsNormalised | app/Http/Controllers/AuthController.php:196 | the e-mail of built credentials has no upper-case letter, and the password is the one sent or the bytes whose encoding was sent |
| Basics.Lower | app/Http/Controllers/AuthController.php:196 | `strtolower`: same length; each ASCII upper-case letter becomes its lower-case letter and every other byte is kept |
| Basics.LowerFixesExactlyLowerCase | app/Http/Controllers/AuthController.php:196 | `strtolower` leaves a string unchanged exactly when it has no upper-case ASCII letter |
| Basics.LowerIdempotent | app/Http/Controllers/AuthController.php:196 | lower-casing twice is lower-casing once |
| Users.NewRecord | app/Http/Controllers/AuthController.php:30-46 | a new record is an enabled `user` with the drawn code; it keeps the request's e-mail, name, terms, document number, birth date and gender, and its password is the hash of the unwrapped password. Notifications are on unless the request turns them off, and the agreement date is the request's, or now when it gives none |
| Users.Merge | app/Http/Controllers/UserController.php:113 | `$user->update`: the id, code, terms, enabled flag and role are kept; each of the other eight fields takes the request's value when one is given and keeps the old one otherwise, a password as the raw text |
| Users.MergeTouchesOnlyRequestFields | app/Http/Controllers/UserController.php:101-113 | an update never changes the id, code, terms, enabled flag or role, and an update with no fields changes nothing |
| Users.UserTable.Insert | database/migrations/2014_10_12_000000_create_users_table.php:16-18 | an insert is refused exactly when the e-mail or the code is held by a row; otherwise the row gets the next id and nothing else changes |
| Users.UserTable.Put | database/migrations/2014_10_12_000000_create_users_table.php:16-18 | a save is refused exactly when another row holds its e-mail or code; otherwise only that row changes |
| Users.UserTable.Delete | app/Http/Controllers/UserController.php:137 | exactly the given row is removed |
| Http.EarlyReturnFirstFailure | app/Http/Controllers/AuthController.php:101-119 | in a chain of early returns the first failing check decides, whatever comes after it |
| Http.EarlyReturnAllHold | app/Http/Controllers/AuthController.php:121-127 | when every check holds, the chain gives its success answer |
| AuthController.ResponseToken | app/Http/Controllers/AuthController.php:208-220 | 202 with the token and type "Bearer", and a `user` key exactly when a user is given |
| AuthController.IssueToken | app/Http/Controllers/AuthController.php:113-127 | 202 exactly when the credentials pass and the first issue succeeds; then the answer carries the second token, made with the user claim. Otherwise 401 for rejected credentials and 400 for a refused token |
| AuthController.GetTokenByRole | app/Http/Controllers/AuthController.php:94-131 | 500 without a password; 404 exactly when no user has the lower-cased e-mail; 202 exactly when the user is enabled, the role is permitted, the credentials pass and a token is issued |
| Users.ClaimEntries | app/Http/Controllers/AuthController.php:121-122 | the claim array has exactly the keys `id`, `name`, `enabled` and `role`, holding the user's values |
| Users.Claims | app/Http/Controllers/AuthController.php:121-122 | the `user` claim carries the user's id, name, enabled flag and role, and nothing else |
| AuthController.IssueTokenIsEarlyReturn | app/Http/Controllers/AuthController.php:113-127 | the shared tail equals its two early returns run in order: credentials, then token |
| AuthController.GetTokenByRoleIsEarlyReturn | app/Http/Controllers/AuthController.php:99-127 | `getTokenByRole` equals its five early returns run in order: found, enabled, role, credentials, token |
| AuthController.DisabledNeverReachesCredentialCheck | app/Http/Controllers/AuthController.php:105-107 | a disabled account gets 401 whatever the credential check or the issuer would say |
| AuthController.RoleRefusedNeverReachesCredentialCheck | app/Http/Controllers/AuthController.php:109-111 | a role not in the list gets 401 whatever the credential check or the issuer would say |
| AuthController.GetToken | app/Http/Controllers/AuthController.php:78-81 | the role 'user' is a string, so no role is refused; 202 exactly when the user is found and enabled, the credentials pass and a token is issued |
| AuthController.GetTokenAdmin | app/Http/Controllers/AuthController.php:86-89 | a token goes only to `super` or `team`; any other enabled user gets 401 for missing permissions |
| AuthController.VerifyToken | app/Http/Controllers/AuthController.php:136-149 | 202 with the user exactly when an enabled user authenticated; 401 exactly when the user is disabled; every other outcome is 500 |
| AuthController.VerifyTokenIsEarlyReturn | app/Http/Controllers/AuthController.php:139-145 | `verifyToken` equals its two early returns run in order: authenticated, then enabled |
| AuthController.VerifyTokenAdmin | app/Http/Controllers/AuthController.php:154-171 | 202 exactly for an enabled `super` or `team` user; 401 for a disabled user or another role; 500 when no user authenticated |
| AuthController.VerifyTokenAdminIsEarlyReturn | app/Http/Controllers/AuthController.php:157-167 | `verifyTokenAdmin` equals its three early returns run in order |
| AuthController.AdminVerificationImpliesVerification | app/Http/Controllers/AuthController.php:136-171 | whatever `verifyTokenAdmin` admits, `verifyToken` admits with the same answer |
| AuthController.GetAuth | app/Http/Controllers/AuthController.php:176-189 | 500 exactly when authentication threw; 400 exactly when no user authenticated; otherwise 202 with the user |
| AuthController.GetAuthIsEarlyReturn | app/Http/Controllers/AuthController.php:179-185 | `getAuth` equals its two early returns run in order: nothing thrown, then a user found |
| AuthController.RegistrationCredentials | app/Http/Controllers/AuthController.php:48 | the credentials `store` re-checks are the lower-cased e-mail and the unwrapped password |
| AuthController.StoredEmailIsNotTheCheckedEmail | app/Http/Controllers/AuthController.php:36 | for an e-mail with an upper-case letter, the stored e-mail differs from the one the re-check looks up |
| AuthController.Store | app/Http/Controllers/AuthController.php:14-73 | a refused validation or insert is 500 with the table unchanged; otherwise the record is inserted at the next id before the re-check, so a 401 or 400 leaves it in the table |
| Jwt.ExceptionDecision | app/Http/Middleware/Jwt.php:41-46 | expired and invalid tokens are 401, any other JWT exception is 400, and any other throwable is 500 |
| Jwt.Decide | app/Http/Middleware/Jwt.php:22-47 | the request passes exactly when the user is truthy and it or the claim is active. 401 exactly when user and claim are both falsy; 403 exactly when both are present and inactive; 500 when the user is falsy and the claim is not, or the user is inactive and the claim falsy |
| Jwt.ClaimSubject | app/Http/Middleware/Jwt.php:35 | on the claim the login chain issues, `get('active')` and `get('super')` are both falsy: they are read from the claim's key set, which has neither key, and a missing key reads as null |
| Jwt.IssuedClaimNeverAdmits | app/Http/Middleware/Jwt.php:34-40 | on a token the login chain issued, the request passes exactly when the authenticated user is active: the claim fallback never admits |
| Jwt.Handle | app/Http/Middleware/Jwt.php:20-50 | an admitted request gets exactly the answer of `$next`; any other gets the guard's refusal |
| JwtSuper.Decide | app/Http/Middleware/JwtSuper.php:22-47 | the request passes exactly when the user is truthy and it or the claim is active and super. 401, 403 and the two 500 cases are as in the base guard, with "active and super" for "active" |
| JwtSuper.Handle | app/Http/Middleware/JwtSuper.php:20-49 | an admitted request gets exactly the answer of `$next`; any other gets the guard's refusal |
| JwtSuper.IssuedClaimNeverAdmitsSuper | app/Http/Middleware/JwtSuper.php:34-40 | on a token the login chain issued, the request passes exactly when the authenticated user is active and super |
| JwtSuper.SuperAdmissionImpliesAdmission | app/Http/Middleware/JwtSuper.php:34-40 | every request the privileged guard admits, the base guard admits |
| JwtSuper.SuperGuardIsStricter | app/Http/Middleware/JwtSuper.php:34-40 | an active subject that is not super passes the base guard and gets 403 from the privileged one |
| JwtSuper.SameRefusalsBeforeTheRoleTest | app/Http/Middleware/JwtSuper.php:27-46 | both guards answer token exceptions, and a falsy user with a falsy claim, identically |
| UserController.GuardParameters | app/Http/Controllers/UserController.php:12-17 | `store`, `update` and `destroy` are guarded with `super`; `index` and `show` with `super,team` |
| UserController.ActionGuard | app/Http/Controllers/UserController.php:15-16 | every action's guard admits exactly what the base guard admits |
| UserController.GuardIgnoresParameters | app/Http/Controllers/UserController.php:15-16 | the guard parameters make no difference between actions, because `handle` declares none |
| UserController.NonSuperPassesSuperGuard | app/Http/Controllers/UserController.php:15 | an active user that is not super passes the guard of the `super` actions |
| UserController.Store | app/Http/Controllers/UserController.php:36-80 | a refused validation or insert is 500 with the table unchanged; otherwise the new record is inserted at the next id and returned with 201 |
| UserController.Updated | app/Http/Controllers/UserController.php:113-119 | the record after an update keeps its protected fields, equals the merge in every field but the password, and holds the hash of the raw request password when one is given |
| UserController.Update | app/Http/Controllers/UserController.php:97-128 | a missing user is 404. A refused validation is 500 with the table unchanged. Otherwise only that row changes, to the updated record, and it is answered with 200 |
| UserController.UpdatedWrappedPasswordFailsLogin | app/Http/Controllers/UserController.php:116-117 | a password sent base64-wrapped to `update` is hashed still wrapped, so logging in with it again fails |
| UserController.CreatedWrappedPasswordPassesLogin | app/Http/Controllers/UserController.php:54-61 | the same wrapped password at creation is hashed unwrapped and matches the login check |
| UserController.Destroy | app/Http/Controllers/UserController.php:133-145 | a missing user is 404; otherwise exactly that row is removed and it is answered with 200 |

## Left out

- The signing, parsing and expiry of JWTs (the tymon/jwt-auth library) are outcome values and issuer functions, not modelled.
- Password hashing is an injective symbolic constructor. bcrypt's 72-byte truncation, salts and the cost factor are not modelled.
- The validator's format rules (`string`, `email`, `max`, `min`, `date`, `in`, `numeric`, `boolean`) are one boolean input. Only the `unique` rules are checked against the table.
- A value the validator passes is used as given: no casting of dates, numbers or booleans.
- An explicit `null` in an update request is treated as an absent field.
- The database's e-mail comparison is exact bytes. A case-insensitive collation would also treat differently cased e-mails as equal.
- `rand` and `now()` are inputs. An id is the next integer, which stands for the auto-increment.
- The `User` model class (its fillable fields, casts and hidden attributes) is not part of this model. Responses carry the whole record.
- Base64.Decode does not skip whitespace or accept missing padding as PHP's strict decoder does. An input with either never re-encodes to itself, so `decodeBase64` does the same either way.
- The error message texts are an enumeration of which message is sent, not the strings.
- Route-model binding's 404 for an unknown user is modelled inside `update` and `destroy`, before the action's own code.
- `index` and `show` of the user directory are not modelled, beyond their guard. The same holds for SystemController and the routes file.
- The binding of the `auth.jwt` alias to a guard class (the HTTP kernel) is not part of this model. `UserController.ActionGuard` takes it to be the base guard.
- Jwt.Decide: a claim is read through its `active` and `super` flags. The claim the login chain issues has neither key, so both read as falsy (`Jwt.ClaimSubject`). If the JWT library decodes the claim into a value without a `get` method, the call throws and the 403 of that case becomes a 500; admission is the same either way.
- The `users` table has no `active` or `super` column. Whether the unseen `User` model supplies such attributes is not part of this model, so the authenticated user's flags are inputs.
- `User::where(...)->first()`, `Auth::validate` and `auth('api')->attempt` are total functions in the model. If one of them throws (a database or signing failure), the action's `catch (\Throwable)` answers 500; that path is not modelled.
- The JSON encoding of responses, headers and concurrency between requests are not modelled.
