/**
 * The user-directory controller: `store`, `update` and `destroy` over the `users` table, and
 * the guard its constructor puts in front of each action.
 */
module UserController {
  import opened Basics
  import opened Base64
  import opened Credentials
  import opened Users
  import opened Http
  import Jwt

  /** The resource actions of the controller. */
  datatype Action = IndexAction | StoreAction | ShowAction | UpdateAction | DestroyAction

  /** The roles written after `auth.jwt:` for each action in the constructor. */
  function GuardParameters(a: Action): (roles: seq<Role>)
    ensures a in {StoreAction, UpdateAction, DestroyAction} <==> roles == [Super]
    ensures a in {IndexAction, ShowAction} <==> roles == [Super, Team]
  {
    match a
    case StoreAction => [Super]
    case UpdateAction => [Super]
    case DestroyAction => [Super]
    case IndexAction => [Super, Team]
    case ShowAction => [Super, Team]
  }

  /**
   * The decision of the guard in front of an action, taking `auth.jwt` to name the base guard.
   * Its `handle` declares no parameter after `$next`, so the roles of `GuardParameters` are
   * passed to it and dropped.
   */
  function ActionGuard(a: Action, o: Jwt.ParseOutcome): (d: Jwt.Decision)
    ensures d.PassThrough? <==> Jwt.Admits(o)
  {
    Jwt.Decide(o)
  }

  /** The `:super` and `:super,team` parameters make no difference between actions. */
  lemma GuardIgnoresParameters(a: Action, b: Action, o: Jwt.ParseOutcome)
    ensures ActionGuard(a, o) == ActionGuard(b, o)
  {
  }

  /** An active subject that is not super passes the guard of `store`, `update` and `destroy`. */
  lemma NonSuperPassesSuperGuard(a: Action)
    requires GuardParameters(a) == [Super]
    ensures ActionGuard(a, Jwt.Parsed(Some(Jwt.Subject(true, false)), None)).PassThrough?
  {
  }

  /**
   * `store`: create the record both registration paths build and answer 201 with it. A
   * validation failure, or a write the unique indexes refuse, is caught and answered with 500.
   */
  method Store(table: UserTable, input: RegisterInput, rulesHold: bool, code: int, now: Bytes) returns (r: Response)
    requires table.Valid()
    requires ValidCode(code)
    modifies table
    ensures table.Valid()
    ensures CodesInRange(old(table.rows)) ==> CodesInRange(table.rows)
    ensures CreationRefused(old(table.rows), input, rulesHold, code) ==>
              && r == Error(StatusInternalServerError, FailedToCreateUser)
              && table.rows == old(table.rows) && table.nextId == old(table.nextId)
    ensures !CreationRefused(old(table.rows), input, rulesHold, code) ==>
              var u := NewRecord(code, input, now).(id := old(table.nextId));
              && old(table.nextId) !in old(table.rows)
              && table.rows == old(table.rows)[u.id := u]
              && table.nextId == old(table.nextId) + 1
              && r == Response(StatusCreated, MessageBody(UserCreated, Some(u)))
  {
    if !rulesHold || EmailTaken(table.rows, input.email) {
      return Error(StatusInternalServerError, FailedToCreateUser);
    }
    var created := table.Insert(NewRecord(code, input, now));
    if created.None? {
      return Error(StatusInternalServerError, FailedToCreateUser);
    }
    r := Response(StatusCreated, MessageBody(UserCreated, created));
  }

  /** The record after a successful `update`: the merge, then the raw request password hashed. */
  function Updated(u: UserRecord, input: UpdateInput): (v: UserRecord)
    ensures SameProtectedFields(u, v)
    ensures v.(password := Merge(u, input).password) == Merge(u, input)
    ensures input.password.Some? ==> v.password == Hashed(input.password.value)
    ensures input.password.None? ==> v.password == u.password
  {
    var merged := Merge(u, input);
    if input.password.Some? then merged.(password := Hashed(input.password.value)) else merged
  }

  /** Why `update` answers 500 without changing anything. */
  predicate UpdateRefused(rows: Rows, id: nat, input: UpdateInput, rulesHold: bool) {
    !rulesHold || (input.email.Some? && EmailTakenByOther(rows, input.email.value, id))
  }

  /**
   * `update`: write the validated fields, then, when a password was given, write its hash over
   * the raw text the first write stored. A user that does not exist is answered 404 by
   * route-model binding before the action runs.
   */
  method Update(table: UserTable, id: nat, input: UpdateInput, rulesHold: bool) returns (r: Response)
    requires table.Valid()
    modifies table
    ensures table.Valid() && table.nextId == old(table.nextId)
    ensures id !in old(table.rows) ==> r == Error(StatusNotFound, ModelNotFound) && table.rows == old(table.rows)
    ensures id in old(table.rows) && UpdateRefused(old(table.rows), id, input, rulesHold) ==>
              r == Error(StatusInternalServerError, FailedToUpdateUser) && table.rows == old(table.rows)
    ensures id in old(table.rows) && !UpdateRefused(old(table.rows), id, input, rulesHold) ==>
              var v := Updated(old(table.rows)[id], input);
              && table.rows == old(table.rows)[id := v]
              && r == Response(StatusOk, MessageBody(UserUpdated, Some(v)))
    ensures table.rows.Keys == old(table.rows).Keys
    ensures forall other | other in old(table.rows) && other != id :: table.rows[other] == old(table.rows)[other]
    ensures CodesInRange(old(table.rows)) ==> CodesInRange(table.rows)
  {
    if id !in table.rows {
      return Error(StatusNotFound, ModelNotFound);
    }
    if !rulesHold || (input.email.Some? && EmailTakenByOther(table.rows, input.email.value, id)) {
      return Error(StatusInternalServerError, FailedToUpdateUser);
    }
    var user := table.rows[id];
    var merged := Merge(user, input);
    assert !EmailTakenByOther(table.rows, merged.email, id);
    assert !CodeTakenByOther(table.rows, merged.code, id);
    var ok := table.Put(merged);
    assert ok;
    if input.password.Some? {
      var rehashed := merged.(password := Hashed(input.password.value));
      assert !EmailTakenByOther(table.rows, rehashed.email, id);
      assert !CodeTakenByOther(table.rows, rehashed.code, id);
      ok := table.Put(rehashed);
      assert ok;
      user := rehashed;
    } else {
      user := merged;
    }
    r := Response(StatusOk, MessageBody(UserUpdated, Some(user)));
  }

  /**
   * The password `update` stores is not unwrapped as `store` and the login check unwrap it: a
   * password sent wrapped in base 64, as the login endpoints accept it, no longer matches.
   */
  lemma UpdatedWrappedPasswordFailsLogin(u: UserRecord, input: UpdateInput, plain: Bytes)
    requires |plain| > 0
    requires input.password == Some(Encode(plain))
    ensures var c := ValidateCredentials(LoginRequest(Some(Updated(u, input).email), input.password)).value;
            c.password == plain && !HashCheck(c.password, Updated(u, input).password)
  {
    DecodeBase64OfEncoding(plain);
    EncodedLengthIsQuanta(plain);
  }

  /** The same wrapped password at creation does match the login check. */
  lemma CreatedWrappedPasswordPassesLogin(code: int, input: RegisterInput, now: Bytes, plain: Bytes)
    requires input.password == Encode(plain)
    ensures var c := ValidateCredentials(LoginRequest(Some(input.email), Some(input.password))).value;
            c.password == plain && HashCheck(c.password, NewRecord(code, input, now).password)
  {
    DecodeBase64OfEncoding(plain);
  }

  /** `destroy`: delete exactly that user and answer 200; a missing user is answered 404 before. */
  method Destroy(table: UserTable, id: nat) returns (r: Response)
    requires table.Valid()
    modifies table
    ensures table.Valid() && table.nextId == old(table.nextId)
    ensures id !in old(table.rows) ==> r == Error(StatusNotFound, ModelNotFound) && table.rows == old(table.rows)
    ensures id in old(table.rows) ==> r == Response(StatusOk, MessageBody(UserDeleted, None))
    ensures table.rows == old(table.rows) - {id}
    ensures CodesInRange(old(table.rows)) ==> CodesInRange(table.rows)
    ensures forall other | other in old(table.rows) && other != id :: other in table.rows && table.rows[other] == old(table.rows)[other]
  {
    if id !in table.rows {
      return Error(StatusNotFound, ModelNotFound);
    }
    table.Delete(id);
    r := Response(StatusOk, MessageBody(UserDeleted, None));
  }
}
