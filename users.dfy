/**
 * The `users` table: its record, the value sets of its enum columns, the records the two
 * `store` actions build, the field merge of the `update` action, and the table itself with
 * the unique indexes on `email` and `code`.
 */
module Users {
  import opened Basics
  import opened Credentials

  /** The `role` column's enum; `user` is its default. */
  datatype Role = User | Super | Team | Invite

  /** The `gender` column's enum. */
  datatype Gender = F | M | O

  /**
   * A stored password. `Hash::make` is salted and one-way; the model keeps only what the
   * hasher's check relies on: `Hashed(p)` verifies against `p` and nothing else.
   * `Plain(t)` is a value written to the column without hashing.
   */
  datatype Secret = Hashed(plain: Bytes) | Plain(text: Bytes)

  /** `Hash::check(p, h)`, idealised: no two plaintexts share a hash. */
  predicate HashCheck(p: Bytes, stored: Secret) {
    stored == Hashed(p)
  }

  /** One row of `users` (the columns the controllers write). */
  datatype UserRecord = UserRecord(
    id: nat,
    code: int,
    name: Bytes,
    email: Bytes,
    password: Secret,
    docNumber: Option<int>,
    dateBirth: Option<Bytes>,
    gender: Option<Gender>,
    receiveEmailNotifications: bool,
    dateAgreeTerms: Option<Bytes>,
    terms: Option<Bytes>,
    enabled: bool,
    role: Role)

  /** The range `rand(100000000000, 999999999999)` draws the `code` from. */
  const MinCode: int := 100000000000
  const MaxCode: int := 999999999999

  predicate ValidCode(code: int) {
    MinCode <= code <= MaxCode
  }

  /** The fields of a registration that passed validation (the optional ones may be absent). */
  datatype RegisterInput = RegisterInput(
    name: Bytes,
    email: Bytes,
    password: Bytes,
    terms: Bytes,
    docNumber: Option<int>,
    dateBirth: Option<Bytes>,
    gender: Option<Gender>,
    receiveEmailNotifications: Option<bool>,
    dateAgreeTerms: Option<Bytes>)

  /**
   * The attributes both `store` actions pass to `User::create`. The id is assigned by the store;
   * `now` is the time `now()` returns.
   */
  function NewRecord(code: int, input: RegisterInput, now: Bytes): (u: UserRecord)
    ensures u.role == User && u.enabled
    ensures u.receiveEmailNotifications <==> input.receiveEmailNotifications != Some(false)
    ensures u.dateAgreeTerms.Some? && (input.dateAgreeTerms.None? ==> u.dateAgreeTerms == Some(now))
    ensures u.email == input.email && u.name == input.name && u.terms == Some(input.terms)
    ensures u.password == Hashed(DecodeBase64(input.password))
    ensures u.code == code
    ensures u.docNumber == input.docNumber && u.dateBirth == input.dateBirth && u.gender == input.gender
    ensures u.dateAgreeTerms == Some(input.dateAgreeTerms.GetOr(now))
  {
    UserRecord(
      id := 0,
      code := code,
      name := input.name,
      email := input.email,
      password := Hashed(DecodeBase64(input.password)),
      docNumber := input.docNumber,
      dateBirth := input.dateBirth,
      gender := input.gender,
      receiveEmailNotifications := input.receiveEmailNotifications.GetOr(true),
      dateAgreeTerms := Some(input.dateAgreeTerms.GetOr(now)),
      terms := Some(input.terms),
      enabled := true,
      role := User)
  }

  /** The validated fields of an update request; an absent field is left alone. */
  datatype UpdateInput = UpdateInput(
    name: Option<Bytes>,
    email: Option<Bytes>,
    password: Option<Bytes>,
    docNumber: Option<int>,
    dateBirth: Option<Bytes>,
    gender: Option<Gender>,
    receiveEmailNotifications: Option<bool>,
    dateAgreeTerms: Option<Bytes>)

  /** `$user->update($validatedData)`: each present field overwrites, the password as the raw text. */
  function Merge(u: UserRecord, input: UpdateInput): (v: UserRecord)
    ensures v.id == u.id && v.code == u.code && v.terms == u.terms
    ensures v.enabled == u.enabled && v.role == u.role
    ensures input.password.Some? ==> v.password == Plain(input.password.value)
    ensures input.password.None? ==> v.password == u.password
    ensures v.email == input.email.GetOr(u.email) && v.name == input.name.GetOr(u.name)
    ensures v.docNumber == (if input.docNumber.Some? then input.docNumber else u.docNumber)
    ensures v.dateBirth == (if input.dateBirth.Some? then input.dateBirth else u.dateBirth)
    ensures v.gender == (if input.gender.Some? then input.gender else u.gender)
    ensures v.receiveEmailNotifications == input.receiveEmailNotifications.GetOr(u.receiveEmailNotifications)
    ensures v.dateAgreeTerms == (if input.dateAgreeTerms.Some? then input.dateAgreeTerms else u.dateAgreeTerms)
  {
    UserRecord(
      id := u.id,
      code := u.code,
      name := input.name.GetOr(u.name),
      email := input.email.GetOr(u.email),
      password := if input.password.Some? then Plain(input.password.value) else u.password,
      docNumber := if input.docNumber.Some? then input.docNumber else u.docNumber,
      dateBirth := if input.dateBirth.Some? then input.dateBirth else u.dateBirth,
      gender := if input.gender.Some? then input.gender else u.gender,
      receiveEmailNotifications := input.receiveEmailNotifications.GetOr(u.receiveEmailNotifications),
      dateAgreeTerms := if input.dateAgreeTerms.Some? then input.dateAgreeTerms else u.dateAgreeTerms,
      terms := u.terms,
      enabled := u.enabled,
      role := u.role)
  }

  /** The fields of a record an update request can never change. */
  predicate SameProtectedFields(u: UserRecord, v: UserRecord) {
    u.id == v.id && u.code == v.code && u.terms == v.terms && u.enabled == v.enabled && u.role == v.role
  }

  /** A merge touches only the eight fillable fields, and an empty request touches none. */
  lemma MergeTouchesOnlyRequestFields(u: UserRecord, input: UpdateInput)
    ensures SameProtectedFields(u, Merge(u, input))
    ensures input == UpdateInput(None, None, None, None, None, None, None, None) ==> Merge(u, input) == u
  {
  }

  /** `$user->only(['id', 'name', 'enabled', 'role'])`: the `user` claim put into the tokens the login chain issues. */
  datatype UserClaims = UserClaims(id: nat, name: Bytes, enabled: bool, role: Role)

  function Claims(u: UserRecord): (c: UserClaims)
    ensures c.id == u.id && c.name == u.name && c.enabled == u.enabled && c.role == u.role
  {
    UserClaims(u.id, u.name, u.enabled, u.role)
  }

  /** A value a claim key maps to. */
  datatype ClaimValue = IdValue(n: nat) | TextValue(text: Bytes) | FlagValue(flag: bool) | RoleValue(role: Role)

  /** The claim as the key-value array `only` builds: exactly the four selected keys. */
  function ClaimEntries(c: UserClaims): (m: map<string, ClaimValue>)
    ensures m.Keys == {"id", "name", "enabled", "role"}
    ensures m["id"] == IdValue(c.id) && m["name"] == TextValue(c.name)
    ensures m["enabled"] == FlagValue(c.enabled) && m["role"] == RoleValue(c.role)
  {
    map["id" := IdValue(c.id), "name" := TextValue(c.name), "enabled" := FlagValue(c.enabled), "role" := RoleValue(c.role)]
  }

  type Rows = map<nat, UserRecord>

  predicate EmailTaken(rows: Rows, email: Bytes) {
    exists id | id in rows :: rows[id].email == email
  }

  /** `unique:users,email,<id>`: the e-mail belongs to a row other than `id`. */
  predicate EmailTakenByOther(rows: Rows, email: Bytes, id: nat) {
    exists other | other in rows && other != id :: rows[other].email == email
  }

  predicate CodeTaken(rows: Rows, code: int) {
    exists id | id in rows :: rows[id].code == code
  }

  predicate CodeTakenByOther(rows: Rows, code: int, id: nat) {
    exists other | other in rows && other != id :: rows[other].code == code
  }

  ghost predicate EmailsUnique(rows: Rows) {
    forall i, j | i in rows && j in rows && rows[i].email == rows[j].email :: i == j
  }

  ghost predicate CodesUnique(rows: Rows) {
    forall i, j | i in rows && j in rows && rows[i].code == rows[j].code :: i == j
  }

  ghost predicate CodesInRange(rows: Rows) {
    forall id | id in rows :: ValidCode(rows[id].code)
  }

  /**
   * Why a `store` answers 500 before anything is written: a validation rule fails, the
   * `unique:users,email` rule finds the e-mail, or the unique index on `code` refuses the row.
   */
  predicate CreationRefused(rows: Rows, input: RegisterInput, rulesHold: bool, code: int) {
    !rulesHold || EmailTaken(rows, input.email) || CodeTaken(rows, code)
  }

  /**
   * The `users` table: rows by auto-increment id. The database enforces the unique indexes
   * on `email` and `code`; a write that would break one fails and changes nothing.
   */
  class UserTable {
    var rows: Rows
    var nextId: nat

    ghost predicate Valid()
      reads this
    {
      && 0 < nextId
      && (forall id | id in rows :: rows[id].id == id && 0 < id < nextId)
      && EmailsUnique(rows)
      && CodesUnique(rows)
    }

    constructor ()
      ensures Valid() && rows == map[] && nextId == 1
    {
      rows := map[];
      nextId := 1;
    }

    /** `INSERT`: the row gets the next id, unless its e-mail or code is taken. */
    method Insert(u: UserRecord) returns (r: Option<UserRecord>)
      requires Valid()
      modifies this
      ensures Valid()
      ensures r.None? <==> EmailTaken(old(rows), u.email) || CodeTaken(old(rows), u.code)
      ensures r.None? ==> rows == old(rows) && nextId == old(nextId)
      ensures r.Some? ==> && r.value == u.(id := old(nextId))
                          && old(nextId) !in old(rows)
                          && rows == old(rows)[old(nextId) := r.value]
                          && nextId == old(nextId) + 1
    {
      if EmailTaken(rows, u.email) || CodeTaken(rows, u.code) {
        return None;
      }
      var v := u.(id := nextId);
      rows := rows[nextId := v];
      nextId := nextId + 1;
      r := Some(v);
    }

    /** `UPDATE ... WHERE id = u.id`, unless another row holds the new e-mail or code. */
    method Put(u: UserRecord) returns (ok: bool)
      requires Valid() && u.id in rows
      modifies this
      ensures Valid() && nextId == old(nextId)
      ensures ok <==> !EmailTakenByOther(old(rows), u.email, u.id) && !CodeTakenByOther(old(rows), u.code, u.id)
      ensures rows == if ok then old(rows)[u.id := u] else old(rows)
    {
      ok := !EmailTakenByOther(rows, u.email, u.id) && !CodeTakenByOther(rows, u.code, u.id);
      if ok {
        rows := rows[u.id := u];
      }
    }

    /** `DELETE ... WHERE id = id`. */
    method Delete(id: nat)
      requires Valid()
      modifies this
      ensures Valid() && nextId == old(nextId)
      ensures rows == old(rows) - {id}
    {
      rows := rows - {id};
    }
  }
}
