/**
 * The profile endpoint: names must not be empty strings, a non-empty phone
 * must be eight digits not starting with 0, and the session's user id must
 * be present and numeric before the update runs.
 */
module ProfileController {
  import opened Common
  import opened Text
  import opened Js
  import opened Tables
  import opened Profile

  const MsgEmptyName := "Los campos de nombre/apellidos no pueden ser cadenas vacías"
  const MsgBadPhone := "El número de teléfono no tiene un formato válido"
  const MsgNotAuthenticated := "Usuario no autenticado"
  const MsgBadUserId := "Id de usuario inválido"

  /** `/^[1-9]\d{7}$/`. */
  predicate PhonePattern(s: string)
  {
    |s| == 8 && '1' <= s[0] <= '9' && AllDigits(s[1..])
  }

  /** A key sent as the empty string. */
  predicate EmptyValue(f: Field)
  {
    f == Value("")
  }

  /** A phone the pattern must accept: one sent as non-empty text. */
  predicate PhoneToCheck(f: Field)
  {
    f.Value? && f.v != []
  }

  /** The body checks: first the three names, then the phone. */
  function ValidateProfileBody(b: ProfilePayload): (o: Outcome)
    ensures o.Pass? <==>
      !EmptyValue(b.firstName) && !EmptyValue(b.lastName1) && !EmptyValue(b.lastName2)
      && (PhoneToCheck(b.phone) ==> PhonePattern(b.phone.v))
    ensures EmptyValue(b.firstName) || EmptyValue(b.lastName1) || EmptyValue(b.lastName2) ==>
      o == Fail(HttpError(400, MsgEmptyName))
    ensures o.Fail? ==> o.error.status == 400
  {
    if EmptyValue(b.firstName) || EmptyValue(b.lastName1) || EmptyValue(b.lastName2) then
      Fail(HttpError(400, MsgEmptyName))
    else if PhoneToCheck(b.phone) && !PhonePattern(b.phone.v) then Fail(HttpError(400, MsgBadPhone))
    else Pass
  }

  /**
   * `updateProfileController`: body checks, then the session id (absent or
   * empty answers 401, not a number 500), then the service; the answer is
   * the updated user.
   */
  function UpdateProfileController(
    db: Db, rawUserId: Option<string>, b: ProfilePayload, failure: Option<WriteFailure>)
    : (s: Step<PublicUser>)
    requires Valid(db)
    ensures Valid(s.db)
    ensures s.result.Err? ==> s.db == db
    ensures ValidateProfileBody(b).Fail? ==> s.result == Err(ValidateProfileBody(b).error)
    ensures ValidateProfileBody(b).Pass? && (rawUserId.None? || rawUserId.value == []) ==>
      s.result == Err(HttpError(401, MsgNotAuthenticated))
    ensures ValidateProfileBody(b).Pass? && rawUserId.Some? && rawUserId.value != [] ==>
      var n := NumberOfString(rawUserId.value);
      && (n.None? ==> s.result == Err(HttpError(500, MsgBadUserId)))
      && (n.Some? && n.value != n.value.Floor as real ==> s.result == Err(HttpError(500, MsgSystemError)))
      && (n.Some? && n.value == n.value.Floor as real ==> s == UpdateUserProfile(db, n.value.Floor, b, failure))
  {
    var check := ValidateProfileBody(b);
    if check.Fail? then Step(Err(check.error), db)
    else if rawUserId.None? || rawUserId.value == [] then Step(Err(HttpError(401, MsgNotAuthenticated)), db)
    else
      var n := NumberOfString(rawUserId.value);
      if n.None? then Step(Err(HttpError(500, MsgBadUserId)), db)
      else if n.value != n.value.Floor as real then Step(Err(HttpError(500, MsgSystemError)), db)
      else UpdateUserProfile(db, n.value.Floor, b, failure)
  }

  /** Every phone the endpoint lets through unchanged is empty, absent, null or eight digits starting with 1 to 9. */
  lemma StoredPhoneIsValid(db: Db, rawUserId: Option<string>, b: ProfilePayload)
    requires Valid(db)
    requires UpdateProfileController(db, rawUserId, b, None).result.Ok?
    ensures var u := UpdateProfileController(db, rawUserId, b, None).result.value;
      b.phone.Value? ==> u.phone == Some(b.phone.v) && (b.phone.v == [] || PhonePattern(b.phone.v))
  {
  }

  /** A user reaching the endpoint with the decimal form of a stored id updates that user. */
  lemma SessionIdSelectsUser(db: Db, id: int, b: ProfilePayload)
    requires Valid(db) && id in db.users
    requires ValidateProfileBody(b).Pass?
    ensures UpdateProfileController(db, Some(IntToString(id)), b, None).result.Ok?
    ensures UpdateProfileController(db, Some(IntToString(id)), b, None).db.users[id] == Applied(db.users[id], b)
  {
    NumberOfIntToString(id);
  }
}
