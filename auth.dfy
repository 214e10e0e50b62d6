/**
 * The authentication and authorisation middleware. Token verification
 * (`jwt.verify`) is a parameter returning a verdict; the user it yields is
 * stored in the request's locals, which the class `RequestLocals` stands for.
 */
module Auth {
  import opened Common
  import opened Text
  import opened Tables

  const MsgAuthFailed := "Autenticación fallida."
  const MsgTokenExpired := "Autenticación fallida: Token expirado."
  const MsgTokenUnexpected := "Autenticación fallida por un error inesperado durante la verificación del token."
  const MsgRolePrefix := "Usuario no tiene rol: "
  const MsgSuspended := "Operación denegada, tu cuenta fue suspendida."
  const MsgInternalPrefix := "Error interno del servidor:\n"

  /** The user a valid token names. */
  datatype AuthUser = AuthUser(id: string, email: string, role: string, username: string)

  /** What `jwt.verify` does with a token: accept it, or throw one of three kinds of error. */
  datatype Verdict = Verified(user: AuthUser) | Expired | Malformed(reason: string) | Crashed

  /** A cookie value JavaScript treats as present. */
  predicate HasToken(token: Option<string>)
  {
    token.Some? && token.value != []
  }

  /** `authenticate`: no token answers 401; otherwise the verdict decides, every failure answering 401. */
  function Authenticate(token: Option<string>, verify: string -> Verdict): (r: Result<AuthUser>)
    ensures r.Err? ==> r.error.status == 401
    ensures r.Ok? <==> HasToken(token) && verify(token.value).Verified?
    ensures r.Ok? ==> r.value == verify(token.value).user
    ensures !HasToken(token) ==> r == Err(HttpError(401, MsgAuthFailed))
    ensures HasToken(token) && verify(token.value).Expired? ==> r == Err(HttpError(401, MsgTokenExpired))
  {
    if !HasToken(token) then Err(HttpError(401, MsgAuthFailed))
    else
      match verify(token.value)
      case Verified(u) => Ok(u)
      case Expired => Err(HttpError(401, MsgTokenExpired))
      case Malformed(reason) => Err(HttpError(401, "Autenticación fallida: " + reason))
      case Crashed => Err(HttpError(401, MsgTokenUnexpected))
  }

  /** `optionalAuthenticate`: never fails; it yields a user exactly when `authenticate` would. */
  function OptionalAuthenticate(token: Option<string>, verify: string -> Verdict): (u: Option<AuthUser>)
    ensures u.Some? <==> Authenticate(token, verify).Ok?
    ensures u.Some? ==> u.value == Authenticate(token, verify).value
  {
    if HasToken(token) && verify(token.value).Verified? then Some(verify(token.value).user) else None
  }

  /** The part of `res.locals` the middleware writes. */
  class RequestLocals {
    var user: Option<AuthUser>

    constructor ()
      ensures user.None?
    {
      user := None;
    }
  }

  /** `authenticate` on a request: on success the user is stored, on failure nothing is. */
  method AuthenticateRequest(locals: RequestLocals, token: Option<string>, verify: string -> Verdict) returns (o: Outcome)
    modifies locals
    ensures Authenticate(token, verify).Ok? ==> o == Pass && locals.user == Some(Authenticate(token, verify).value)
    ensures Authenticate(token, verify).Err? ==> o == Fail(Authenticate(token, verify).error) && locals.user == old(locals.user)
  {
    var r := Authenticate(token, verify);
    if r.Err? {
      return Fail(r.error);
    }
    locals.user := Some(r.value);
    o := Pass;
  }

  /** `optionalAuthenticate` on a request: the user is stored when the token verifies and left alone otherwise. */
  method OptionalAuthenticateRequest(locals: RequestLocals, token: Option<string>, verify: string -> Verdict)
    modifies locals
    ensures OptionalAuthenticate(token, verify).Some? ==> locals.user == OptionalAuthenticate(token, verify)
    ensures OptionalAuthenticate(token, verify).None? ==> locals.user == old(locals.user)
  {
    var u := OptionalAuthenticate(token, verify);
    if u.Some? {
      locals.user := u;
    }
  }

  /** `autorize(...roles)`: passes iff the user's role is listed; otherwise 401 naming the roles. */
  function Autorize(roles: seq<string>, role: string): (o: Outcome)
    ensures o.Pass? <==> role in roles
    ensures o.Fail? ==> o.error == HttpError(401, MsgRolePrefix + Join(roles, ", ") + ".")
  {
    if role in roles then Pass else Fail(HttpError(401, MsgRolePrefix + Join(roles, ", ") + "."))
  }

  /** With a single required role the refusal names exactly that role. */
  lemma AutorizeOneRole(required: string, role: string)
    requires role != required
    ensures Autorize([required], role) == Fail(HttpError(401, MsgRolePrefix + required + "."))
  {
    assert Join([required], ", ") == required;
  }

  /** Listing more roles never refuses a role that passed before. */
  lemma AutorizeMonotone(roles: seq<string>, more: seq<string>, role: string)
    requires Autorize(roles, role).Pass?
    ensures Autorize(roles + more, role).Pass? && Autorize(more + roles, role).Pass?
  {
    var i :| 0 <= i < |roles| && roles[i] == role;
    assert (roles + more)[i] == role;
    assert (more + roles)[|more| + i] == role;
  }

  /**
   * `checkUserIsDeleted`: the id is `parseInt` of the token's id. A stored,
   * deleted user is refused with 403; an unknown user passes. An id that is
   * not a number makes the lookup throw, which answers 500.
   */
  function CheckUserIsDeleted(users: map<int, User>, rawId: string): (o: Outcome)
    ensures o.Fail? && o.error.status == 403 <==>
      ParseIntAuto(rawId).Some? && ParseIntAuto(rawId).value in users && users[ParseIntAuto(rawId).value].isDeleted
    ensures o.Pass? <==>
      ParseIntAuto(rawId).Some? && (ParseIntAuto(rawId).value !in users || !users[ParseIntAuto(rawId).value].isDeleted)
    ensures o.Fail? && o.error.status == 403 ==> o.error.message == MsgSuspended
    ensures ParseIntAuto(rawId).None? ==> o.Fail? && o.error.status == 500
  {
    var id := ParseIntAuto(rawId);
    if id.None? then Fail(HttpError(500, MsgInternalPrefix))
    else if id.value in users && users[id.value].isDeleted then Fail(HttpError(403, MsgSuspended))
    else Pass
  }

  /** A user whose token id is the decimal form of the stored id is refused exactly when the account is flagged. */
  lemma SuspendedIffDeleted(users: map<int, User>, id: int)
    requires id in users
    ensures CheckUserIsDeleted(users, IntToString(id)).Pass? <==> !users[id].isDeleted
    ensures users[id].isDeleted ==> CheckUserIsDeleted(users, IntToString(id)) == Fail(HttpError(403, MsgSuspended))
  {
    ParseIntAutoIntToString(id);
  }
}
