/**
 * The payment provider's OAuth credentials of a teacher: exchanging an
 * authorisation code, refreshing an expired access token, and the status
 * check that refreshes on demand. The provider's token endpoint is an
 * oracle: each call passes in what the provider answered (or that it threw).
 * Times are milliseconds since the epoch; `now` is the clock reading.
 */
module OAuth {
  import opened Common
  import opened Tables

  /** Refresh tokens are treated as valid for 180 days. */
  const RefreshTokenLifetimeMs := 180 * 24 * 60 * 60 * 1000

  /** The token endpoint's answer; `expiresIn` is in seconds, absent fields are `None`. */
  datatype TokenResponse = TokenResponse(
    accessToken: Option<string>, refreshToken: Option<string>, expiresIn: Option<int>)

  /** A call to the payment provider: it threw, or it answered. */
  datatype Reply<+T> = Threw | Answered(value: T)

  /** A text field that is present and non-empty (truthy). */
  predicate TruthyText(o: Option<string>)
  {
    o.Some? && o.value != ""
  }

  /** All three of access token, refresh token and lifetime are truthy. */
  predicate CompleteTokens(r: TokenResponse)
  {
    TruthyText(r.accessToken) && TruthyText(r.refreshToken) && r.expiresIn.Some? && r.expiresIn.value != 0
  }

  /** A stored expiration lies before the clock reading. */
  predicate Expired(expiration: int, now: int)
  {
    expiration < now
  }

  /** The credential stored from a complete token answer received at `now`. */
  function Renewed(userId: int, r: TokenResponse, now: int): Credential
    requires CompleteTokens(r)
  {
    Credential(userId, r.accessToken.value, now + r.expiresIn.value * 1000,
               r.refreshToken.value, now + RefreshTokenLifetimeMs)
  }

  /** A renewed credential's access token is usable for its whole announced lifetime, its refresh token for 180 days. */
  lemma RenewedIsFresh(userId: int, r: TokenResponse, now: int, t: int)
    requires CompleteTokens(r) && r.expiresIn.value > 0
    requires now <= t <= now + r.expiresIn.value * 1000
    ensures !Expired(Renewed(userId, r, now).accessTokenExpiration, t)
    ensures t <= now + RefreshTokenLifetimeMs ==> !Expired(Renewed(userId, r, now).refreshTokenExpiration, t)
    ensures Renewed(userId, r, now).userId == userId
  {
  }

  // ---------------------------------------------------------------- refresh

  const MsgUserNotFound := "Usuario no encontrado"
  const MsgNotLinked := "El usuario no ha vinculado su cuenta de MercadoPago"
  const MsgRefreshExpired :=
    "El token de refresco ha expirado, el usuario debe volver a vincular su cuenta de MercadoPago"
  const MsgIncompleteTokens := "No se pudieron refrescar los tokens de OAuth"

  /** The checks a refresh makes before calling the provider. */
  function RefreshGuard(db: Db, userId: int, now: int): (o: Outcome)
    ensures o == Pass <==>
      userId in db.users && userId in db.creds && !Expired(db.creds[userId].refreshTokenExpiration, now)
    ensures OutcomeStatus(o) == 404 <==> userId !in db.users
    ensures o.Fail? ==> o.error.status in {400, 404}
  {
    if userId !in db.users then Fail(HttpError(404, MsgUserNotFound))
    else if userId !in db.creds then Fail(HttpError(400, MsgNotLinked))
    else if Expired(db.creds[userId].refreshTokenExpiration, now) then Fail(HttpError(400, MsgRefreshExpired))
    else Pass
  }

  /**
   * Refreshing a user's tokens: the guard, then the provider call, then the
   * stored credential replaced. Nothing is written unless everything succeeds.
   */
  function RefreshOAuthToken(db: Db, userId: int, now: int, reply: Reply<TokenResponse>): (s: Step<TokenResponse>)
    requires Valid(db)
    ensures Valid(s.db)
    ensures s.result.Err? ==> s.db == db
    ensures RefreshGuard(db, userId, now).Fail? ==> s.result == Err(RefreshGuard(db, userId, now).error)
    ensures s.result.Ok? <==>
      RefreshGuard(db, userId, now) == Pass && reply.Answered? && CompleteTokens(reply.value)
    ensures s.result.Err? ==> s.result.error.status in {400, 404, 500}
    ensures s.result.Ok? ==>
      s.result.value == reply.value &&
      s.db == db.(creds := db.creds[userId := Renewed(userId, reply.value, now)])
  {
    var guard := RefreshGuard(db, userId, now);
    if guard.Fail? then Step(Err(guard.error), db)
    else if reply.Threw? then Step(Err(HttpError(500, "Error al refrescar los tokens de OAuth")), db)
    else if !CompleteTokens(reply.value) then Step(Err(HttpError(500, MsgIncompleteTokens)), db)
    else Step(Ok(reply.value), db.(creds := db.creds[userId := Renewed(userId, reply.value, now)]))
  }

  method RefreshOAuthTokenService(store: Database, userId: int, now: int, reply: Reply<TokenResponse>)
    returns (r: Result<TokenResponse>)
    requires Valid(store.Model())
    modifies store
    ensures Step(r, store.Model()) == RefreshOAuthToken(old(store.Model()), userId, now, reply)
  {
    if userId !in store.users {
      return Err(HttpError(404, MsgUserNotFound));
    }
    if userId !in store.creds {
      return Err(HttpError(400, MsgNotLinked));
    }
    var info := store.creds[userId];
    if info.refreshTokenExpiration < now {
      return Err(HttpError(400, MsgRefreshExpired));
    }
    if reply.Threw? {
      return Err(HttpError(500, "Error al refrescar los tokens de OAuth"));
    }
    var response := reply.value;
    if !CompleteTokens(response) {
      return Err(HttpError(500, MsgIncompleteTokens));
    }
    store.creds := store.creds[userId := Renewed(userId, response, now)];
    r := Ok(response);
  }

  // ----------------------------------------------------------------- create

  const MsgOAuthFailed := "Error en el proceso de OAuth con MercadoPago"

  /**
   * Exchanging an authorisation code: a complete answer is stored, creating
   * the user's credential or replacing it (one credential per user). Creating
   * one for an id with no user breaks the foreign key and fails.
   */
  function CreateOAuthToken(db: Db, userId: int, now: int, reply: Reply<TokenResponse>): (s: Step<TokenResponse>)
    requires Valid(db)
    ensures Valid(s.db)
    ensures s.result.Err? ==> s.db == db && s.result.error.status == 500
    ensures s.result.Ok? <==>
      reply.Answered? && CompleteTokens(reply.value) && (userId in db.creds || userId in db.users)
    ensures s.result.Ok? ==>
      s.result.value == reply.value &&
      s.db == db.(creds := db.creds[userId := Renewed(userId, reply.value, now)])
  {
    if reply.Threw? then Step(Err(HttpError(500, MsgOAuthFailed)), db)
    else if !CompleteTokens(reply.value) then Step(Err(HttpError(500, MsgIncompleteTokens)), db)
    else if userId !in db.creds && userId !in db.users then Step(Err(HttpError(500, MsgOAuthFailed)), db)
    else Step(Ok(reply.value), db.(creds := db.creds[userId := Renewed(userId, reply.value, now)]))
  }

  method CreateOAuthTokenService(store: Database, userId: int, now: int, reply: Reply<TokenResponse>)
    returns (r: Result<TokenResponse>)
    requires Valid(store.Model())
    modifies store
    ensures Step(r, store.Model()) == CreateOAuthToken(old(store.Model()), userId, now, reply)
  {
    if reply.Threw? {
      return Err(HttpError(500, MsgOAuthFailed));
    }
    var response := reply.value;
    if !CompleteTokens(response) {
      return Err(HttpError(500, MsgIncompleteTokens));
    }
    if userId !in store.creds && userId !in store.users {
      return Err(HttpError(500, MsgOAuthFailed));
    }
    store.creds := store.creds[userId := Renewed(userId, response, now)];
    r := Ok(response);
  }

  // ------------------------------------------------------------------ check

  /** The answer of the status check; failures are reported in the body, not thrown. */
  datatype OAuthStatus = OAuthStatus(status: int, message: string, hasOAuth: bool)

  /** What the status check does for a user at a given time. */
  datatype CheckDecision = NoUser | NotLinked | RelinkNeeded | RefreshFirst | Linked

  function CheckDecisionOf(db: Db, userId: int, now: int): (d: CheckDecision)
    ensures d == Linked <==>
      userId in db.users && userId in db.creds && !Expired(db.creds[userId].accessTokenExpiration, now)
    ensures d == RefreshFirst ==> RefreshGuard(db, userId, now) == Pass
    ensures d == RelinkNeeded ==> RefreshGuard(db, userId, now).Fail?
  {
    if userId !in db.users then NoUser
    else if userId !in db.creds then NotLinked
    else if Expired(db.creds[userId].accessTokenExpiration, now) then
      if Expired(db.creds[userId].refreshTokenExpiration, now) then RelinkNeeded else RefreshFirst
    else Linked
  }

  const MsgCheckFailed := "Error al verificar el estado de OAuth"

  /**
   * The OAuth status check. It refreshes an expired access token whose
   * refresh token is still valid; any failure of that refresh becomes a 500.
   */
  function CheckOAuth(db: Db, userId: int, now: int, reply: Reply<TokenResponse>): (s: Step<OAuthStatus>)
    requires Valid(db)
    ensures Valid(s.db)
    ensures s.result.Err? ==> s.result.error == HttpError(500, MsgCheckFailed) && s.db == db
    ensures s.result.Err? ==> CheckDecisionOf(db, userId, now) == RefreshFirst
    ensures s.result.Ok? ==>
      (s.result.value.hasOAuth <==> CheckDecisionOf(db, userId, now) in {RefreshFirst, Linked})
    ensures s.result.Ok? ==> (s.result.value.status == 200 <==> s.result.value.hasOAuth)
    ensures s.result.Ok? ==> (s.result.value.status == 404 <==> userId !in db.users)
    ensures s.result.Ok? ==>
      (s.result.value.status == 400 <==> CheckDecisionOf(db, userId, now) in {NotLinked, RelinkNeeded})
    ensures userId !in db.users ==> s.result == Ok(OAuthStatus(404, MsgUserNotFound, false))
    ensures userId in db.users && userId !in db.creds ==> s.result == Ok(OAuthStatus(400, MsgNotLinked, false))
    ensures (&& userId in db.users && userId in db.creds
             && Expired(db.creds[userId].accessTokenExpiration, now)
             && Expired(db.creds[userId].refreshTokenExpiration, now)) ==>
      s.result == Ok(OAuthStatus(400, MsgRefreshExpired, false))
    ensures CheckDecisionOf(db, userId, now) != RefreshFirst ==> s.db == db
    ensures CheckDecisionOf(db, userId, now) == RefreshFirst ==>
      s == (var t := RefreshOAuthToken(db, userId, now, reply);
            if t.result.Err? then Step(Err(HttpError(500, MsgCheckFailed)), db)
            else Step(Ok(OAuthStatus(200, "Usuario tiene OAuth con MercadoPago", true)), t.db))
  {
    match CheckDecisionOf(db, userId, now)
    case NoUser => Step(Ok(OAuthStatus(404, MsgUserNotFound, false)), db)
    case NotLinked => Step(Ok(OAuthStatus(400, MsgNotLinked, false)), db)
    case RelinkNeeded => Step(Ok(OAuthStatus(400, MsgRefreshExpired, false)), db)
    case RefreshFirst =>
      var t := RefreshOAuthToken(db, userId, now, reply);
      if t.result.Err? then Step(Err(HttpError(500, MsgCheckFailed)), db)
      else Step(Ok(OAuthStatus(200, "Usuario tiene OAuth con MercadoPago", true)), t.db)
    case Linked => Step(Ok(OAuthStatus(200, "Usuario tiene OAuth con MercadoPago", true)), db)
  }

  method CheckOAuthService(store: Database, userId: int, now: int, reply: Reply<TokenResponse>)
    returns (r: Result<OAuthStatus>)
    requires Valid(store.Model())
    modifies store
    ensures Step(r, store.Model()) == CheckOAuth(old(store.Model()), userId, now, reply)
  {
    if userId !in store.users {
      return Ok(OAuthStatus(404, MsgUserNotFound, false));
    }
    if userId !in store.creds {
      return Ok(OAuthStatus(400, MsgNotLinked, false));
    }
    var info := store.creds[userId];
    if info.accessTokenExpiration < now {
      if info.refreshTokenExpiration < now {
        return Ok(OAuthStatus(400, MsgRefreshExpired, false));
      }
      var refreshed := RefreshOAuthTokenService(store, userId, now, reply);
      if refreshed.Err? {
        return Err(HttpError(500, MsgCheckFailed));
      }
    }
    r := Ok(OAuthStatus(200, "Usuario tiene OAuth con MercadoPago", true));
  }

  /**
   * A check that had to refresh leaves a credential that a later check,
   * within the new access token's lifetime, accepts without refreshing again.
   */
  lemma CheckAfterRefreshIsLinked(db: Db, userId: int, now: int, resp: TokenResponse, later: int)
    requires Valid(db)
    requires CheckDecisionOf(db, userId, now) == RefreshFirst
    requires CompleteTokens(resp) && resp.expiresIn.value > 0
    requires now <= later <= now + resp.expiresIn.value * 1000
    ensures CheckOAuth(db, userId, now, Answered(resp)).result.Ok?
    ensures CheckOAuth(db, userId, now, Answered(resp)).result.value.hasOAuth
    ensures CheckDecisionOf(CheckOAuth(db, userId, now, Answered(resp)).db, userId, later) == Linked
  {
    RenewedIsFresh(userId, resp, now, later);
  }

  /** An expired access token with a valid refresh token is never reported as unlinked: the check either refreshes or fails with 500. */
  lemma CheckNeverReportsRefreshableAsUnlinked(db: Db, userId: int, now: int, reply: Reply<TokenResponse>)
    requires Valid(db)
    requires userId in db.users && userId in db.creds
    requires !Expired(db.creds[userId].refreshTokenExpiration, now)
    ensures var s := CheckOAuth(db, userId, now, reply);
      s.result.Err? || s.result.value.hasOAuth
  {
  }
}
