/**
 * Login: the login string is looked up as an email when it has the shape of
 * one and as a username otherwise; a deleted account is refused before the
 * password is compared. The bcrypt comparison is a parameter.
 */
module Login {
  import opened Common
  import opened Text
  import opened Tables
  import RegisterController

  const MsgNoSuchUser := "No se encontro usuario con ese nombre o correo"
  const MsgAccountDisabled := "Cuenta del usuario inhabilitada."
  const MsgWrongPassword := "Contraseña incorrecta"

  /** Neither white space nor `@`: the class `[^\s@]`. */
  predicate PlainChar(c: char)
  {
    !IsSpace(c) && c != '@'
  }

  /** The login matches with its `@` at `i` and a dot of the domain at `k`. */
  predicate EmailShapeAt(s: string, i: int, k: int)
  {
    && 0 < i && i + 1 < k && k + 1 < |s| && s[i] == '@' && s[k] == '.'
    && (forall j :: 0 <= j < |s| && j != i ==> PlainChar(s[j]))
  }

  /** `/^[^\s@]+@[^\s@]+\.[^\s@]+$/`. */
  predicate LooksLikeEmail(s: string)
  {
    exists i, k :: 0 <= i < |s| && 0 <= k < |s| && EmailShapeAt(s, i, k)
  }

  /** The lookup the login uses: by email when it looks like one, else by username. */
  predicate Identifies(u: User, login: string)
  {
    if LooksLikeEmail(login) then u.email == login else u.username == login
  }

  /** The user `findFirst` returns; with unique usernames and emails there is at most one. */
  function FindUser(users: map<int, User>, login: string): (r: Option<int>)
    requires UniqueLogins(users)
    ensures r.Some? ==> r.value in users && Identifies(users[r.value], login)
    ensures r.None? ==> forall id :: id in users ==> !Identifies(users[id], login)
  {
    if exists id :: id in users && Identifies(users[id], login) then
      var id :| id in users && Identifies(users[id], login);
      Some(id)
    else None
  }

  /** `loginUserService` with `compare(password, hash)` standing for `bcrypt.compare`. */
  function LoginUser(users: map<int, User>, login: string, password: string, compare: (string, string) -> bool)
    : (r: Result<PublicUser>)
    requires UniqueLogins(users)
    ensures r.Ok? <==> exists id :: id in users && Identifies(users[id], login) && !users[id].isDeleted
                                    && compare(password, users[id].passwordHash)
    ensures r.Ok? ==> exists id :: id in users && Identifies(users[id], login) && r.value == Public(users[id])
    ensures (forall id :: id in users ==> !Identifies(users[id], login)) ==> r == Err(HttpError(401, MsgNoSuchUser))
    ensures forall id :: id in users && Identifies(users[id], login) && users[id].isDeleted ==>
      r == Err(HttpError(403, MsgAccountDisabled))
    ensures forall id ::
      && id in users && Identifies(users[id], login) && !users[id].isDeleted
      && !compare(password, users[id].passwordHash)
      ==> r == Err(HttpError(401, MsgWrongPassword))
  {
    match FindUser(users, login)
    case None => Err(HttpError(401, MsgNoSuchUser))
    case Some(id) =>
      var u := users[id];
      if u.isDeleted then Err(HttpError(403, MsgAccountDisabled))
      else if compare(password, u.passwordHash) then Ok(Public(u))
      else Err(HttpError(401, MsgWrongPassword))
  }

  /** Every email accepted at sign-up has the shape the login recognises as an email. */
  lemma RegisteredEmailLooksLikeEmail(e: string)
    requires RegisterController.EmailOk(Some(e))
    ensures LooksLikeEmail(e)
  {
    var i, k :| 0 <= i < |e| && 0 <= k < |e| && RegisterController.EmailSplitAt(e, i, k);
    forall j | 0 <= j < |e| && j != i ensures PlainChar(e[j]) {
      if j < i {
        assert RegisterController.LocalChar(e[j]);
      } else if j < k {
        assert RegisterController.DomainChar(e[j]);
      } else if j > k {
        assert IsAsciiLetter(e[j]);
      }
    }
    assert EmailShapeAt(e, i, k);
  }

  /** A username accepted at sign-up never looks like an email, so it is always looked up as a username. */
  lemma RegisteredUsernameIsNotEmail(u: string)
    requires RegisterController.UsernamePattern(u)
    ensures !LooksLikeEmail(u)
  {
    forall i, k | 0 <= i < |u| && 0 <= k < |u| ensures !EmailShapeAt(u, i, k) {
      assert RegisterController.UsernameChar(u[i]);
    }
  }

  /** A registered user logs in with the email given at sign-up when the password matches and the account is not deleted. */
  lemma LoginByRegisteredEmail(users: map<int, User>, id: int, password: string, compare: (string, string) -> bool)
    requires UniqueLogins(users) && id in users
    requires RegisterController.EmailOk(Some(users[id].email))
    requires !users[id].isDeleted && compare(password, users[id].passwordHash)
    ensures LoginUser(users, users[id].email, password, compare) == Ok(Public(users[id]))
  {
    RegisteredEmailLooksLikeEmail(users[id].email);
  }

  /** Likewise with the username chosen at sign-up. */
  lemma LoginByRegisteredUsername(users: map<int, User>, id: int, password: string, compare: (string, string) -> bool)
    requires UniqueLogins(users) && id in users
    requires RegisterController.UsernamePattern(users[id].username)
    requires !users[id].isDeleted && compare(password, users[id].passwordHash)
    ensures LoginUser(users, users[id].username, password, compare) == Ok(Public(users[id]))
  {
    RegisteredUsernameIsNotEmail(users[id].username);
  }

  /** Whether a login succeeds depends only on the usernames, emails, flags and hashes stored. */
  lemma SameCredentialsSameLogin(
    users: map<int, User>, users2: map<int, User>, login: string, password: string, compare: (string, string) -> bool)
    requires UniqueLogins(users) && UniqueLogins(users2) && users2.Keys == users.Keys
    requires forall id :: id in users ==>
      && users2[id].username == users[id].username && users2[id].email == users[id].email
      && users2[id].isDeleted == users[id].isDeleted && users2[id].passwordHash == users[id].passwordHash
    ensures LoginUser(users2, login, password, compare).Ok? <==> LoginUser(users, login, password, compare).Ok?
  {
    if LoginUser(users, login, password, compare).Ok? {
      var id :| id in users && Identifies(users[id], login) && !users[id].isDeleted
                && compare(password, users[id].passwordHash);
      assert Identifies(users2[id], login);
    }
    if LoginUser(users2, login, password, compare).Ok? {
      var id :| id in users2 && Identifies(users2[id], login) && !users2[id].isDeleted
                && compare(password, users2[id].passwordHash);
      assert Identifies(users[id], login);
    }
  }

  /** The returned user carries every column but the password hash: two rows differing only in the hash give the same answer. */
  lemma PublicDropsOnlyPassword(u: User, v: User)
    ensures Public(u) == Public(v) <==> u.(passwordHash := v.passwordHash) == v
  {
  }
}
