/**
 * The profile update: only the names and the phone can change, and a field
 * is written exactly when its key is present in the payload (a present
 * `null` clears it). Whether the database rejects the write is a parameter.
 */
module Profile {
  import opened Common
  import opened Tables

  const MsgConflict := "Datos en conflicto al actualizar el perfil"
  const MsgSystemError := "Error interno del sistema."

  /** One optional, nullable key of the payload. */
  datatype Field = Absent | Null | Value(v: string)

  /** The payload: `first_name`, `last_name_1`, `last_name_2` and `phone`. */
  datatype ProfilePayload = ProfilePayload(firstName: Field, lastName1: Field, lastName2: Field, phone: Field)

  /** How the database may reject the update: a unique-constraint violation (P2002) or any other error. */
  datatype WriteFailure = UniqueViolation | OtherFailure

  /** The column after writing one key: kept when the key is absent, cleared by `null`, set by a value. */
  function Written(column: Option<string>, f: Field): (c: Option<string>)
    ensures f.Absent? ==> c == column
    ensures f.Null? ==> c.None?
    ensures f.Value? ==> c == Some(f.v)
  {
    match f
    case Absent => column
    case Null => None
    case Value(v) => Some(v)
  }

  /** The user row after the payload's keys are written. */
  function Applied(u: User, p: ProfilePayload): (v: User)
    ensures v.firstName == Written(u.firstName, p.firstName) && v.lastName1 == Written(u.lastName1, p.lastName1)
    ensures v.lastName2 == Written(u.lastName2, p.lastName2) && v.phone == Written(u.phone, p.phone)
    ensures v.id == u.id && v.username == u.username && v.email == u.email && v.role == u.role
    ensures v.isDeleted == u.isDeleted && v.passwordHash == u.passwordHash
  {
    u.(firstName := Written(u.firstName, p.firstName), lastName1 := Written(u.lastName1, p.lastName1),
       lastName2 := Written(u.lastName2, p.lastName2), phone := Written(u.phone, p.phone))
  }

  /**
   * `updateUserProfileService`: an unknown user makes the update throw (500);
   * a rejected write answers 400 for a unique-constraint violation and 500
   * otherwise; a successful one writes the present keys and returns the row
   * without its password.
   */
  function UpdateUserProfile(db: Db, userId: int, p: ProfilePayload, failure: Option<WriteFailure>): (s: Step<PublicUser>)
    requires Valid(db)
    ensures Valid(s.db)
    ensures s.result.Err? ==> s.db == db
    ensures s.result.Ok? <==> userId in db.users && failure.None?
    ensures userId !in db.users || failure == Some(OtherFailure) ==> s.result == Err(HttpError(500, MsgSystemError))
    ensures userId in db.users && failure == Some(UniqueViolation) ==> s.result == Err(HttpError(400, MsgConflict))
    ensures s.result.Ok? ==>
      var v := Applied(db.users[userId], p);
      s.db == db.(users := db.users[userId := v]) && s.result.value == Public(v)
  {
    if userId !in db.users then Step(Err(HttpError(500, MsgSystemError)), db)
    else if failure.Some? then
      if failure.value == UniqueViolation then Step(Err(HttpError(400, MsgConflict)), db)
      else Step(Err(HttpError(500, MsgSystemError)), db)
    else
      var v := Applied(db.users[userId], p);
      var db1 := db.(users := db.users[userId := v]);
      ProfileKeepsValid(db, userId, v);
      Step(Ok(Public(v)), db1)
  }

  /** Rewriting one user's row under its own id keeps the tables valid. */
  lemma ProfileKeepsValid(db: Db, userId: int, v: User)
    requires Valid(db) && userId in db.users && v.id == db.users[userId].id
    ensures Valid(db.(users := db.users[userId := v]))
  {
    var users := db.users[userId := v];
    forall id | id in users ensures users[id].id == id {
      assert ((u: User) => u.id)(db.users[id]) == id;
    }
    assert users.Keys == db.users.Keys;
    assert ReviewsByUsers(db.reviews, users);
  }

  /** The update writes the user's row key by key, as the payload's present keys say. */
  method UpdateUserProfileService(store: Database, userId: int, p: ProfilePayload, failure: Option<WriteFailure>)
    returns (r: Result<PublicUser>)
    requires Valid(store.Model())
    modifies store
    ensures Step(r, store.Model()) == UpdateUserProfile(old(store.Model()), userId, p, failure)
  {
    if userId !in store.users {
      return Err(HttpError(500, MsgSystemError));
    }
    if failure.Some? {
      if failure.value == UniqueViolation {
        return Err(HttpError(400, MsgConflict));
      }
      return Err(HttpError(500, MsgSystemError));
    }
    var u := store.users[userId];
    if !p.firstName.Absent? {
      u := u.(firstName := Written(u.firstName, p.firstName));
    }
    if !p.lastName1.Absent? {
      u := u.(lastName1 := Written(u.lastName1, p.lastName1));
    }
    if !p.lastName2.Absent? {
      u := u.(lastName2 := Written(u.lastName2, p.lastName2));
    }
    if !p.phone.Absent? {
      u := u.(phone := Written(u.phone, p.phone));
    }
    store.users := store.users[userId := u];
    r := Ok(Public(u));
  }

  /** The keys of `later` where present, else those of `earlier`. */
  function Merged(earlier: ProfilePayload, later: ProfilePayload): ProfilePayload
  {
    ProfilePayload(
      if later.firstName.Absent? then earlier.firstName else later.firstName,
      if later.lastName1.Absent? then earlier.lastName1 else later.lastName1,
      if later.lastName2.Absent? then earlier.lastName2 else later.lastName2,
      if later.phone.Absent? then earlier.phone else later.phone)
  }

  /** Two successful updates in a row equal one update with the later keys taking precedence. */
  lemma SuccessiveUpdatesMerge(db: Db, userId: int, p: ProfilePayload, q: ProfilePayload)
    requires Valid(db) && userId in db.users
    ensures var db1 := UpdateUserProfile(db, userId, p, None).db;
      UpdateUserProfile(db1, userId, q, None) == UpdateUserProfile(db, userId, Merged(p, q), None)
  {
    var u := db.users[userId];
    var db1 := UpdateUserProfile(db, userId, p, None).db;
    assert db1.users[userId] == Applied(u, p);
    assert Applied(Applied(u, p), q) == Applied(u, Merged(p, q));
    assert db1.users[userId := Applied(Applied(u, p), q)] == db.users[userId := Applied(u, Merged(p, q))];
  }

  /** Repeating an update changes nothing more. */
  lemma UpdateIdempotent(db: Db, userId: int, p: ProfilePayload)
    requires Valid(db) && userId in db.users
    ensures var s := UpdateUserProfile(db, userId, p, None);
      UpdateUserProfile(s.db, userId, p, None) == s
  {
    SuccessiveUpdatesMerge(db, userId, p, p);
    assert Merged(p, p) == p;
  }

  /** A payload without keys leaves the row as it is and returns it. */
  lemma EmptyPayloadChangesNothing(db: Db, userId: int)
    requires Valid(db) && userId in db.users
    ensures UpdateUserProfile(db, userId, ProfilePayload(Absent, Absent, Absent, Absent), None)
      == Step(Ok(Public(db.users[userId])), db)
  {
    var u := db.users[userId];
    assert Applied(u, ProfilePayload(Absent, Absent, Absent, Absent)) == u;
    assert db.users[userId := u] == db.users;
  }

  /** Usernames, emails, flags and password hashes are never written, so usernames and emails stay unique. */
  lemma UpdateKeepsLogins(db: Db, userId: int, p: ProfilePayload, failure: Option<WriteFailure>)
    requires Valid(db) && UniqueLogins(db.users)
    ensures var users := UpdateUserProfile(db, userId, p, failure).db.users;
      && users.Keys == db.users.Keys
      && (forall id :: id in users ==>
            && users[id].username == db.users[id].username && users[id].email == db.users[id].email
            && users[id].isDeleted == db.users[id].isDeleted && users[id].passwordHash == db.users[id].passwordHash)
      && UniqueLogins(users)
  {
  }
}
