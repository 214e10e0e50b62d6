/**
 * Properties that span several services: what closing an account means for
 * login, for the middleware that guards every write, and for the profile.
 */
module Lifecycle {
  import opened Common
  import opened Text
  import opened Tables
  import opened UserAccount
  import opened Login
  import opened Auth
  import Profile

  /** After the account is closed, logging in as that user answers 403 whatever the password, and the middleware refuses the user's session. */
  lemma ClosedAccountIsLockedOut(
    db: Db, userId: int, login: string, password: string, compare: (string, string) -> bool)
    requires Valid(db) && UniqueLogins(db.users)
    requires DeleteUserAccount(db, userId).result.Ok?
    requires Identifies(db.users[userId], login)
    ensures var db1 := DeleteUserAccount(db, userId).db;
      && UniqueLogins(db1.users)
      && LoginUser(db1.users, login, password, compare) == Err(HttpError(403, MsgAccountDisabled))
      && CheckUserIsDeleted(db1.users, IntToString(userId)) == Fail(HttpError(403, MsgSuspended))
  {
    var db1 := DeleteUserAccount(db, userId).db;
    DeleteKeepsLogins(db, userId);
    assert Identifies(db1.users[userId], login);
    SuspendedIffDeleted(db1.users, userId);
  }

  /** Closing one account leaves every other user's login answer as it was. */
  lemma OtherUsersLoginUnchanged(
    db: Db, userId: int, login: string, password: string, compare: (string, string) -> bool)
    requires Valid(db) && UniqueLogins(db.users)
    requires userId in db.users && !Identifies(db.users[userId], login)
    ensures var db1 := DeleteUserAccount(db, userId).db;
      UniqueLogins(db1.users) && LoginUser(db1.users, login, password, compare) == LoginUser(db.users, login, password, compare)
  {
    var db1 := DeleteUserAccount(db, userId).db;
    DeleteKeepsLogins(db, userId);
    if DeleteUserAccount(db, userId).result.Ok? {
      var f1 := FindUser(db1.users, login);
      var f0 := FindUser(db.users, login);
      if f0.Some? {
        assert Identifies(db1.users[f0.value], login);
        assert f1.Some? && f1.value == f0.value;
      }
    }
  }

  /** A profile update never changes whether a login succeeds. */
  lemma ProfileUpdateKeepsLogin(
    db: Db, userId: int, p: Profile.ProfilePayload, login: string, password: string, compare: (string, string) -> bool)
    requires Valid(db) && UniqueLogins(db.users)
    ensures var s := Profile.UpdateUserProfile(db, userId, p, None);
      && UniqueLogins(s.db.users)
      && (LoginUser(s.db.users, login, password, compare).Ok? <==> LoginUser(db.users, login, password, compare).Ok?)
  {
    Profile.UpdateKeepsLogins(db, userId, p, None);
    var users := Profile.UpdateUserProfile(db, userId, p, None).db.users;
    SameCredentialsSameLogin(db.users, users, login, password, compare);
  }
}
