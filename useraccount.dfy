/**
 * Closing an account: a soft delete that flags the user and, in the same
 * transaction, every class offer the user wrote. Nothing is removed.
 */
module UserAccount {
  import opened Common
  import opened Tables

  const MsgAccountNotFound := "Cuenta del usuario no encontrada."
  const MsgAlreadyDeleted := "La cuenta del usuario ya fue eliminada."

  /** The offers after `updateMany({where: {authorId}, data: {isDeleted: true}})`. */
  function FlagOffersOf(offers: map<int, ClassOffer>, authorId: int): (r: map<int, ClassOffer>)
    ensures r.Keys == offers.Keys
    ensures forall id :: id in r && offers[id].authorId == authorId ==> r[id] == offers[id].(isDeleted := true)
    ensures forall id :: id in r && offers[id].authorId != authorId ==> r[id] == offers[id]
  {
    map id | id in offers :: if offers[id].authorId == authorId then offers[id].(isDeleted := true) else offers[id]
  }

  /**
   * `deleteUserAccountService`: 404 for an unknown user, 400 for one already
   * deleted; otherwise the user and all of the user's offers are flagged at
   * once and nothing else changes.
   */
  function DeleteUserAccount(db: Db, userId: int): (s: Step<()>)
    requires Valid(db)
    ensures Valid(s.db)
    ensures s.result.Ok? <==> userId in db.users && !db.users[userId].isDeleted
    ensures userId !in db.users ==> s == Step(Err(HttpError(404, MsgAccountNotFound)), db)
    ensures userId in db.users && db.users[userId].isDeleted ==> s == Step(Err(HttpError(400, MsgAlreadyDeleted)), db)
    ensures s.result.Ok? ==>
      s.db == db.(users := db.users[userId := db.users[userId].(isDeleted := true)],
                  offers := FlagOffersOf(db.offers, userId))
  {
    if userId !in db.users then Step(Err(HttpError(404, MsgAccountNotFound)), db)
    else if db.users[userId].isDeleted then Step(Err(HttpError(400, MsgAlreadyDeleted)), db)
    else
      var db1 := db.(users := db.users[userId := db.users[userId].(isDeleted := true)],
                     offers := FlagOffersOf(db.offers, userId));
      FlagKeepsValid(db, userId);
      Step(Ok(()), db1)
  }

  /** Flagging changes no key and no id, so every table stays valid. */
  lemma FlagKeepsValid(db: Db, userId: int)
    requires Valid(db) && userId in db.users
    ensures Valid(db.(users := db.users[userId := db.users[userId].(isDeleted := true)],
                      offers := FlagOffersOf(db.offers, userId)))
  {
    var users := db.users[userId := db.users[userId].(isDeleted := true)];
    var offers := FlagOffersOf(db.offers, userId);
    forall id | id in users ensures users[id].id == id {
      assert ((u: User) => u.id)(db.users[id]) == id;
    }
    forall id | id in offers ensures offers[id].id == id {
      assert ((o: ClassOffer) => o.id)(db.offers[id]) == id;
    }
    assert users.Keys == db.users.Keys;
    assert ReviewsByUsers(db.reviews, users);
  }

  method DeleteUserAccountService(store: Database, userId: int) returns (r: Result<()>)
    requires Valid(store.Model())
    modifies store
    ensures Step(r, store.Model()) == DeleteUserAccount(old(store.Model()), userId)
  {
    if userId !in store.users {
      return Err(HttpError(404, MsgAccountNotFound));
    }
    if store.users[userId].isDeleted {
      return Err(HttpError(400, MsgAlreadyDeleted));
    }
    store.users := store.users[userId := store.users[userId].(isDeleted := true)];
    store.offers := FlagOffersOf(store.offers, userId);
    r := Ok(());
  }

  /** After a deletion no offer of the user is live, and the offers of every other author are exactly as before. */
  lemma DeletedAuthorHasNoLiveOffers(db: Db, userId: int)
    requires Valid(db)
    requires DeleteUserAccount(db, userId).result.Ok?
    ensures var db1 := DeleteUserAccount(db, userId).db;
      && (forall id :: id in db.offers && db.offers[id].authorId == userId ==> !LiveOffer(db1, id))
      && (forall id :: id in db.offers && db.offers[id].authorId != userId ==> (LiveOffer(db1, id) <==> LiveOffer(db, id)))
      && db1.offers.Keys == db.offers.Keys
  {
  }

  /** Deleting twice: the second call answers 400 and changes nothing. */
  lemma DeleteTwiceRefused(db: Db, userId: int)
    requires Valid(db)
    requires DeleteUserAccount(db, userId).result.Ok?
    ensures var db1 := DeleteUserAccount(db, userId).db;
      DeleteUserAccount(db1, userId) == Step(Err(HttpError(400, MsgAlreadyDeleted)), db1)
  {
  }

  /** Only the deleted user's flag changes among the users; usernames and emails stay as they were, so their uniqueness is kept. */
  lemma DeleteKeepsLogins(db: Db, userId: int)
    requires Valid(db) && UniqueLogins(db.users)
    ensures var db1 := DeleteUserAccount(db, userId).db;
      && db1.users.Keys == db.users.Keys
      && (forall id :: id in db.users ==> db1.users[id] == db.users[id].(isDeleted := db1.users[id].isDeleted))
      && (forall id :: id in db.users && id != userId ==> db1.users[id] == db.users[id])
      && UniqueLogins(db1.users)
  {
  }
}
