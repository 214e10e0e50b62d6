/**
 * Payment preferences and transactions of a class request: creating a
 * preference on the teacher's own provider account (refreshing the teacher's
 * token when it has expired), fetching or creating the one a student should
 * pay, updating the latest transaction's status, the refund checks, and the
 * provider's redirect that marks a request paid and issues a confirmation code.
 * The provider's answers are oracles passed in by the caller.
 */
module Payments {
  import opened Common
  import opened Text
  import opened Tables
  import opened OAuth

  /** The status a new transaction is stored with. */
  const DefaultTxStatus := "pending"

  datatype PreferenceItem = PreferenceItem(
    id: string, title: string, description: string, quantity: int, unitPrice: int)

  /** The preference sent to the provider. */
  datatype PreferenceBody = PreferenceBody(
    successUrl: string, failureUrl: string, pendingUrl: string, autoReturn: string,
    items: seq<PreferenceItem>, marketplaceFee: int)

  /** A preference-creation call, made with the given access token. */
  datatype PreferenceCall = PreferenceCall(accessToken: string, body: PreferenceBody)

  /** `${backendUrl}/transactions/wh/${outcome}/${id}/`. */
  function BackUrl(backendUrl: string, outcome: string, id: int): string
  {
    backendUrl + "/transactions/wh/" + outcome + "/" + IntToString(id) + "/"
  }

  /** The preference for a class request on an offer: one unit at the offer's current price, no fee. */
  function PreferenceFor(req: ClassRequest, offer: ClassOffer, backendUrl: string): PreferenceBody
  {
    PreferenceBody(
      BackUrl(backendUrl, "success", req.classOfferId),
      BackUrl(backendUrl, "failure", req.classOfferId),
      BackUrl(backendUrl, "pending", req.classOfferId),
      "approved",
      [PreferenceItem(IntToString(req.id), offer.title, offer.description, 1, offer.price)],
      0)
  }

  /** A back URL lies under the webhook path for its outcome. */
  lemma BackUrlUnderWebhook(backendUrl: string, outcome: string, id: int)
    ensures StartsWith(BackUrl(backendUrl, outcome, id), backendUrl + "/transactions/wh/" + outcome + "/")
  {
    var p := backendUrl + "/transactions/wh/" + outcome + "/";
    var u := BackUrl(backendUrl, outcome, id);
    assert u == p + (IntToString(id) + "/");
    assert u[..|p|] == p;
  }

  /** The preference charges the offer's current price once, names the request, and keeps no fee. */
  lemma PreferenceChargesOffer(req: ClassRequest, offer: ClassOffer, backendUrl: string)
    ensures var b := PreferenceFor(req, offer, backendUrl);
      && |b.items| == 1 && b.items[0].quantity == 1 && b.items[0].unitPrice == offer.price
      && b.items[0].title == offer.title && ParseInt(b.items[0].id) == Some(req.id)
      && b.marketplaceFee == 0 && b.autoReturn == "approved"
  {
    ParseIntIntToString(req.id);
  }

  /** The provider returns the payer to the backend's webhook, one path per outcome. */
  lemma PreferenceReturnsToWebhook(req: ClassRequest, offer: ClassOffer, backendUrl: string)
    ensures StartsWith(PreferenceFor(req, offer, backendUrl).successUrl, backendUrl + "/transactions/wh/success/")
    ensures StartsWith(PreferenceFor(req, offer, backendUrl).failureUrl, backendUrl + "/transactions/wh/failure/")
    ensures StartsWith(PreferenceFor(req, offer, backendUrl).pendingUrl, backendUrl + "/transactions/wh/pending/")
  {
    BackUrlUnderWebhook(backendUrl, "success", req.classOfferId);
    BackUrlUnderWebhook(backendUrl, "failure", req.classOfferId);
    BackUrlUnderWebhook(backendUrl, "pending", req.classOfferId);
  }

  // ------------------------------------------------------ create preference

  /** The checks before a preference is created, in the order they are made. */
  function PreferenceGuard(db: Db, classRequestId: int, userId: int): (o: Outcome)
    ensures o == Pass <==>
      && classRequestId in db.requests && db.requests[classRequestId].userId == userId
      && db.requests[classRequestId].classOfferId in db.offers
      && db.offers[db.requests[classRequestId].classOfferId].authorId != userId
      && db.offers[db.requests[classRequestId].classOfferId].authorId in db.creds
    ensures OutcomeStatus(o) == 403 <==>
      classRequestId in db.requests && db.requests[classRequestId].userId != userId
    ensures o.Fail? ==> o.error.status in {400, 403, 404}
  {
    if classRequestId !in db.requests then
      Fail(HttpError(404, "Class Request con id " + IntToString(classRequestId) + " no encontrada"))
    else
      var req := db.requests[classRequestId];
      if req.userId != userId then
        Fail(HttpError(403, "No tienes permiso para acceder a esta class request"))
      else if req.classOfferId !in db.offers then
        Fail(HttpError(404, "Class Offer con id " + IntToString(req.classOfferId) + " no encontrada"))
      else
        var authorId := db.offers[req.classOfferId].authorId;
        if authorId == userId then Fail(HttpError(400, "No puedes solicitar una clase propia"))
        else if authorId !in db.creds then
          Fail(HttpError(400, "El autor de la clase no ha vinculado su cuenta de MercadoPago"))
        else Pass
  }

  /** The teacher whose account receives the payment of a request that passed the guard. */
  function AuthorOf(db: Db, classRequestId: int, userId: int): int
    requires PreferenceGuard(db, classRequestId, userId) == Pass
  {
    db.offers[db.requests[classRequestId].classOfferId].authorId
  }

  /** The 500 answered when the provider's preference call throws. */
  const MsgPreferenceThrew := "Error al crear la preferencia de pago"

  /** The 500 answered when the provider's preference has no id. */
  const MsgPreferenceWithoutId := "No se pudo crear la preferencia de pago"

  /** A created preference: the stored transaction and the call made to the provider. */
  datatype PreferenceCreated = PreferenceCreated(transaction: Transaction, call: PreferenceCall)

  /** The request itself, the tables other than transactions and credentials, are untouched. */
  predicate OnlyPaymentsChanged(db: Db, db': Db)
  {
    db'.users == db.users && db'.offers == db.offers && db'.nextOfferId == db.nextOfferId &&
    db'.requests == db.requests && db'.nextRequestId == db.nextRequestId &&
    db'.reviews == db.reviews && db'.nextReviewId == db.nextReviewId &&
    db'.slots == db.slots && db'.nextSlotId == db.nextSlotId
  }

  /** `db'` holds `db`'s transactions with `tx` appended to those of its class request. */
  ghost predicate Appended(db: Db, db': Db, tx: Transaction)
  {
    && TxsOf(db'.txs, tx.classRequestId) == TxsOf(db.txs, tx.classRequestId) + [tx]
    && (forall rid :: rid != tx.classRequestId ==> TxsOf(db'.txs, rid) == TxsOf(db.txs, rid))
    && tx.id == db.nextTxId && db'.nextTxId == db.nextTxId + 1
  }

  /** Filing `tx` after the transactions of its class request appends it. */
  lemma AppendIsAppended(db: Db, tx: Transaction)
    requires tx.id == db.nextTxId
    ensures Appended(db, db.(txs := db.txs[tx.classRequestId := TxsOf(db.txs, tx.classRequestId) + [tx]],
                             nextTxId := db.nextTxId + 1), tx)
  {
  }

  /**
   * Creating a preference and its transaction. An expired teacher token is
   * refreshed first (its failures propagate); the provider is then called with
   * the access token read before that refresh. A provider answer without an id
   * stores no transaction.
   */
  function CreatePreference(
    db: Db, classRequestId: int, userId: int, now: int, backendUrl: string,
    refreshReply: Reply<TokenResponse>, prefReply: Reply<string>): (s: Step<PreferenceCreated>)
    requires Valid(db)
    ensures Valid(s.db)
    ensures OnlyPaymentsChanged(db, s.db)
    ensures PreferenceGuard(db, classRequestId, userId).Fail? ==>
      s == Step(Err(PreferenceGuard(db, classRequestId, userId).error), db)
    ensures s.result.Err? ==> s.db.txs == db.txs && s.db.nextTxId == db.nextTxId
    ensures s.result.Ok? <==>
      && PreferenceGuard(db, classRequestId, userId) == Pass
      && (Expired(db.creds[AuthorOf(db, classRequestId, userId)].accessTokenExpiration, now) ==>
            RefreshOAuthToken(db, AuthorOf(db, classRequestId, userId), now, refreshReply).result.Ok?)
      && prefReply.Answered? && prefReply.value != ""
    ensures s.result.Ok? ==>
      var tx := s.result.value.transaction;
      var authorId := AuthorOf(db, classRequestId, userId);
      var req := db.requests[classRequestId];
      && tx == Transaction(db.nextTxId, classRequestId, prefReply.value, None, DefaultTxStatus, None)
      && Appended(db, s.db, tx)
      && s.result.value.call ==
           PreferenceCall(db.creds[authorId].accessToken, PreferenceFor(req, db.offers[req.classOfferId], backendUrl))
    ensures PreferenceGuard(db, classRequestId, userId) == Pass ==>
      var a := AuthorOf(db, classRequestId, userId);
      var exp := Expired(db.creds[a].accessTokenExpiration, now);
      var t := RefreshOAuthToken(db, a, now, refreshReply);
      && (exp && t.result.Err? ==> s == Step(Err(t.result.error), db))
      && ((exp ==> t.result.Ok?) ==> s.db.creds == (if exp then t.db.creds else db.creds))
      && ((exp ==> t.result.Ok?) && prefReply.Threw? ==>
            s.result == Err(HttpError(500, MsgPreferenceThrew)))
      && ((exp ==> t.result.Ok?) && prefReply.Answered? && prefReply.value == "" ==>
            s.result == Err(HttpError(500, MsgPreferenceWithoutId)))
  {
    var guard := PreferenceGuard(db, classRequestId, userId);
    if guard.Fail? then Step(Err(guard.error), db)
    else
      var req := db.requests[classRequestId];
      var offer := db.offers[req.classOfferId];
      var info := db.creds[offer.authorId];
      var refreshed :=
        if Expired(info.accessTokenExpiration, now) then RefreshOAuthToken(db, offer.authorId, now, refreshReply)
        else Step(Ok(TokenResponse(None, None, None)), db);
      if refreshed.result.Err? then Step(Err(refreshed.result.error), db)
      else
        var db1 := refreshed.db;
        var call := PreferenceCall(info.accessToken, PreferenceFor(req, offer, backendUrl));
        if prefReply.Threw? then Step(Err(HttpError(500, MsgPreferenceThrew)), db1)
        else if prefReply.value == "" then Step(Err(HttpError(500, MsgPreferenceWithoutId)), db1)
        else
          var tx := Transaction(db1.nextTxId, classRequestId, prefReply.value, None, DefaultTxStatus, None);
          AppendTxKeepsValid(db1, tx);
          AppendIsAppended(db1, tx);
          Step(Ok(PreferenceCreated(tx, call)),
               db1.(txs := db1.txs[classRequestId := TxsOf(db1.txs, classRequestId) + [tx]],
                    nextTxId := db1.nextTxId + 1))
  }

  method CreatePreferenceService(
    store: Database, classRequestId: int, userId: int, now: int, backendUrl: string,
    refreshReply: Reply<TokenResponse>, prefReply: Reply<string>) returns (r: Result<PreferenceCreated>)
    requires Valid(store.Model())
    modifies store
    ensures Step(r, store.Model()) ==
      CreatePreference(old(store.Model()), classRequestId, userId, now, backendUrl, refreshReply, prefReply)
  {
    var guard := PreferenceGuard(store.Model(), classRequestId, userId);
    if guard.Fail? {
      return Err(guard.error);
    }
    var req := store.requests[classRequestId];
    var offer := store.offers[req.classOfferId];
    var info := store.creds[offer.authorId];
    if info.accessTokenExpiration < now {
      var refreshed := RefreshOAuthTokenService(store, offer.authorId, now, refreshReply);
      if refreshed.Err? {
        return Err(refreshed.error);
      }
    }
    var call := PreferenceCall(info.accessToken, PreferenceFor(req, offer, backendUrl));
    if prefReply.Threw? {
      return Err(HttpError(500, MsgPreferenceThrew));
    }
    if prefReply.value == "" {
      return Err(HttpError(500, MsgPreferenceWithoutId));
    }
    var tx := Transaction(store.nextTxId, classRequestId, prefReply.value, None, DefaultTxStatus, None);
    store.txs := store.txs[classRequestId := TxsOf(store.txs, classRequestId) + [tx]];
    store.nextTxId := store.nextTxId + 1;
    r := Ok(PreferenceCreated(tx, call));
  }

  // --------------------------------------------------------- get preference

  /** The preference returned to the student: newly created, or fetched from the teacher's account. */
  datatype ProviderPreference =
    | NewPreference(call: PreferenceCall)
    | StoredPreference(accessToken: string, preferenceId: string)

  datatype PreferenceView = PreferenceView(preference: ProviderPreference, transaction: Transaction, status: string)

  const MsgGetPreferenceFailed := "Error al obtener la preferencia de pago"

  /** The newest transaction of a request still waiting for payment. */
  function PendingTx(db: Db, classRequestId: int): Option<Transaction>
  {
    LatestWithStatus(TxsOf(db.txs, classRequestId), {"pending"})
  }

  /** The caller's own request, which has a pending transaction. */
  predicate OwnPendingRequest(db: Db, classRequestId: int, userId: int)
  {
    classRequestId in db.requests && db.requests[classRequestId].userId == userId
    && PendingTx(db, classRequestId).Some?
  }

  /**
   * The preference a student should pay: the newest pending transaction's
   * preference, fetched with the teacher's stored access token (not
   * refreshed), or, when there is none, a newly created one.
   */
  function GetPreference(
    db: Db, classRequestId: int, userId: int, now: int, backendUrl: string,
    refreshReply: Reply<TokenResponse>, prefReply: Reply<string>, fetchAnswered: bool): (s: Step<PreferenceView>)
    requires Valid(db)
    ensures Valid(s.db)
    ensures OnlyPaymentsChanged(db, s.db)
    ensures classRequestId !in db.requests ==> s.result.Err? && s.result.error.status == 404 && s.db == db
    ensures classRequestId in db.requests && db.requests[classRequestId].userId != userId ==>
      s == Step(Err(HttpError(403, "No tienes permiso para acceder a esta class request")), db)
    ensures PendingTx(db, classRequestId).Some? ==> s.db == db
    ensures OwnPendingRequest(db, classRequestId, userId) ==>
      s.result == FetchPending(db, db.requests[classRequestId], PendingTx(db, classRequestId).value, fetchAnswered)
    ensures PendingTx(db, classRequestId).None? && classRequestId in db.requests &&
            db.requests[classRequestId].userId == userId ==>
      var c := CreatePreference(db, classRequestId, userId, now, backendUrl, refreshReply, prefReply);
      && s.db == c.db
      && (c.result.Err? ==> s.result == Err(c.result.error))
      && (c.result.Ok? ==> s.result.Ok? && s.result.value.transaction == c.result.value.transaction
                           && s.result.value.preference == NewPreference(c.result.value.call))
    ensures s.result.Ok? ==>
      s.result.value.status == s.result.value.transaction.status == DefaultTxStatus &&
      s.result.value.transaction.classRequestId == classRequestId
  {
    if classRequestId !in db.requests then
      Step(Err(HttpError(404, "Class Request con id ${ classRequestId } no encontrada")), db)
    else
      var req := db.requests[classRequestId];
      if userId != req.userId then
        Step(Err(HttpError(403, "No tienes permiso para acceder a esta class request")), db)
      else
        match PendingTx(db, classRequestId)
        case None =>
          var c := CreatePreference(db, classRequestId, userId, now, backendUrl, refreshReply, prefReply);
          if c.result.Err? then Step(Err(c.result.error), c.db)
          else
            var tx := c.result.value.transaction;
            Step(Ok(PreferenceView(NewPreference(c.result.value.call), tx, tx.status)), c.db)
        case Some(tx) =>
          var txs := TxsOf(db.txs, classRequestId);
          assert tx.classRequestId == classRequestId by {
            var k :| 0 <= k < |txs| && txs[k] == tx;
          }
          Step(FetchPending(db, req, tx, fetchAnswered), db)
  }

  /**
   * The pending transaction's preference, fetched from the provider with the
   * access token of the teacher who authors the offer. Without that offer,
   * that credential or an answer, the service's catch-all 500.
   */
  function FetchPending(db: Db, req: ClassRequest, tx: Transaction, fetchAnswered: bool): (r: Result<PreferenceView>)
    ensures r.Ok? <==>
      req.classOfferId in db.offers && db.offers[req.classOfferId].authorId in db.creds && fetchAnswered
    ensures r.Err? ==> r == Err(HttpError(500, MsgGetPreferenceFailed))
    ensures r.Ok? ==>
      var author := db.offers[req.classOfferId].authorId;
      && r.value.transaction == tx && r.value.status == tx.status
      && r.value.preference == StoredPreference(db.creds[author].accessToken, tx.preferenceId)
  {
    if req.classOfferId !in db.offers || db.offers[req.classOfferId].authorId !in db.creds || !fetchAnswered then
      Err(HttpError(500, MsgGetPreferenceFailed))
    else
      var info := db.creds[db.offers[req.classOfferId].authorId];
      Ok(PreferenceView(StoredPreference(info.accessToken, tx.preferenceId), tx, tx.status))
  }

  method GetPreferenceService(
    store: Database, classRequestId: int, userId: int, now: int, backendUrl: string,
    refreshReply: Reply<TokenResponse>, prefReply: Reply<string>, fetchAnswered: bool)
    returns (r: Result<PreferenceView>)
    requires Valid(store.Model())
    modifies store
    ensures Step(r, store.Model()) ==
      GetPreference(old(store.Model()), classRequestId, userId, now, backendUrl, refreshReply, prefReply, fetchAnswered)
  {
    ghost var db0 := store.Model();
    if classRequestId !in store.requests {
      return Err(HttpError(404, "Class Request con id ${ classRequestId } no encontrada"));
    }
    var req := store.requests[classRequestId];
    if userId != req.userId {
      return Err(HttpError(403, "No tienes permiso para acceder a esta class request"));
    }
    var pending := PendingTx(store.Model(), classRequestId);
    if pending.None? {
      r := CreateViewService(store, classRequestId, userId, now, backendUrl, refreshReply, prefReply, fetchAnswered);
      return;
    }
    r := FetchPending(store.Model(), req, pending.value, fetchAnswered);
  }

  /** The branch of `GetPreferenceService` that creates the preference, run against the store. */
  method CreateViewService(
    store: Database, classRequestId: int, userId: int, now: int, backendUrl: string,
    refreshReply: Reply<TokenResponse>, prefReply: Reply<string>, fetchAnswered: bool)
    returns (r: Result<PreferenceView>)
    requires Valid(store.Model())
    requires classRequestId in store.requests && store.requests[classRequestId].userId == userId
    requires PendingTx(store.Model(), classRequestId).None?
    modifies store
    ensures Step(r, store.Model()) ==
      GetPreference(old(store.Model()), classRequestId, userId, now, backendUrl, refreshReply, prefReply, fetchAnswered)
  {
    ghost var c := CreatePreference(store.Model(), classRequestId, userId, now, backendUrl, refreshReply, prefReply);
    var created := CreatePreferenceService(store, classRequestId, userId, now, backendUrl, refreshReply, prefReply);
    assert created == c.result && store.Model() == c.db;
    if created.Err? {
      return Err(created.error);
    }
    var tx := created.value.transaction;
    r := Ok(PreferenceView(NewPreference(created.value.call), tx, tx.status));
  }

  /**
   * Viewing the preference again after one was created creates nothing new:
   * the created transaction is the pending one the second call returns.
   */
  lemma GetPreferenceCreatesOnce(
    db: Db, classRequestId: int, userId: int, now: int, backendUrl: string,
    refreshReply: Reply<TokenResponse>, prefReply: Reply<string>, fetchAnswered: bool,
    now2: int, refreshReply2: Reply<TokenResponse>, prefReply2: Reply<string>)
    requires Valid(db)
    requires GetPreference(db, classRequestId, userId, now, backendUrl, refreshReply, prefReply, fetchAnswered).result.Ok?
    ensures var first := GetPreference(db, classRequestId, userId, now, backendUrl, refreshReply, prefReply, fetchAnswered);
      var second := GetPreference(first.db, classRequestId, userId, now2, backendUrl, refreshReply2, prefReply2, true);
      second.db == first.db && PendingTx(first.db, classRequestId) == Some(first.result.value.transaction) &&
      (second.result.Ok? ==> second.result.value.transaction == first.result.value.transaction)
  {
    var first := GetPreference(db, classRequestId, userId, now, backendUrl, refreshReply, prefReply, fetchAnswered);
    var tx := first.result.value.transaction;
    if PendingTx(db, classRequestId).None? {
      var c := CreatePreference(db, classRequestId, userId, now, backendUrl, refreshReply, prefReply);
      assert TxsOf(first.db.txs, classRequestId) == TxsOf(db.txs, classRequestId) + [tx];
      var all := TxsOf(first.db.txs, classRequestId);
      assert all[|all| - 1] == tx;
    }
  }

  // ----------------------------------------------------- update transaction

  /** The newest transaction of a request (the last one created). */
  function LatestTx(db: Db, classRequestId: int): Option<Transaction>
  {
    var txs := TxsOf(db.txs, classRequestId);
    if txs == [] then None else Some(txs[|txs| - 1])
  }

  /** `db'` differs from `db` only in the newest transaction of the request, which is now `tx`. */
  ghost predicate ReplacedLatest(db: Db, db': Db, classRequestId: int, tx: Transaction)
  {
    var txs := TxsOf(db.txs, classRequestId);
    && txs != []
    && TxsOf(db'.txs, classRequestId) == txs[..|txs| - 1] + [tx]
    && (forall rid :: rid != classRequestId ==> TxsOf(db'.txs, rid) == TxsOf(db.txs, rid))
    && tx.id == txs[|txs| - 1].id && tx.classRequestId == classRequestId
    && tx.preferenceId == txs[|txs| - 1].preferenceId
    && db'.nextTxId == db.nextTxId
  }

  /** Storing a new status on the newest transaction of the student's own request. */
  function UpdateTransaction(db: Db, classRequestId: int, userId: int, status: string): (s: Step<Transaction>)
    requires Valid(db)
    ensures Valid(s.db)
    ensures s.result.Err? ==> s.db == db
    ensures StatusOf(s.result) == 404 <==> classRequestId !in db.requests || LatestTx(db, classRequestId).None?
    ensures StatusOf(s.result) == 403 <==>
      classRequestId in db.requests && LatestTx(db, classRequestId).Some? && db.requests[classRequestId].userId != userId
    ensures s.result.Ok? ==>
      && s.result.value == LatestTx(db, classRequestId).value.(status := status)
      && ReplacedLatest(db, s.db, classRequestId, s.result.value)
      && OnlyPaymentsChanged(db, s.db) && s.db.creds == db.creds
  {
    if classRequestId !in db.requests then
      Step(Err(HttpError(404, "Class Request con id " + IntToString(classRequestId) + " no encontrada")), db)
    else if LatestTx(db, classRequestId).None? then
      Step(Err(HttpError(404, MsgNoTransaction + IntToString(classRequestId))), db)
    else if userId != db.requests[classRequestId].userId then
      Step(Err(HttpError(403, "No tienes permiso para actualizar esta transaccion")), db)
    else
      var txs := TxsOf(db.txs, classRequestId);
      var tx := txs[|txs| - 1].(status := status);
      Step(Ok(tx), db.(txs := db.txs[classRequestId := txs[..|txs| - 1] + [tx]]))
  }

  method UpdateTransactionService(store: Database, classRequestId: int, userId: int, status: string)
    returns (r: Result<Transaction>)
    requires Valid(store.Model())
    modifies store
    ensures Step(r, store.Model()) == UpdateTransaction(old(store.Model()), classRequestId, userId, status)
  {
    if classRequestId !in store.requests {
      return Err(HttpError(404, "Class Request con id " + IntToString(classRequestId) + " no encontrada"));
    }
    var txs := TxsOf(store.txs, classRequestId);
    if txs == [] {
      return Err(HttpError(404, MsgNoTransaction + IntToString(classRequestId)));
    }
    if userId != store.requests[classRequestId].userId {
      return Err(HttpError(403, "No tienes permiso para actualizar esta transaccion"));
    }
    var tx := txs[|txs| - 1].(status := status);
    store.txs := store.txs[classRequestId := txs[..|txs| - 1] + [tx]];
    r := Ok(tx);
  }

  // ----------------------------------------------------------------- refund

  /**
   * The refund checks; on success, the payment id whose refund is requested
   * from the provider. Nothing is written: the request keeps its state.
   */
  function RefundPayment(db: Db, classRequestId: int, userId: int): (r: Result<string>)
    ensures r.Ok? <==>
      && classRequestId in db.requests && db.requests[classRequestId].userId == userId
      && db.requests[classRequestId].state in {Paid, Rejected}
      && LatestTx(db, classRequestId).Some? && TruthyText(LatestTx(db, classRequestId).value.paymentId)
    ensures r.Ok? ==> Some(r.value) == LatestTx(db, classRequestId).value.paymentId
    ensures StatusOf(r) == 404 <==> classRequestId !in db.requests
    ensures StatusOf(r) == 403 <==> classRequestId in db.requests && db.requests[classRequestId].userId != userId
    ensures r.Err? ==> r.error.status in {400, 403, 404}
  {
    if classRequestId !in db.requests then
      Err(HttpError(404, "Class Request con id " + IntToString(classRequestId) + " no encontrada"))
    else
      var req := db.requests[classRequestId];
      if req.userId != userId then Err(HttpError(403, "No tienes permiso para acceder a esta oferta de clase"))
      else if req.state in {PaymentPending, Created} then Err(HttpError(400, "La class request aun no ha sido pagada"))
      else if req.state == Approved then Err(HttpError(400, "No se puede reembolsar una clase aprobada"))
      else if req.state == PaymentRefunded then Err(HttpError(400, "La class request ya ha sido reembolsada"))
      else
        assert req.state == Paid || req.state == Rejected;
        var latest := LatestTx(db, classRequestId);
        if latest.None? || !TruthyText(latest.value.paymentId) then
          Err(HttpError(400, "La transaccion no tiene un pago asociado"))
        else Ok(latest.value.paymentId.value)
  }

  // --------------------------------------------------------------- redirect

  /** The query of the provider's redirect; an absent field leaves the stored value unchanged. */
  datatype RedirectPayload = RedirectPayload(paymentId: Option<string>, status: Option<string>)

  /** The confirmation code for a random draw in [0, 9000): the draw plus 1000, in decimal. */
  function ConfirmCodeOf(draw: int): string
    requires 0 <= draw < 9000
  {
    NatToString(draw + 1000)
  }

  /** Every confirmation code has exactly four decimal digits, the first non-zero. */
  lemma ConfirmCodeIsFourDigits(draw: int)
    requires 0 <= draw < 9000
    ensures |ConfirmCodeOf(draw)| == 4 && AllDigits(ConfirmCodeOf(draw)) && ConfirmCodeOf(draw)[0] != '0'
    ensures ParseInt(ConfirmCodeOf(draw)) == Some(draw + 1000)
  {
    var n: nat := draw + 1000;
    var code := NatToString(n);
    assert ConfirmCodeOf(draw) == code;
    NatToStringLength4(n);
    assert code[0] != '0' && AllDigits(code);
    ParseIntNatToString(n);
  }

  /** The newest transaction after the redirect stored the payment and the code. */
  function Redirected(tx: Transaction, payload: RedirectPayload, code: string): Transaction
  {
    tx.(paymentId := if payload.paymentId.Some? then payload.paymentId else tx.paymentId,
        status := if payload.status.Some? then payload.status.value else tx.status,
        confirmCode := Some(code))
  }

  /**
   * The provider's redirect after a payment: the newest transaction records the
   * payment and a fresh confirmation code, and the request becomes Paid,
   * whatever state it was in.
   */
  const MsgNoTransaction := "No se encontro transaccion para la class request con id "

  function RedirectHandler(db: Db, classRequestId: int, payload: RedirectPayload, draw: int): (s: Step<()>)
    requires Valid(db) && 0 <= draw < 9000
    ensures Valid(s.db)
    ensures s.result.Err? <==> LatestTx(db, classRequestId).None?
    ensures s.result.Err? ==> s.db == db && s.result.error.status == 404
    ensures s.result.Err? ==> s.result.error.message == MsgNoTransaction + IntToString(classRequestId)
    ensures s.result.Ok? ==> s.db == db.(txs := s.db.txs, requests := s.db.requests)
    ensures s.result.Ok? ==>
      && classRequestId in db.requests
      && ReplacedLatest(db, s.db, classRequestId, Redirected(LatestTx(db, classRequestId).value, payload, ConfirmCodeOf(draw)))
      && s.db.requests == db.requests[classRequestId := db.requests[classRequestId].(state := Paid)]
      && s.db.creds == db.creds && s.db.users == db.users && s.db.offers == db.offers
      && s.db.reviews == db.reviews && s.db.slots == db.slots
  {
    var txs := TxsOf(db.txs, classRequestId);
    if txs == [] then
      Step(Err(HttpError(404, MsgNoTransaction + IntToString(classRequestId))), db)
    else
      var tx := Redirected(txs[|txs| - 1], payload, ConfirmCodeOf(draw));
      var db1 := db.(txs := db.txs[classRequestId := txs[..|txs| - 1] + [tx]]);
      Step(Ok(()), db1.(requests := db1.requests[classRequestId := db1.requests[classRequestId].(state := Paid)]))
  }

  method RedirectHandlerService(store: Database, classRequestId: int, payload: RedirectPayload, draw: int)
    returns (r: Result<()>)
    requires Valid(store.Model()) && 0 <= draw < 9000
    modifies store
    ensures Step(r, store.Model()) == RedirectHandler(old(store.Model()), classRequestId, payload, draw)
  {
    var txs := TxsOf(store.txs, classRequestId);
    if txs == [] {
      return Err(HttpError(404, MsgNoTransaction + IntToString(classRequestId)));
    }
    var code := ConfirmCodeOf(draw);
    var tx := Redirected(txs[|txs| - 1], payload, code);
    store.txs := store.txs[classRequestId := txs[..|txs| - 1] + [tx]];
    store.requests := store.requests[classRequestId := store.requests[classRequestId].(state := Paid)];
    r := Ok(());
  }
}
