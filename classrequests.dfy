/**
 * The booking lifecycle of class requests: a student books a slot of a
 * class offer (Created), the teacher accepts or rejects it (PaymentPending
 * or Rejected), the provider's redirect marks it Paid (see Payments), and the
 * student confirms with the code issued then (Approved). Also the teacher's
 * direct state update, deletion, the listings and the payment preference each
 * listed request carries.
 */
module ClassRequests {
  import opened Common
  import opened Text
  import opened Js
  import opened Paging
  import opened Tables
  import opened OAuth
  import opened Payments

  // ----------------------------------------------------------------- create

  /** The fields of a booking as the service receives them. */
  datatype CreateBody = CreateBody(classOfferId: int, day: int, slot: int)

  /** `r` books the same offer, day and slot for the same student. */
  predicate SameBooking(r: ClassRequest, userId: int, body: CreateBody)
  {
    r.classOfferId == body.classOfferId && r.userId == userId && r.day == body.day && r.slot == body.slot
  }

  /** No two requests book the same offer, day and slot for the same student. */
  ghost predicate NoDuplicateBookings(requests: map<int, ClassRequest>)
  {
    forall a, b :: a in requests && b in requests && a != b ==>
      !SameBooking(requests[b], requests[a].userId,
                   CreateBody(requests[a].classOfferId, requests[a].day, requests[a].slot))
  }

  /** The row a successful booking inserts: state left to the database default, the offer's price recorded. */
  function NewRequest(id: int, userId: int, body: CreateBody, price: int): ClassRequest
  {
    ClassRequest(id, body.classOfferId, userId, body.day, body.slot, Created, Some(price))
  }

  const MsgNoSuchOffer := "La clase especificada no existe"
  const MsgOwnOffer := "No puedes hacer una reserva en tu propia clase"
  const MsgSlotTaken := "Ya existe una reserva para esta clase en ese horario"
  /** What the create service answers when its own database access throws. */
  const MsgReservationFailed := "Error al crear la reserva"

  /**
   * Booking a slot. Checks, first failure wins: the offer is live (404), the
   * student is not its author (403), and no request of theirs, in any state,
   * books the same day and slot (409). Only a success writes.
   */
  function CreateClassRequest(db: Db, userId: int, body: CreateBody): (s: Step<ClassRequest>)
    requires Valid(db)
    ensures Valid(s.db)
    ensures s.result.Err? ==> s.db == db
    ensures StatusOf(s.result) == 404 <==> !LiveOffer(db, body.classOfferId)
    ensures StatusOf(s.result) == 403 <==>
      LiveOffer(db, body.classOfferId) && db.offers[body.classOfferId].authorId == userId
    ensures StatusOf(s.result) == 409 <==>
      LiveOffer(db, body.classOfferId) && db.offers[body.classOfferId].authorId != userId &&
      exists id :: id in db.requests && SameBooking(db.requests[id], userId, body)
    ensures s.result.Ok? ==>
      && s.result.value == NewRequest(db.nextRequestId, userId, body, db.offers[body.classOfferId].price)
      && db.nextRequestId !in db.requests
      && s.db == db.(requests := db.requests[db.nextRequestId := s.result.value],
                     nextRequestId := db.nextRequestId + 1)
  {
    if !LiveOffer(db, body.classOfferId) then
      Step(Err(HttpError(404, MsgNoSuchOffer)), db)
    else
      var offer := db.offers[body.classOfferId];
      if offer.authorId == userId then
        Step(Err(HttpError(403, MsgOwnOffer)), db)
      else if exists id :: id in db.requests && SameBooking(db.requests[id], userId, body) then
        Step(Err(HttpError(409, MsgSlotTaken)), db)
      else
        var row := NewRequest(db.nextRequestId, userId, body, offer.price);
        Step(Ok(row), db.(requests := db.requests[db.nextRequestId := row], nextRequestId := db.nextRequestId + 1))
  }

  method CreateClassRequestService(store: Database, userId: int, body: CreateBody) returns (r: Result<ClassRequest>)
    requires Valid(store.Model())
    modifies store
    ensures Step(r, store.Model()) == CreateClassRequest(old(store.Model()), userId, body)
  {
    if body.classOfferId !in store.offers || store.offers[body.classOfferId].isDeleted {
      return Err(HttpError(404, MsgNoSuchOffer));
    }
    var offer := store.offers[body.classOfferId];
    if offer.authorId == userId {
      return Err(HttpError(403, MsgOwnOffer));
    }
    if exists id :: id in store.requests && SameBooking(store.requests[id], userId, body) {
      return Err(HttpError(409, MsgSlotTaken));
    }
    var row := NewRequest(store.nextRequestId, userId, body, offer.price);
    store.requests := store.requests[store.nextRequestId := row];
    store.nextRequestId := store.nextRequestId + 1;
    r := Ok(row);
  }
  /**
   * A `day` or `slot` the duplicate query can take: an integer, or absent,
   * in which case the query does not filter on it. Any other value (text,
   * a fraction, `null`, NaN) makes the query throw.
   */
  predicate Filterable(v: JsValue)
  {
    v.Undefined? || IsInteger(v)
  }

  /** `r` is a request of the student on the offer that agrees with every field the query filters on. */
  predicate MatchesGiven(r: ClassRequest, userId: int, classOfferId: int, day: JsValue, slot: JsValue)
    requires Filterable(day) && Filterable(slot)
  {
    && r.classOfferId == classOfferId && r.userId == userId
    && (day.Undefined? || r.day == day.x.Floor)
    && (slot.Undefined? || r.slot == slot.x.Floor)
  }

  /**
   * The create service on the body as posted, whose `day` and `slot` are
   * passed on unchecked. With two integers it is `CreateClassRequest`.
   * Otherwise the offer checks still come first (404, 403); then a value the
   * query cannot take is a 500; an absent one drops out of the duplicate
   * query, so any request of the student on the offer that agrees with the
   * rest is a 409; and with none, the insert lacks a required column: 500.
   */
  function CreateFromRawBody(db: Db, userId: int, classOfferId: int, day: JsValue, slot: JsValue): (s: Step<ClassRequest>)
    requires Valid(db)
    ensures Valid(s.db)
    ensures IsInteger(day) && IsInteger(slot) ==>
      s == CreateClassRequest(db, userId, CreateBody(classOfferId, day.x.Floor, slot.x.Floor))
    ensures !(IsInteger(day) && IsInteger(slot)) ==> s.result.Err? && s.db == db
    ensures !(IsInteger(day) && IsInteger(slot)) ==>
      && (StatusOf(s.result) == 404 <==> !LiveOffer(db, classOfferId))
      && (StatusOf(s.result) == 403 <==> LiveOffer(db, classOfferId) && db.offers[classOfferId].authorId == userId)
      && (StatusOf(s.result) == 409 <==>
            LiveOffer(db, classOfferId) && db.offers[classOfferId].authorId != userId
            && Filterable(day) && Filterable(slot)
            && exists id :: id in db.requests && MatchesGiven(db.requests[id], userId, classOfferId, day, slot))
      && (StatusOf(s.result) !in {404, 403, 409} ==> s.result == Err(HttpError(500, MsgReservationFailed)))
  {
    if IsInteger(day) && IsInteger(slot) then
      CreateClassRequest(db, userId, CreateBody(classOfferId, day.x.Floor, slot.x.Floor))
    else if !LiveOffer(db, classOfferId) then Step(Err(HttpError(404, MsgNoSuchOffer)), db)
    else if db.offers[classOfferId].authorId == userId then Step(Err(HttpError(403, MsgOwnOffer)), db)
    else if !Filterable(day) || !Filterable(slot) then Step(Err(HttpError(500, MsgReservationFailed)), db)
    else if exists id :: id in db.requests && MatchesGiven(db.requests[id], userId, classOfferId, day, slot) then
      Step(Err(HttpError(409, MsgSlotTaken)), db)
    else Step(Err(HttpError(500, MsgReservationFailed)), db)
  }

  /** Without a `slot`, any earlier booking of the same offer and day by the student is a conflict, whatever its slot. */
  lemma MissingSlotConflictsWithAnySlot(db: Db, userId: int, day: int, id: int)
    requires Valid(db)
    requires id in db.requests && db.requests[id].userId == userId && db.requests[id].day == day
    requires LiveOffer(db, db.requests[id].classOfferId) && db.offers[db.requests[id].classOfferId].authorId != userId
    ensures CreateFromRawBody(db, userId, db.requests[id].classOfferId, Num(day as real), Undefined).result ==
      Err(HttpError(409, MsgSlotTaken))
  {
    assert (day as real).Floor == day;
    assert MatchesGiven(db.requests[id], userId, db.requests[id].classOfferId, Num(day as real), Undefined);
  }


  /** Booking the same slot twice: the second attempt is refused with 409 and writes nothing. */
  lemma SecondBookingConflicts(db: Db, userId: int, body: CreateBody)
    requires Valid(db)
    requires CreateClassRequest(db, userId, body).result.Ok?
    ensures var db1 := CreateClassRequest(db, userId, body).db;
      var again := CreateClassRequest(db1, userId, body);
      StatusOf(again.result) == 409 && again.db == db1
  {
    var db1 := CreateClassRequest(db, userId, body).db;
    assert db.nextRequestId in db1.requests && SameBooking(db1.requests[db.nextRequestId], userId, body);
  }

  /** Creation keeps bookings unique. */
  lemma CreateKeepsBookingsUnique(db: Db, userId: int, body: CreateBody)
    requires Valid(db) && NoDuplicateBookings(db.requests)
    ensures NoDuplicateBookings(CreateClassRequest(db, userId, body).db.requests)
  {
    var s := CreateClassRequest(db, userId, body);
    if s.result.Ok? {
      var rs := s.db.requests;
      forall a, b | a in rs && b in rs && a != b
        ensures !SameBooking(rs[b], rs[a].userId, CreateBody(rs[a].classOfferId, rs[a].day, rs[a].slot))
      {
        if a == db.nextRequestId {
          assert b in db.requests;
        } else if b == db.nextRequestId {
          assert a in db.requests;
          assert !SameBooking(db.requests[a], userId, body);
        }
      }
    }
  }

  // ---------------------------------------------------------- accept/reject

  /** The state a teacher's decision moves a request to. */
  function DecisionState(accept: bool): RequestState
  {
    if accept then PaymentPending else Rejected
  }

  /** `db'` is `db` with only the state of request `id` changed to `st`. */
  predicate StateSet(db: Db, db': Db, id: int, st: RequestState)
  {
    id in db.requests && db' == db.(requests := db.requests[id := db.requests[id].(state := st)])
  }

  /**
   * The teacher's decision on a request. Neither the current state nor the
   * caller is checked; a missing request is a failed update, reported as 500.
   */
  function AcceptClass(db: Db, classRequestId: int, accept: bool): (s: Step<ClassRequest>)
    requires Valid(db)
    ensures Valid(s.db)
    ensures s.result.Ok? <==> classRequestId in db.requests
    ensures s.result.Err? ==> s == Step(Err(HttpError(500, "Error al aceptar la solicitud de clase")), db)
    ensures s.result.Ok? ==>
      StateSet(db, s.db, classRequestId, DecisionState(accept)) && s.result.value == s.db.requests[classRequestId]
  {
    if classRequestId !in db.requests then
      Step(Err(HttpError(500, "Error al aceptar la solicitud de clase")), db)
    else
      var row := db.requests[classRequestId].(state := DecisionState(accept));
      Step(Ok(row), db.(requests := db.requests[classRequestId := row]))
  }

  method AcceptClassService(store: Database, classRequestId: int, accept: bool) returns (r: Result<ClassRequest>)
    requires Valid(store.Model())
    modifies store
    ensures Step(r, store.Model()) == AcceptClass(old(store.Model()), classRequestId, accept)
  {
    var state := if accept then PaymentPending else Rejected;
    if classRequestId !in store.requests {
      return Err(HttpError(500, "Error al aceptar la solicitud de clase"));
    }
    var row := store.requests[classRequestId].(state := state);
    store.requests := store.requests[classRequestId := row];
    r := Ok(row);
  }

  // ---------------------------------------------------------------- confirm

  /**
   * The confirmation handshake: the code must equal the one stored on the
   * newest transaction (a transaction without a code never matches); the
   * request then becomes Approved whatever its state was.
   */
  function ConfirmClass(db: Db, classRequestId: int, code: string): (s: Step<ClassRequest>)
    requires Valid(db)
    ensures Valid(s.db)
    ensures s.result.Err? ==> s.db == db
    ensures StatusOf(s.result) == 404 <==> LatestTx(db, classRequestId).None?
    ensures StatusOf(s.result) == 400 <==>
      LatestTx(db, classRequestId).Some? && LatestTx(db, classRequestId).value.confirmCode != Some(code)
    ensures s.result.Ok? <==>
      LatestTx(db, classRequestId).Some? && LatestTx(db, classRequestId).value.confirmCode == Some(code)
    ensures s.result.Ok? ==>
      StateSet(db, s.db, classRequestId, Approved) && s.result.value == s.db.requests[classRequestId]
  {
    var latest := LatestTx(db, classRequestId);
    if latest.None? then
      Step(Err(HttpError(404, "No se encontro transaccion para la class request con id " + IntToString(classRequestId))), db)
    else if latest.value.confirmCode != Some(code) then
      Step(Err(HttpError(400, "Codigo de confirmacion invalido")), db)
    else
      var row := db.requests[classRequestId].(state := Approved);
      Step(Ok(row), db.(requests := db.requests[classRequestId := row]))
  }

  method ConfirmClassService(store: Database, classRequestId: int, code: string) returns (r: Result<ClassRequest>)
    requires Valid(store.Model())
    modifies store
    ensures Step(r, store.Model()) == ConfirmClass(old(store.Model()), classRequestId, code)
  {
    var txs := TxsOf(store.txs, classRequestId);
    if txs == [] {
      return Err(HttpError(404, "No se encontro transaccion para la class request con id " + IntToString(classRequestId)));
    }
    if txs[|txs| - 1].confirmCode != Some(code) {
      return Err(HttpError(400, "Codigo de confirmacion invalido"));
    }
    var row := store.requests[classRequestId].(state := Approved);
    store.requests := store.requests[classRequestId := row];
    r := Ok(row);
  }

  // ----------------------------------------------------------- update state

  const MsgUpdateStateFailed := "Error al actualizar el estado de la solicitud"

  /**
   * The teacher's direct state update. The request must exist (404) and the
   * caller must author its offer (403); the state label is then written
   * verbatim. The update fails with 500 when the label is not a state or the
   * offer is soft-deleted.
   */
  function UpdateClassRequestState(db: Db, tutorId: int, classRequestId: int, newState: string): (s: Step<ClassRequest>)
    requires Valid(db)
    ensures Valid(s.db)
    ensures s.result.Err? ==> s.db == db
    ensures StatusOf(s.result) == 404 <==> classRequestId !in db.requests
    ensures StatusOf(s.result) == 403 <==>
      classRequestId in db.requests && db.requests[classRequestId].classOfferId in db.offers &&
      db.offers[db.requests[classRequestId].classOfferId].authorId != tutorId
    ensures s.result.Ok? <==>
      classRequestId in db.requests && LiveOffer(db, db.requests[classRequestId].classOfferId) &&
      db.offers[db.requests[classRequestId].classOfferId].authorId == tutorId && ParseState(newState).Some?
    ensures s.result.Ok? ==>
      StateSet(db, s.db, classRequestId, ParseState(newState).value) &&
      StateName(s.result.value.state) == newState
    ensures s.result.Err? ==> s.result.error.status in {403, 404, 500}
  {
    if classRequestId !in db.requests then Step(Err(HttpError(404, "La solicitud de clase no existe")), db)
    else
      var req := db.requests[classRequestId];
      if req.classOfferId !in db.offers then Step(Err(HttpError(500, MsgUpdateStateFailed)), db)
      else if db.offers[req.classOfferId].authorId != tutorId then
        Step(Err(HttpError(403, "No tienes permisos para modificar esta solicitud")), db)
      else if ParseState(newState).None? || db.offers[req.classOfferId].isDeleted then
        Step(Err(HttpError(500, MsgUpdateStateFailed)), db)
      else
        var row := req.(state := ParseState(newState).value);
        Step(Ok(row), db.(requests := db.requests[classRequestId := row]))
  }

  method UpdateClassRequestStateService(store: Database, tutorId: int, classRequestId: int, newState: string)
    returns (r: Result<ClassRequest>)
    requires Valid(store.Model())
    modifies store
    ensures Step(r, store.Model()) == UpdateClassRequestState(old(store.Model()), tutorId, classRequestId, newState)
  {
    if classRequestId !in store.requests {
      return Err(HttpError(404, "La solicitud de clase no existe"));
    }
    var req := store.requests[classRequestId];
    if req.classOfferId !in store.offers {
      return Err(HttpError(500, MsgUpdateStateFailed));
    }
    if store.offers[req.classOfferId].authorId != tutorId {
      return Err(HttpError(403, "No tienes permisos para modificar esta solicitud"));
    }
    var state := ParseState(newState);
    if state.None? || store.offers[req.classOfferId].isDeleted {
      return Err(HttpError(500, MsgUpdateStateFailed));
    }
    var row := req.(state := state.value);
    store.requests := store.requests[classRequestId := row];
    r := Ok(row);
  }

  // ----------------------------------------------------------------- delete

  /** The prefix of the message of an unexpected error inside a service; the error's own text is not modelled. */
  const MsgInternal := "Error interno del servidor: "

  /**
   * A student deletes their own request (404 missing, 401 someone else's).
   * A request that already has transactions cannot be deleted: the database
   * refuses it and the service answers 500.
   */
  function DeleteClassRequest(db: Db, userId: int, classRequestId: int): (s: Step<()>)
    requires Valid(db)
    ensures Valid(s.db)
    ensures s.result.Err? ==> s.db == db
    ensures StatusOf(s.result) == 404 <==> classRequestId !in db.requests
    ensures StatusOf(s.result) == 401 <==> classRequestId in db.requests && db.requests[classRequestId].userId != userId
    ensures s.result.Ok? <==>
      classRequestId in db.requests && db.requests[classRequestId].userId == userId && TxsOf(db.txs, classRequestId) == []
    ensures s.result.Ok? ==>
      s.db == db.(requests := db.requests - {classRequestId}) && classRequestId !in s.db.requests
  {
    if classRequestId !in db.requests then Step(Err(HttpError(404, "Reserva a eliminar no encontrada.")), db)
    else if userId != db.requests[classRequestId].userId then
      Step(Err(HttpError(401, "El recurso no le pertenece al usuario actual.")), db)
    else if TxsOf(db.txs, classRequestId) != [] then Step(Err(HttpError(500, MsgInternal)), db)
    else Step(Ok(()), db.(requests := db.requests - {classRequestId}))
  }

  method DeleteClassRequestService(store: Database, userId: int, classRequestId: int) returns (r: Result<()>)
    requires Valid(store.Model())
    modifies store
    ensures Step(r, store.Model()) == DeleteClassRequest(old(store.Model()), userId, classRequestId)
  {
    if classRequestId !in store.requests {
      return Err(HttpError(404, "Reserva a eliminar no encontrada."));
    }
    if userId != store.requests[classRequestId].userId {
      return Err(HttpError(401, "El recurso no le pertenece al usuario actual."));
    }
    if TxsOf(store.txs, classRequestId) != [] {
      return Err(HttpError(500, MsgInternal));
    }
    store.requests := store.requests - {classRequestId};
    r := Ok(());
  }

  // --------------------------------------------------------------- listings

  /** Every stored request sits under its own id. */
  ghost predicate RequestsKeyed(db: Db)
  {
    IdsBelow(db.requests, db.nextRequestId) && IdsMatchKeys(db.requests, (r: ClassRequest) => r.id)
  }

  /** The stored requests satisfying `keep`, newest first. */
  function RequestsNewestFirst(db: Db, keep: ClassRequest -> bool): (r: seq<ClassRequest>)
    requires RequestsKeyed(db)
    ensures forall i :: 0 <= i < |r| ==> keep(r[i]) && r[i].id in db.requests && db.requests[r[i].id] == r[i]
    ensures forall i, j :: 0 <= i < j < |r| ==> r[i].id > r[j].id
    ensures forall id :: id in db.requests && keep(db.requests[id]) ==> db.requests[id] in r
  {
    NewestRows(db.requests, db.nextRequestId, keep, (q: ClassRequest) => q.id)
  }

  /** The requests on one offer. */
  function OnOffer(classOfferId: int): ClassRequest -> bool
  {
    (q: ClassRequest) => q.classOfferId == classOfferId
  }

  /** The requests a student made. */
  function ByStudent(userId: int): ClassRequest -> bool
  {
    (q: ClassRequest) => q.userId == userId
  }

  /** The requests on a teacher's live offers. */
  function OnTutorsLive(db: Db, tutorId: int): ClassRequest -> bool
  {
    (q: ClassRequest) => OnTutorsLiveOffer(db, tutorId, q)
  }

  /** A page of a newest-first listing holds stored requests satisfying `keep`. */
  lemma WindowOfNewestFirstRows(db: Db, keep: ClassRequest -> bool, page: int, limit: int)
    requires RequestsKeyed(db) && page >= 1 && limit >= 1
    ensures var r := Window(RequestsNewestFirst(db, keep), page, limit);
      forall i :: 0 <= i < |r| ==> keep(r[i]) && r[i].id in db.requests && db.requests[r[i].id] == r[i]
  {
    WindowKeeps(RequestsNewestFirst(db, keep),
      (q: ClassRequest) => keep(q) && q.id in db.requests && db.requests[q.id] == q, page, limit);
  }

  /** A page of a newest-first listing is newest first. */
  lemma WindowOfNewestFirstOrder(db: Db, keep: ClassRequest -> bool, page: int, limit: int)
    requires RequestsKeyed(db) && page >= 1 && limit >= 1
    ensures var r := Window(RequestsNewestFirst(db, keep), page, limit);
      forall i, j :: 0 <= i < j < |r| ==> r[i].id > r[j].id
  {
    WindowKeepsDescending(RequestsNewestFirst(db, keep), (q: ClassRequest) => q.id, page, limit);
  }

  /** A request by id (404 when there is none). */
  function ClassRequestById(db: Db, classRequestId: int): (r: Result<ClassRequest>)
    ensures r.Ok? <==> classRequestId in db.requests
    ensures r.Ok? ==> r.value == db.requests[classRequestId]
    ensures r.Err? ==> r.error == HttpError(404, "La reserva especificada no existe.")
  {
    if classRequestId in db.requests then Ok(db.requests[classRequestId])
    else Err(HttpError(404, "La reserva especificada no existe."))
  }

  /**
   * A teacher's view of the requests on one of their offers: 404 when the
   * offer is missing or deleted, 403 when it is someone else's; otherwise the
   * offer's requests, newest first, one page.
   */
  function ClassRequestsByClass(db: Db, tutorId: int, classOfferId: int, page: int, limit: int): (r: Result<seq<ClassRequest>>)
    requires Valid(db) && page >= 1 && limit >= 1
    ensures StatusOf(r) == 404 <==> !LiveOffer(db, classOfferId)
    ensures StatusOf(r) == 403 <==> LiveOffer(db, classOfferId) && db.offers[classOfferId].authorId != tutorId
    ensures r.Ok? ==> |r.value| <= limit
    ensures r.Ok? ==> forall i :: 0 <= i < |r.value| ==>
      r.value[i].classOfferId == classOfferId && r.value[i].id in db.requests && db.requests[r.value[i].id] == r.value[i]
    ensures r.Ok? ==> forall i, j :: 0 <= i < j < |r.value| ==> r.value[i].id > r.value[j].id
    ensures r.Ok? ==> r.value == Window(RequestsNewestFirst(db, OnOffer(classOfferId)), page, limit)
  {
    if !LiveOffer(db, classOfferId) then Err(HttpError(404, MsgNoSuchOffer))
    else if db.offers[classOfferId].authorId != tutorId then Err(HttpError(403, "No eres el tutor de esta clase"))
    else
      var keep := OnOffer(classOfferId);
      WindowOfNewestFirstRows(db, keep, page, limit);
      WindowOfNewestFirstOrder(db, keep, page, limit);
      Ok(Window(RequestsNewestFirst(db, keep), page, limit))
  }

  /** A request on one of the teacher's live offers. */
  predicate OnTutorsLiveOffer(db: Db, tutorId: int, q: ClassRequest)
  {
    LiveOffer(db, q.classOfferId) && db.offers[q.classOfferId].authorId == tutorId
  }

  /** All requests on a teacher's live offers, newest first, one page. */
  function TutorClassRequests(db: Db, tutorId: int, page: int, limit: int): (r: seq<ClassRequest>)
    requires Valid(db) && page >= 1 && limit >= 1
    ensures |r| <= limit
    ensures forall i :: 0 <= i < |r| ==> OnTutorsLiveOffer(db, tutorId, r[i]) && r[i].id in db.requests && db.requests[r[i].id] == r[i]
    ensures forall i, j :: 0 <= i < j < |r| ==> r[i].id > r[j].id
    ensures r == Window(RequestsNewestFirst(db, OnTutorsLive(db, tutorId)), page, limit)
  {
    var keep := OnTutorsLive(db, tutorId);
    WindowOfNewestFirstRows(db, keep, page, limit);
    WindowOfNewestFirstOrder(db, keep, page, limit);
    Window(RequestsNewestFirst(db, keep), page, limit)
  }

  /** The first page of the teacher's list holds their newest live-offer request. */
  lemma TutorListStartsWithNewest(db: Db, tutorId: int, limit: int, id: int)
    requires Valid(db) && limit >= 1
    requires id in db.requests && OnTutorsLiveOffer(db, tutorId, db.requests[id])
    requires forall other :: other in db.requests && other > id ==> !OnTutorsLiveOffer(db, tutorId, db.requests[other])
    ensures TutorClassRequests(db, tutorId, 1, limit) != []
    ensures TutorClassRequests(db, tutorId, 1, limit)[0] == db.requests[id]
  {
    var all := RequestsNewestFirst(db, OnTutorsLive(db, tutorId));
    assert db.requests[id] in all;
    var k :| 0 <= k < |all| && all[k] == db.requests[id];
    assert all[0].id >= id;
  }

  // ------------------------------------------------ preferences in listings

  /** What a listing does about the payment preference of one request. */
  datatype PreferenceDecision = CreateNew | FetchExisting(tx: Transaction) | NoPreference

  /** Statuses of the transactions a listing loads with each request. */
  const ListedStatuses: set<string> := {"pending", "approved"}

  /**
   * Only a request waiting for payment gets a preference: the one of its
   * newest pending or approved transaction, or a new one when there is none.
   */
  function PreferenceDecisionFor(req: ClassRequest, txs: seq<Transaction>): (d: PreferenceDecision)
    ensures d == NoPreference <==> req.state != PaymentPending
    ensures d == CreateNew <==> req.state == PaymentPending && forall k :: 0 <= k < |txs| ==> txs[k].status !in ListedStatuses
    ensures d.FetchExisting? ==> d.tx in txs && d.tx.status in ListedStatuses
    ensures d.FetchExisting? ==> d.tx == LatestWithStatus(txs, ListedStatuses).value
  {
    if req.state != PaymentPending then NoPreference
    else
      match LatestWithStatus(txs, ListedStatuses)
      case None => CreateNew
      case Some(tx) => FetchExisting(tx)
  }

  /** One listed request with the preference the listing attached (none outside PaymentPending). */
  datatype ListedRequest = ListedRequest(request: ClassRequest, preference: Option<ProviderPreference>)

  /** The provider's answers for one listed request. */
  datatype ListingReplies = ListingReplies(refresh: Reply<TokenResponse>, pref: Reply<string>, fetchAnswered: bool)

  /**
   * The stored preference of a request, fetched with the teacher's access
   * token as loaded with the list (a teacher without credential, or a failed
   * fetch, is an unexpected error).
   */
  function FetchStored(db0: Db, req: ClassRequest, tx: Transaction, fetchAnswered: bool): (r: Option<ProviderPreference>)
    ensures r.Some? ==> r.value.StoredPreference? && r.value.preferenceId == tx.preferenceId
    ensures r.Some? <==>
      fetchAnswered && req.classOfferId in db0.offers && db0.offers[req.classOfferId].authorId in db0.creds
  {
    if req.classOfferId !in db0.offers || db0.offers[req.classOfferId].authorId !in db0.creds || !fetchAnswered then None
    else Some(StoredPreference(db0.creds[db0.offers[req.classOfferId].authorId].accessToken, tx.preferenceId))
  }

  /**
   * The preference a listing attaches agrees with the decision taken on the
   * loaded snapshot: none, the stored one fetched by its id, or a new one.
   */
  predicate AttachedAsDecided(db0: Db, req: ClassRequest, replies: ListingReplies, pref: Option<ProviderPreference>)
  {
    match PreferenceDecisionFor(req, TxsOf(db0.txs, req.id))
    case NoPreference => pref.None?
    case FetchExisting(tx) => pref.Some? && pref == FetchStored(db0, req, tx, replies.fetchAnswered)
    case CreateNew => pref.Some? && pref.value.NewPreference?
  }

  /**
   * How listing one request can fail: its stored preference cannot be
   * fetched (the listing's own error), or creating a new one fails.
   */
  predicate FailsAsDecided(db0: Db, req: ClassRequest, replies: ListingReplies, failure: HttpError, e: HttpError)
  {
    match PreferenceDecisionFor(req, TxsOf(db0.txs, req.id))
    case NoPreference => false
    case FetchExisting(tx) => FetchStored(db0, req, tx, replies.fetchAnswered).None? && e == failure
    case CreateNew => true
  }

  /** The preference attached to one listed request: decided on the loaded snapshot `db0`, created on the current tables `db`. */
  function AnnotateOne(
    db0: Db, db: Db, userId: int, req: ClassRequest, now: int, backendUrl: string,
    replies: ListingReplies, failure: HttpError): (s: Step<ListedRequest>)
    requires Valid(db)
    ensures Valid(s.db) && OnlyPaymentsChanged(db, s.db)
    ensures s.result.Ok? ==> s.result.value.request == req
    ensures s.result.Ok? ==> (s.result.value.preference.Some? <==> req.state == PaymentPending)
    ensures s.result.Ok? ==> AttachedAsDecided(db0, req, replies, s.result.value.preference)
    ensures s.result.Err? ==> FailsAsDecided(db0, req, replies, failure, s.result.error)
    ensures PreferenceDecisionFor(req, TxsOf(db0.txs, req.id)) != CreateNew ==> s.db == db
  {
    match PreferenceDecisionFor(req, TxsOf(db0.txs, req.id))
    case NoPreference => Step(Ok(ListedRequest(req, None)), db)
    case CreateNew =>
      var c := CreatePreference(db, req.id, userId, now, backendUrl, replies.refresh, replies.pref);
      if c.result.Err? then Step(Err(c.result.error), c.db)
      else Step(Ok(ListedRequest(req, Some(NewPreference(c.result.value.call)))), c.db)
    case FetchExisting(tx) =>
      var fetched := FetchStored(db0, req, tx, replies.fetchAnswered);
      if fetched.None? then Step(Err(failure), db)
      else Step(Ok(ListedRequest(req, fetched)), db)
  }

  /**
   * A request waiting for payment with no pending or approved transaction
   * gets the preference created for it on the current tables, and the
   * listing fails when that creation fails.
   */
  lemma AnnotateOneCreates(
    db0: Db, db: Db, userId: int, req: ClassRequest, now: int, backendUrl: string,
    replies: ListingReplies, failure: HttpError)
    requires Valid(db)
    requires PreferenceDecisionFor(req, TxsOf(db0.txs, req.id)) == CreateNew
    ensures var s := AnnotateOne(db0, db, userId, req, now, backendUrl, replies, failure);
      var c := CreatePreference(db, req.id, userId, now, backendUrl, replies.refresh, replies.pref);
      s.db == c.db && (c.result.Err? ==> s.result == Err(c.result.error)) &&
      (c.result.Ok? ==> s.result == Ok(ListedRequest(req, Some(NewPreference(c.result.value.call)))))
  {
  }

  /** The listing loop over `reqs`: each request in turn, the first failure ending the listing. */
  function AnnotateAll(
    db0: Db, db: Db, userId: int, reqs: seq<ClassRequest>, now: int, backendUrl: string,
    replies: seq<ListingReplies>, failure: HttpError): (s: Step<seq<ListedRequest>>)
    requires Valid(db) && |replies| == |reqs|
    ensures Valid(s.db) && OnlyPaymentsChanged(db, s.db)
    ensures s.result.Ok? ==> ListedAsDecided(db0, reqs, replies, s.result.value)
    ensures s.result.Err? ==> SomeFails(db0, reqs, replies, failure, s.result.error)
    decreases |reqs|
  {
    if reqs == [] then Step(Ok([]), db)
    else
      var one := AnnotateOne(db0, db, userId, reqs[0], now, backendUrl, replies[0], failure);
      if one.result.Err? then
        FirstFails(db0, reqs, replies, failure, one.result.error);
        Step(Err(one.result.error), one.db)
      else
        var rest := AnnotateAll(db0, one.db, userId, reqs[1..], now, backendUrl, replies[1..], failure);
        if rest.result.Err? then
          LaterFails(db0, reqs, replies, failure, rest.result.error);
          rest
        else
          ListedCons(db0, reqs, replies, one.result.value, rest.result.value);
          Step(Ok([one.result.value] + rest.result.value), rest.db)
  }

  /** Some request of the listing fails the way its decision allows, with error `e`. */
  predicate SomeFails(db0: Db, reqs: seq<ClassRequest>, replies: seq<ListingReplies>, failure: HttpError, e: HttpError)
    requires |replies| == |reqs|
  {
    exists i :: 0 <= i < |reqs| && FailsAsDecided(db0, reqs[i], replies[i], failure, e)
  }

  lemma FirstFails(db0: Db, reqs: seq<ClassRequest>, replies: seq<ListingReplies>, failure: HttpError, e: HttpError)
    requires |replies| == |reqs| && reqs != []
    requires FailsAsDecided(db0, reqs[0], replies[0], failure, e)
    ensures SomeFails(db0, reqs, replies, failure, e)
  {
  }

  lemma LaterFails(db0: Db, reqs: seq<ClassRequest>, replies: seq<ListingReplies>, failure: HttpError, e: HttpError)
    requires |replies| == |reqs| && reqs != []
    requires SomeFails(db0, reqs[1..], replies[1..], failure, e)
    ensures SomeFails(db0, reqs, replies, failure, e)
  {
    var j :| 0 <= j < |reqs| - 1 && FailsAsDecided(db0, reqs[1..][j], replies[1..][j], failure, e);
    assert reqs[1..][j] == reqs[j + 1] && replies[1..][j] == replies[j + 1];
  }

  /** The listing's output matches `reqs` one to one, each with the preference decided for it. */
  predicate ListedAsDecided(db0: Db, reqs: seq<ClassRequest>, replies: seq<ListingReplies>, out: seq<ListedRequest>)
    requires |replies| == |reqs|
  {
    |out| == |reqs| && forall i :: 0 <= i < |reqs| ==>
      out[i].request == reqs[i] &&
      (out[i].preference.Some? <==> reqs[i].state == PaymentPending) &&
      AttachedAsDecided(db0, reqs[i], replies[i], out[i].preference)
  }

  /** A correctly listed first request followed by a correctly listed rest is a correct listing. */
  lemma ListedCons(
    db0: Db, reqs: seq<ClassRequest>, replies: seq<ListingReplies>, x: ListedRequest, xs: seq<ListedRequest>)
    requires |replies| == |reqs| && reqs != []
    requires x.request == reqs[0] && (x.preference.Some? <==> reqs[0].state == PaymentPending)
    requires AttachedAsDecided(db0, reqs[0], replies[0], x.preference)
    requires ListedAsDecided(db0, reqs[1..], replies[1..], xs)
    ensures ListedAsDecided(db0, reqs, replies, [x] + xs)
  {
    var out := [x] + xs;
    forall i | 0 <= i < |reqs|
      ensures out[i].request == reqs[i] && (out[i].preference.Some? <==> reqs[i].state == PaymentPending)
      ensures AttachedAsDecided(db0, reqs[i], replies[i], out[i].preference)
    {
      if i > 0 {
        assert out[i] == xs[i - 1] && reqs[i] == reqs[1..][i - 1] && replies[i] == replies[1..][i - 1];
      }
    }
  }

  /** `out` followed by what the rest of the loop produces. */
  function Continue(out: seq<ListedRequest>, rest: Step<seq<ListedRequest>>): Step<seq<ListedRequest>>
  {
    if rest.result.Err? then rest else Step(Ok(out + rest.result.value), rest.db)
  }

  /** The loop's first iteration, and what it leaves for the rest. */
  lemma AnnotateAllFirst(
    db0: Db, db: Db, userId: int, reqs: seq<ClassRequest>, now: int, backendUrl: string,
    replies: seq<ListingReplies>, failure: HttpError)
    requires Valid(db) && |replies| == |reqs| && reqs != []
    ensures var one := AnnotateOne(db0, db, userId, reqs[0], now, backendUrl, replies[0], failure);
      AnnotateAll(db0, db, userId, reqs, now, backendUrl, replies, failure) ==
        if one.result.Err? then Step(Err(one.result.error), one.db)
        else Continue([one.result.value], AnnotateAll(db0, one.db, userId, reqs[1..], now, backendUrl, replies[1..], failure))
  {
  }

  /** Moving one listed request from the rest of the loop to its output. */
  lemma ContinueShift(out: seq<ListedRequest>, x: ListedRequest, rest: Step<seq<ListedRequest>>)
    ensures Continue(out, Continue([x], rest)) == Continue(out + [x], rest)
  {
    if rest.result.Ok? {
      assert out + ([x] + rest.result.value) == (out + [x]) + rest.result.value;
    }
  }

  /** One iteration of the listing loop. */
  method AnnotateOneService(
    store: Database, db0: Db, userId: int, req: ClassRequest, now: int, backendUrl: string,
    replies: ListingReplies, failure: HttpError) returns (r: Result<ListedRequest>)
    requires Valid(store.Model())
    modifies store
    ensures Step(r, store.Model()) ==
      AnnotateOne(db0, old(store.Model()), userId, req, now, backendUrl, replies, failure)
  {
    match PreferenceDecisionFor(req, TxsOf(db0.txs, req.id)) {
      case NoPreference =>
        r := Ok(ListedRequest(req, None));
      case CreateNew =>
        var created := CreatePreferenceService(store, req.id, userId, now, backendUrl, replies.refresh, replies.pref);
        if created.Err? {
          return Err(created.error);
        }
        r := Ok(ListedRequest(req, Some(NewPreference(created.value.call))));
      case FetchExisting(tx) =>
        var pref := FetchStored(db0, req, tx, replies.fetchAnswered);
        if pref.None? {
          return Err(failure);
        }
        r := Ok(ListedRequest(req, pref));
    }
  }

  /** One turn of the listing loop: listing `reqs[i]` either ends the listing or leaves the rest to do. */
  lemma LoopTurn(
    db0: Db, db: Db, userId: int, reqs: seq<ClassRequest>, now: int, backendUrl: string,
    replies: seq<ListingReplies>, failure: HttpError, i: int, out: seq<ListedRequest>, whole: Step<seq<ListedRequest>>)
    requires Valid(db) && |replies| == |reqs| && 0 <= i < |reqs|
    requires Continue(out, AnnotateAll(db0, db, userId, reqs[i..], now, backendUrl, replies[i..], failure)) == whole
    ensures var one := AnnotateOne(db0, db, userId, reqs[i], now, backendUrl, replies[i], failure);
      (one.result.Err? ==> whole == Step(Err(one.result.error), one.db)) &&
      (one.result.Ok? ==>
        Continue(out + [one.result.value],
          AnnotateAll(db0, one.db, userId, reqs[i + 1..], now, backendUrl, replies[i + 1..], failure)) == whole)
  {
    assert reqs[i..][1..] == reqs[i + 1..] && replies[i..][1..] == replies[i + 1..];
    AnnotateAllFirst(db0, db, userId, reqs[i..], now, backendUrl, replies[i..], failure);
    var one := AnnotateOne(db0, db, userId, reqs[i], now, backendUrl, replies[i], failure);
    if one.result.Ok? {
      ContinueShift(out, one.result.value,
        AnnotateAll(db0, one.db, userId, reqs[i + 1..], now, backendUrl, replies[i + 1..], failure));
    }
  }

  /** The listing loop, one request per iteration, run against the tables. */
  method AnnotateLoop(
    store: Database, userId: int, reqs: seq<ClassRequest>, now: int, backendUrl: string,
    replies: seq<ListingReplies>, failure: HttpError) returns (r: Result<seq<ListedRequest>>)
    requires Valid(store.Model()) && |replies| == |reqs|
    modifies store
    ensures Step(r, store.Model()) ==
      AnnotateAll(old(store.Model()), old(store.Model()), userId, reqs, now, backendUrl, replies, failure)
  {
    var db0 := store.Model();
    var out: seq<ListedRequest> := [];
    var i := 0;
    assert reqs[0..] == reqs && replies[0..] == replies;
    ghost var whole := AnnotateAll(db0, db0, userId, reqs, now, backendUrl, replies, failure);
    assert whole.result.Ok? ==> [] + whole.result.value == whole.result.value;
    while i < |reqs|
      invariant 0 <= i <= |reqs|
      invariant Valid(store.Model())
      invariant Continue(out, AnnotateAll(db0, store.Model(), userId, reqs[i..], now, backendUrl, replies[i..], failure))
             == whole
    {
      LoopTurn(db0, store.Model(), userId, reqs, now, backendUrl, replies, failure, i, out, whole);
      ghost var step := AnnotateOne(db0, store.Model(), userId, reqs[i], now, backendUrl, replies[i], failure);
      var one := AnnotateOneService(store, db0, userId, reqs[i], now, backendUrl, replies[i], failure);
      assert one == step.result && store.Model() == step.db;
      if one.Err? {
        return Err(one.error);
      }
      out := out + [one.value];
      i := i + 1;
    }
    assert reqs[i..] == [];
    assert out + [] == out;
    r := Ok(out);
  }

  /** The student's own requests, newest first, one page. */
  function UserWindow(db: Db, userId: int, page: int, limit: int): (r: seq<ClassRequest>)
    requires Valid(db) && page >= 1 && limit >= 1
    ensures |r| <= limit
    ensures forall i :: 0 <= i < |r| ==> r[i].userId == userId && r[i].id in db.requests && db.requests[r[i].id] == r[i]
    ensures forall i, j :: 0 <= i < j < |r| ==> r[i].id > r[j].id
    ensures r == Window(RequestsNewestFirst(db, ByStudent(userId)), page, limit)
  {
    var keep := ByStudent(userId);
    WindowOfNewestFirstRows(db, keep, page, limit);
    WindowOfNewestFirstOrder(db, keep, page, limit);
    Window(RequestsNewestFirst(db, keep), page, limit)
  }

  /** A student's requests on one offer, in insertion order. */
  function UserRequestsInOffer(db: Db, userId: int, classOfferId: int): (r: seq<ClassRequest>)
    requires Valid(db)
    ensures forall q :: q in r <==> q in db.requests.Values && q.userId == userId && q.classOfferId == classOfferId
    ensures forall i, j :: 0 <= i < j < |r| ==> r[i].id < r[j].id
  {
    var keep := (q: ClassRequest) => q.userId == userId && q.classOfferId == classOfferId;
    var all := OldestFirst(db.requests, db.nextRequestId, keep);
    var ids := IdsAsc(db.requests, db.nextRequestId, keep);
    assert forall k :: 0 <= k < |all| ==> ids[k] in ids && all[k].id == ids[k];
    forall q | q in db.requests.Values && keep(q) ensures q in all {
      var id :| id in db.requests && db.requests[id] == q;
      assert id in ids;
      var k :| 0 <= k < |ids| && ids[k] == id;
      assert all[k] == q;
    }
    all
  }

  /** The student's requests page, each with its payment preference attached. */
  function GetUserClassRequests(
    db: Db, userId: int, page: int, limit: int, now: int, backendUrl: string,
    replies: seq<ListingReplies>): (s: Step<seq<ListedRequest>>)
    requires Valid(db) && page >= 1 && limit >= 1 && |replies| == |UserWindow(db, userId, page, limit)|
    ensures Valid(s.db) && OnlyPaymentsChanged(db, s.db)
    ensures s.result.Ok? ==> |s.result.value| <= limit
    ensures s.result.Ok? ==> forall i :: 0 <= i < |s.result.value| ==>
      s.result.value[i].request.userId == userId &&
      (s.result.value[i].preference.Some? <==> s.result.value[i].request.state == PaymentPending)
    ensures s.result.Ok? ==> var page := UserWindow(db, userId, page, limit);
      |s.result.value| == |page| && forall i :: 0 <= i < |page| ==>
        s.result.value[i].request == page[i] && AttachedAsDecided(db, page[i], replies[i], s.result.value[i].preference)
    ensures s.result.Err? ==> var page := UserWindow(db, userId, page, limit);
      SomeFails(db, page, replies, HttpError(500, "Error al obtener las reservas del usuario"), s.result.error)
  {
    AnnotateAll(db, db, userId, UserWindow(db, userId, page, limit), now, backendUrl, replies,
                HttpError(500, "Error al obtener las reservas del usuario"))
  }

  method GetUserClassRequestService(
    store: Database, userId: int, page: int, limit: int, now: int, backendUrl: string,
    replies: seq<ListingReplies>) returns (r: Result<seq<ListedRequest>>)
    requires Valid(store.Model()) && page >= 1 && limit >= 1
    requires |replies| == |UserWindow(store.Model(), userId, page, limit)|
    modifies store
    ensures Step(r, store.Model()) ==
      GetUserClassRequests(old(store.Model()), userId, page, limit, now, backendUrl, replies)
  {
    var reqs := UserWindow(store.Model(), userId, page, limit);
    r := AnnotateLoop(store, userId, reqs, now, backendUrl, replies, HttpError(500, "Error al obtener las reservas del usuario"));
  }

  /** The student's requests on one offer, each with its payment preference attached. */
  function GetUserReqInClassOffer(
    db: Db, userId: int, classOfferId: int, now: int, backendUrl: string,
    replies: seq<ListingReplies>): (s: Step<seq<ListedRequest>>)
    requires Valid(db) && |replies| == |UserRequestsInOffer(db, userId, classOfferId)|
    ensures Valid(s.db) && OnlyPaymentsChanged(db, s.db)
    ensures s.result.Ok? ==> forall i :: 0 <= i < |s.result.value| ==>
      s.result.value[i].request.userId == userId && s.result.value[i].request.classOfferId == classOfferId &&
      (s.result.value[i].preference.Some? <==> s.result.value[i].request.state == PaymentPending)
    ensures s.result.Ok? ==> var reqs := UserRequestsInOffer(db, userId, classOfferId);
      |s.result.value| == |reqs| && forall i :: 0 <= i < |reqs| ==>
        s.result.value[i].request == reqs[i] && AttachedAsDecided(db, reqs[i], replies[i], s.result.value[i].preference)
    ensures s.result.Err? ==>
      SomeFails(db, UserRequestsInOffer(db, userId, classOfferId), replies, HttpError(500, MsgInternal), s.result.error)
  {
    var reqs := UserRequestsInOffer(db, userId, classOfferId);
    var s := AnnotateAll(db, db, userId, reqs, now, backendUrl, replies, HttpError(500, MsgInternal));
    assert s.result.Ok? ==> forall i :: 0 <= i < |s.result.value| ==> s.result.value[i].request == reqs[i] && reqs[i] in reqs;
    s
  }

  method GetUserReqInClassOfferService(
    store: Database, userId: int, classOfferId: int, now: int, backendUrl: string,
    replies: seq<ListingReplies>) returns (r: Result<seq<ListedRequest>>)
    requires Valid(store.Model()) && |replies| == |UserRequestsInOffer(store.Model(), userId, classOfferId)|
    modifies store
    ensures Step(r, store.Model()) ==
      GetUserReqInClassOffer(old(store.Model()), userId, classOfferId, now, backendUrl, replies)
  {
    var reqs := UserRequestsInOffer(store.Model(), userId, classOfferId);
    r := AnnotateLoop(store, userId, reqs, now, backendUrl, replies, HttpError(500, MsgInternal));
  }
}
