/**
 * The HTTP layer in front of the class-request services: the create-body
 * check, the update-state checks, the class-id check of the per-class
 * listing and the page normalisation of every listing. Request bodies and
 * parameters arrive as JavaScript values or raw text.
 */
module ClassRequestController {
  import opened Common
  import opened Js
  import opened Paging
  import opened Tables
  import opened ClassRequests

  // ----------------------------------------------------------------- create

  /** A booking body as posted: `classOfferId` is whatever the client sent. */
  datatype RawCreateBody = RawCreateBody(classOfferId: JsValue, day: JsValue, slot: JsValue)

  const MsgOfferIdRequired := "El campo 'classOfferId' es obligatorio"
  const MsgReservationCreated := "Reserva creada exitosamente"

  /** A missing or falsy offer id (0 included) is refused before the service runs. */
  function ValidateCreateBody(body: RawCreateBody): (o: Outcome)
    ensures o.Pass? <==> Truthy(body.classOfferId)
    ensures o.Fail? ==> o.error == HttpError(400, MsgOfferIdRequired)
  {
    if !Truthy(body.classOfferId) then Fail(HttpError(400, MsgOfferIdRequired)) else Pass
  }

  /** The answer to a successful booking: 201, a message and the new reservation. */
  datatype Reservation = Reservation(status: int, message: string, reservation: ClassRequest)

  /**
   * The create endpoint. The service's HttpErrors are not caught here and
   * reach the client with their own status; an offer id that is truthy but
   * not an integer makes the service's first query throw, which the service
   * reports as its own 500.
   */
  function CreateReservation(db: Db, userId: int, body: RawCreateBody): (s: Step<Reservation>)
    requires Valid(db)
    ensures Valid(s.db)
    ensures s.result.Err? ==> s.db == db
    ensures !Truthy(body.classOfferId) ==> s.result == Err(HttpError(400, MsgOfferIdRequired))
    ensures Truthy(body.classOfferId) && !IsInteger(body.classOfferId) ==>
      s.result == Err(HttpError(500, MsgReservationFailed))
    ensures IsInteger(body.classOfferId) && Truthy(body.classOfferId) ==>
      var svc := CreateFromRawBody(db, userId, body.classOfferId.x.Floor, body.day, body.slot);
      s.db == svc.db &&
      (svc.result.Err? ==> s.result == Err(svc.result.error)) &&
      (svc.result.Ok? ==> s.result == Ok(Reservation(201, MsgReservationCreated, svc.result.value)))
    ensures s.result.Ok? ==> s.result.value.status == 201 && s.result.value.message == MsgReservationCreated
  {
    var check := ValidateCreateBody(body);
    if check.Fail? then Step(Err(check.error), db)
    else if !IsInteger(body.classOfferId) then Step(Err(HttpError(500, MsgReservationFailed)), db)
    else
      var svc := CreateFromRawBody(db, userId, body.classOfferId.x.Floor, body.day, body.slot);
      if svc.result.Err? then Step(Err(svc.result.error), svc.db)
      else Step(Ok(Reservation(201, MsgReservationCreated, svc.result.value)), svc.db)
  }

  /** Posting the same booking twice: the first answers 201, the second 409 and nothing more is stored. */
  lemma RepeatedReservationConflicts(db: Db, userId: int, body: RawCreateBody)
    requires Valid(db)
    requires CreateReservation(db, userId, body).result.Ok?
    ensures var db1 := CreateReservation(db, userId, body).db;
      var again := CreateReservation(db1, userId, body);
      StatusOf(again.result) == 409 && again.db == db1
  {
    var b := CreateBody(body.classOfferId.x.Floor, body.day.x.Floor, body.slot.x.Floor);
    SecondBookingConflicts(db, userId, b);
  }

  // ----------------------------------------------------------- update state

  /** The update-state body as posted. */
  datatype RawStateBody = RawStateBody(classRequestId: JsValue, state: JsValue)

  const MsgBadRequestId := "El ID de la solicitud debe ser un número válido"
  const MsgStateRequired := "El campo 'state' es obligatorio"
  const MsgStateUpdated := "Estado de la solicitud actualizado exitosamente"

  /** The answer to a successful state update. */
  datatype StateUpdated = StateUpdated(message: string, updatedRequest: ClassRequest)

  /** The label the database receives; a value that is not a string matches no state. */
  function StateLabel(v: JsValue): (name: string)
    ensures v.Str? ==> name == v.s
    ensures !v.Str? ==> ParseState(name).None?
  {
    if v.Str? then v.s else ""
  }

  /** `Number(x)` is a whole number. */
  predicate WholeNumber(n: Option<real>)
  {
    n.Some? && n.value == n.value.Floor as real
  }

  /**
   * The update-state endpoint: the id must convert to a number (400), the
   * state must be present (400); then the service decides. An id that is a
   * number but not a whole one fails inside the service's first query, which
   * the service reports as its own 500.
   */
  function UpdateClassRequestStateController(db: Db, tutorId: int, body: RawStateBody): (s: Step<StateUpdated>)
    requires Valid(db)
    ensures Valid(s.db)
    ensures s.result.Err? ==> s.db == db
    ensures IsNaN(body.classRequestId) ==> s.result == Err(HttpError(400, MsgBadRequestId))
    ensures !IsNaN(body.classRequestId) && !Truthy(body.state) ==> s.result == Err(HttpError(400, MsgStateRequired))
    ensures !IsNaN(body.classRequestId) && Truthy(body.state) && !WholeNumber(ToNumber(body.classRequestId)) ==>
      s.result == Err(HttpError(500, MsgUpdateStateFailed))
    ensures Truthy(body.state) && WholeNumber(ToNumber(body.classRequestId)) ==>
      var svc := UpdateClassRequestState(db, tutorId, ToNumber(body.classRequestId).value.Floor, StateLabel(body.state));
      s.db == svc.db &&
      (svc.result.Err? ==> s.result == Err(svc.result.error)) &&
      (svc.result.Ok? ==> s.result == Ok(StateUpdated(MsgStateUpdated, svc.result.value)))
  {
    var id := ToNumber(body.classRequestId);
    if id.None? then Step(Err(HttpError(400, MsgBadRequestId)), db)
    else if !Truthy(body.state) then Step(Err(HttpError(400, MsgStateRequired)), db)
    else if !WholeNumber(id) then Step(Err(HttpError(500, MsgUpdateStateFailed)), db)
    else
      var svc := UpdateClassRequestState(db, tutorId, id.value.Floor, StateLabel(body.state));
      if svc.result.Err? then Step(Err(svc.result.error), svc.db)
      else Step(Ok(StateUpdated(MsgStateUpdated, svc.result.value)), svc.db)
  }

  /** Only a state label the database knows can be written; anything else leaves the tables as they were. */
  lemma UnknownStateChangesNothing(db: Db, tutorId: int, body: RawStateBody)
    requires Valid(db)
    requires !body.state.Str? || ParseState(body.state.s).None?
    ensures UpdateClassRequestStateController(db, tutorId, body).result.Err?
    ensures UpdateClassRequestStateController(db, tutorId, body).db == db
  {
  }

  // --------------------------------------------------------------- listings

  const MsgBadClassId := "El ID de la clase debe ser un número"
  const MsgByClassFailed := "Error al obtener las reservas de la clase"

  /**
   * The per-class listing: a class id that is not a number is refused (400)
   * before any lookup; a number that is not whole fails inside the service's
   * query (500).
   */
  function ClassRequestsByClassController(
    db: Db, tutorId: int, rawClassOfferId: string, rawPage: Option<string>, rawLimit: Option<string>)
    : (r: Result<Listing<ClassRequest>>)
    requires Valid(db)
    ensures NumberOfString(rawClassOfferId).None? ==> r == Err(HttpError(400, MsgBadClassId))
    ensures NumberOfString(rawClassOfferId).Some? && !WholeNumber(NumberOfString(rawClassOfferId)) ==>
      r == Err(HttpError(500, MsgByClassFailed))
    ensures WholeNumber(NumberOfString(rawClassOfferId)) ==>
      var p := PageRequestOf(rawPage, rawLimit);
      var svc := ClassRequestsByClass(db, tutorId, NumberOfString(rawClassOfferId).value.Floor, p.page, p.limit);
      (svc.Err? ==> r == Err(svc.error)) && (svc.Ok? ==> r == Ok(Listing(svc.value, p.page, p.limit)))
    ensures r.Ok? ==> r.value.page >= 1 && r.value.limit >= 1 && |r.value.data| <= r.value.limit
  {
    var id := NumberOfString(rawClassOfferId);
    if id.None? then Err(HttpError(400, MsgBadClassId))
    else
      var p := PageRequestOf(rawPage, rawLimit);
      if !WholeNumber(id) then Err(HttpError(500, MsgByClassFailed))
      else
        var svc := ClassRequestsByClass(db, tutorId, id.value.Floor, p.page, p.limit);
        if svc.Err? then Err(svc.error) else Ok(Listing(svc.value, p.page, p.limit))
  }
  /** Class id `"1.5"` passes the NaN check and then fails in the query with 500. */
  lemma FractionalClassIdFails(db: Db, tutorId: int, rawPage: Option<string>, rawLimit: Option<string>)
    requires Valid(db)
    ensures ClassRequestsByClassController(db, tutorId, "1.5", rawPage, rawLimit) == Err(HttpError(500, MsgByClassFailed))
  {
    NumberOfFraction();
  }


  /** The teacher's incoming requests, one normalised page. */
  function TutorClassRequestsController(db: Db, tutorId: int, rawPage: Option<string>, rawLimit: Option<string>)
    : (r: Listing<ClassRequest>)
    requires Valid(db)
    ensures r.page >= 1 && r.limit >= 1 && |r.data| <= r.limit
    ensures forall i :: 0 <= i < |r.data| ==> OnTutorsLiveOffer(db, tutorId, r.data[i])
    ensures PageRequest(r.page, r.limit) == PageRequestOf(rawPage, rawLimit)
    ensures r.data == TutorClassRequests(db, tutorId, r.page, r.limit)
  {
    var p := PageRequestOf(rawPage, rawLimit);
    Listing(TutorClassRequests(db, tutorId, p.page, p.limit), p.page, p.limit)
  }
}
