/**
 * The HTTP layer of reviews: the teacher and review ids come from the path
 * through `parseInt`, the rating must be present, numeric and between 1 and
 * 5 (integrality is left to the database), and only truthy fields are passed
 * on to the service.
 */
module ReviewsController {
  import opened Common
  import opened Text
  import opened Js
  import opened Paging
  import opened Tables
  import opened Reviews

  const MsgBadTeacherId := "Id del tutor no fue proporcionado correctamente."
  const MsgBadReviewId := "Id de la review no fue proporcionada correctamente."
  const MsgRatingRequired := "Se debe ingresar una puntuación"
  const MsgRatingNotNumber := "La puntuación debe ser un número"
  const MsgRatingRange := "La puntuación debe estar entre 1 y 5"
  const MsgNothingToUpdate := "No se proporcionaron datos para actualizar la review."
  const MsgCreated := "Review creada con éxito"
  const MsgListed := "Operación exitosa"
  const MsgEdited := "Review editada con éxito."
  const MsgDeleted := "Review eliminada con éxito."
  const MsgMine := "Reviews del usuario obtenidas con éxito."

  /** A review body as posted. */
  datatype RawReviewBody = RawReviewBody(rating: JsValue, content: JsValue)

  /** The answer of the endpoints: a message and what the service returned. */
  datatype Answer<T> = Answer(message: string, value: T)

  /** `parseInt` of a path parameter that must be truthy: NaN and 0 are refused. */
  function PathId(raw: string): (id: Option<int>)
    ensures id.Some? <==> ParseIntAuto(raw).Some? && ParseIntAuto(raw).value != 0
    ensures id.Some? ==> id.value == ParseIntAuto(raw).value
  {
    var n := ParseIntAuto(raw);
    if n.None? || n.value == 0 then None else n
  }

  /** A rating that converts to a number from 1 to 5 (a fractional one included). */
  predicate RatingInRange(v: JsValue)
  {
    ToNumber(v).Some? && 1.0 <= ToNumber(v).value <= 5.0
  }

  /** The rating checks shared by create and update. */
  function CheckRating(v: JsValue): (o: Outcome)
    ensures o.Pass? <==> RatingInRange(v)
    ensures o.Fail? ==> o.error.status == 400
    ensures !Truthy(v) ==> o == Fail(HttpError(400, MsgRatingRequired))
  {
    if !Truthy(v) then Fail(HttpError(400, MsgRatingRequired))
    else if IsNaN(v) then Fail(HttpError(400, MsgRatingNotNumber))
    else if ToNumber(v).value > 5.0 || ToNumber(v).value < 1.0 then Fail(HttpError(400, MsgRatingRange))
    else Pass
  }

  /** Every value that converts to a number from 1 to 5 is truthy, so the presence check refuses nothing the range check admits. */
  lemma InRangeIsTruthy(v: JsValue)
    requires RatingInRange(v)
    ensures Truthy(v)
  {
    if v.Str? {
      TrimEmptyIffAllSpace(v.s);
    }
  }

  /** Only a truthy field is passed on. */
  function TruthyField(v: JsValue): (f: Option<JsValue>)
    ensures f.Some? <==> Truthy(v)
    ensures f.Some? ==> f.value == v
  {
    if Truthy(v) then Some(v) else None
  }

  // ---------------------------------------------------------------- create

  /** The create endpoint: teacher id, then rating, then the service with the sanitised body. */
  function CreateReviewController(db: Db, rawTeacherId: string, userId: int, body: RawReviewBody): (s: Step<Answer<Review>>)
    requires Valid(db)
    ensures Valid(s.db)
    ensures s.result.Err? ==> s.db == db
    ensures PathId(rawTeacherId).None? ==> s.result == Err(HttpError(400, MsgBadTeacherId))
    ensures PathId(rawTeacherId).Some? && !RatingInRange(body.rating) ==>
      s.result.Err? && s.result.error.status == 400
    ensures PathId(rawTeacherId).Some? && RatingInRange(body.rating) ==>
      var svc := CreateReview(db, ReviewBody(body.rating, TruthyField(body.content)), PathId(rawTeacherId).value, userId);
      s.db == svc.db && (svc.result.Err? ==> s.result == Err(svc.result.error))
      && (svc.result.Ok? ==> s.result == Ok(Answer(MsgCreated, svc.result.value)))
  {
    var teacherId := PathId(rawTeacherId);
    if teacherId.None? then Step(Err(HttpError(400, MsgBadTeacherId)), db)
    else
      var check := CheckRating(body.rating);
      if check.Fail? then Step(Err(check.error), db)
      else
        var svc := CreateReview(db, ReviewBody(body.rating, TruthyField(body.content)), teacherId.value, userId);
        if svc.result.Err? then Step(Err(svc.result.error), svc.db)
        else Step(Ok(Answer(MsgCreated, svc.result.value)), svc.db)
  }

  /** A created review carries the posted rating, and the posted content exactly when that content was non-empty text. */
  lemma CreatedReviewKeepsBody(db: Db, rawTeacherId: string, userId: int, body: RawReviewBody)
    requires Valid(db)
    requires CreateReviewController(db, rawTeacherId, userId, body).result.Ok?
    ensures var r := CreateReviewController(db, rawTeacherId, userId, body).result.value.value;
      && body.rating.Num? && r.rating as real == body.rating.x && 1 <= r.rating <= 5
      && r.reviewerId == userId && r.teacherId == ParseIntAuto(rawTeacherId).value
      && (r.content.Some? <==> body.content.Str? && body.content.s != [])
      && (r.content.Some? ==> r.content.value == body.content.s)
  {
  }

  // ---------------------------------------------------------------- update

  /** The edit the update endpoint builds: the truthy fields only. */
  function SanitizedEdit(body: RawReviewBody): (e: ReviewEdit)
    ensures e.rating.Some? <==> Truthy(body.rating)
    ensures e.content.Some? <==> Truthy(body.content)
  {
    ReviewEdit(TruthyField(body.rating), TruthyField(body.content))
  }

  /** The update checks: review id, something to change, then a present rating's range. */
  function ValidateUpdate(rawReviewId: string, body: RawReviewBody): (o: Outcome)
    ensures o.Pass? <==>
      PathId(rawReviewId).Some? && (Truthy(body.rating) || Truthy(body.content))
      && (Truthy(body.rating) ==> RatingInRange(body.rating))
    ensures PathId(rawReviewId).None? ==> o == Fail(HttpError(400, MsgBadReviewId))
    ensures PathId(rawReviewId).Some? && !Truthy(body.rating) && !Truthy(body.content) ==>
      o == Fail(HttpError(400, MsgNothingToUpdate))
    ensures o.Fail? ==> o.error.status == 400
  {
    if PathId(rawReviewId).None? then Fail(HttpError(400, MsgBadReviewId))
    else if !Truthy(body.content) && !Truthy(body.rating) then Fail(HttpError(400, MsgNothingToUpdate))
    else if Truthy(body.rating) && IsNaN(body.rating) then Fail(HttpError(400, MsgRatingNotNumber))
    else if Truthy(body.rating) && (ToNumber(body.rating).value > 5.0 || ToNumber(body.rating).value < 1.0) then
      Fail(HttpError(400, MsgRatingRange))
    else Pass
  }

  /** The update endpoint. */
  function UpdateReviewController(db: Db, rawReviewId: string, userId: int, body: RawReviewBody): (s: Step<Answer<Review>>)
    requires Valid(db)
    ensures Valid(s.db)
    ensures s.result.Err? ==> s.db == db
    ensures ValidateUpdate(rawReviewId, body).Fail? ==> s.result == Err(ValidateUpdate(rawReviewId, body).error)
    ensures ValidateUpdate(rawReviewId, body).Pass? ==>
      var svc := UpdateReview(db, PathId(rawReviewId).value, userId, SanitizedEdit(body));
      s.db == svc.db && (svc.result.Err? ==> s.result == Err(svc.result.error))
      && (svc.result.Ok? ==> s.result == Ok(Answer(MsgEdited, svc.result.value)))
  {
    var check := ValidateUpdate(rawReviewId, body);
    if check.Fail? then Step(Err(check.error), db)
    else
      var svc := UpdateReview(db, PathId(rawReviewId).value, userId, SanitizedEdit(body));
      if svc.result.Err? then Step(Err(svc.result.error), svc.db)
      else Step(Ok(Answer(MsgEdited, svc.result.value)), svc.db)
  }

  /** An update that sends only content leaves the rating as it was, and one that sends only a rating leaves the content. */
  lemma UpdateKeepsUnsentFields(db: Db, rawReviewId: string, userId: int, body: RawReviewBody)
    requires Valid(db)
    requires UpdateReviewController(db, rawReviewId, userId, body).result.Ok?
    ensures var id := PathId(rawReviewId).value;
      var r := UpdateReviewController(db, rawReviewId, userId, body).result.value.value;
      && id in db.reviews && r.id == id
      && (!Truthy(body.rating) ==> r.rating == db.reviews[id].rating)
      && (!Truthy(body.content) ==> r.content == db.reviews[id].content)
      && (Truthy(body.rating) ==> 1 <= r.rating <= 5)
  {
  }

  // ---------------------------------------------------------------- delete

  /** The delete endpoint. */
  function DeleteReviewController(db: Db, rawReviewId: string, userId: int): (s: Step<string>)
    requires Valid(db)
    ensures Valid(s.db)
    ensures s.result.Err? ==> s.db == db
    ensures PathId(rawReviewId).None? ==> s.result == Err(HttpError(400, MsgBadReviewId))
    ensures PathId(rawReviewId).Some? ==>
      var svc := DeleteReview(db, PathId(rawReviewId).value, userId);
      s.db == svc.db && (svc.result.Err? ==> s.result == Err(svc.result.error))
      && (svc.result.Ok? ==> s.result == Ok(MsgDeleted))
  {
    var id := PathId(rawReviewId);
    if id.None? then Step(Err(HttpError(400, MsgBadReviewId)), db)
    else
      var svc := DeleteReview(db, id.value, userId);
      if svc.result.Err? then Step(Err(svc.result.error), svc.db)
      else Step(Ok(MsgDeleted), svc.db)
  }

  // -------------------------------------------------------------- listings

  /** The teacher-reviews endpoint: a falsy teacher id is refused; the page is normalised. */
  function TeacherReviewsController(
    db: Db, rawTeacherId: string, rawPage: Option<string>, rawLimit: Option<string>)
    : (r: Result<Answer<seq<Review>>>)
    requires Valid(db)
    ensures PathId(rawTeacherId).None? ==> r == Err(HttpError(400, MsgBadTeacherId))
    ensures PathId(rawTeacherId).Some? ==>
      var p := PageRequestOf(rawPage, rawLimit);
      var svc := TeacherReviewsPage(db, PathId(rawTeacherId).value, p.page, p.limit);
      (svc.Err? ==> r == Err(svc.error)) && (svc.Ok? ==> r == Ok(Answer(MsgListed, svc.value)))
    ensures r.Ok? ==> |r.value.value| <= PageRequestOf(rawPage, rawLimit).limit
  {
    var teacherId := PathId(rawTeacherId);
    if teacherId.None? then Err(HttpError(400, MsgBadTeacherId))
    else
      var p := PageRequestOf(rawPage, rawLimit);
      var svc := TeacherReviewsPage(db, teacherId.value, p.page, p.limit);
      if svc.Err? then Err(svc.error) else Ok(Answer(MsgListed, svc.value))
  }

  /** The current-user endpoint: the page parameters are read but the service lists every review of the user. */
  function CurrentUserReviewsController(db: Db, userId: int, rawPage: Option<string>, rawLimit: Option<string>)
    : (r: Answer<seq<Review>>)
    requires Valid(db)
    ensures r.message == MsgMine
    ensures forall id :: id in db.reviews && db.reviews[id].reviewerId == userId ==> db.reviews[id] in r.value
    ensures forall i :: 0 <= i < |r.value| ==> r.value[i].reviewerId == userId
  {
    Answer(MsgMine, CurrentUserReviews(db, userId))
  }
}
