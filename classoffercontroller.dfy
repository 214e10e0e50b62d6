/**
 * The HTTP layer in front of the class-offer services: body validation for
 * create and edit, the rebuilt bodies the services receive, the listing
 * query's sanitising and the class-id checks.
 */
module ClassOfferController {
  import opened Common
  import opened Text
  import opened Js
  import opened Paging
  import opened Tables
  import opened ClassOffers

  const MsgTitleEmpty := "El titulo no puede estar vacío"
  const MsgDescriptionEmpty := "La descripción no puede estar vacía"
  const MsgPriceEmpty := "El precio no puede estar vacío"
  const MsgPriceNotNumber := "El precio debe ser un numero"
  const MsgBadCategory := "Categoría invalida"
  const MsgNothingToEdit := "La solicitud debe tener al menos un campo a editar."
  const MsgBadOfferId := "La id, de la oferta de clase, debe ser un número."
  const MsgOfferDeleted := "Oferta de clase eliminada con éxito."

  /** An offer body as posted; `authorId` is whatever the client sent and is never used. */
  datatype RawOfferBody = RawOfferBody(title: JsValue, description: JsValue, price: JsValue, category: JsValue, authorId: JsValue)

  /**
   * `!v?.trim()`: `Some(true)` when the value is absent or trims to nothing,
   * `Some(false)` for a string with content, `None` when `trim` is not a
   * function of the value (a TypeError, answered 500).
   */
  function BlankAfterTrim(v: JsValue): (r: Option<bool>)
    ensures r == Some(false) <==> v.Str? && !AllSpace(v.s)
    ensures r.None? <==> !(v.Undefined? || v.Null? || v.Str?)
  {
    TrimEmptyIffAllSpace(if v.Str? then v.s else []);
    match v
    case Undefined => Some(true)
    case Null => Some(true)
    case Str(s) => Some(Trim(s) == [])
    case _ => None
  }

  /** `categories.includes(v)`, giving the category. */
  function CategoryOf(v: JsValue): (c: Option<Category>)
    ensures c.Some? ==> v.Str? && CategoryName(c.value) == v.s
    ensures v.Str? && (exists k :: CategoryName(k) == v.s) ==> c.Some?
  {
    if v.Str? then ParseCategory(v.s) else None
  }

  /** A text field with content after trimming. */
  predicate Filled(v: JsValue)
  {
    v.Str? && !AllSpace(v.s)
  }

  /** The create checks, first failure wins: title, description, price present, price a number, known category. */
  function ValidateClassOfferBody(b: RawOfferBody): (o: Outcome)
    ensures o.Pass? <==>
      Filled(b.title) && Filled(b.description) && b.price.Num? && b.price.x != 0.0 &&
      (Truthy(b.category) ==> CategoryOf(b.category).Some?)
    ensures BlankAfterTrim(b.title) == Some(true) ==> o == Fail(HttpError(400, MsgTitleEmpty))
    ensures BlankAfterTrim(b.title).None? ==> o == Fail(Unexpected)
    ensures Filled(b.title) && BlankAfterTrim(b.description) == Some(true) ==> o == Fail(HttpError(400, MsgDescriptionEmpty))
    ensures Filled(b.title) && Filled(b.description) && !Truthy(b.price) ==> o == Fail(HttpError(400, MsgPriceEmpty))
    ensures Filled(b.title) && Filled(b.description) && Truthy(b.price) && !IsNumberType(b.price) ==>
      o == Fail(HttpError(400, MsgPriceNotNumber))
  {
    var title := BlankAfterTrim(b.title);
    var description := BlankAfterTrim(b.description);
    if title.None? then Fail(Unexpected)
    else if title.value then Fail(HttpError(400, MsgTitleEmpty))
    else if description.None? then Fail(Unexpected)
    else if description.value then Fail(HttpError(400, MsgDescriptionEmpty))
    else if !Truthy(b.price) then Fail(HttpError(400, MsgPriceEmpty))
    else if !IsNumberType(b.price) then Fail(HttpError(400, MsgPriceNotNumber))
    else if Truthy(b.category) && CategoryOf(b.category).None? then Fail(HttpError(400, MsgBadCategory))
    else Pass
  }

  /** The body the service receives: the four offer fields, the category only when given, and the session user as author. */
  function SanitizedOfferBody(b: RawOfferBody, userId: int): (body: OfferBody)
    requires ValidateClassOfferBody(b).Pass?
    ensures body.authorId == userId
    ensures body.title == b.title.s && body.description == b.description.s && body.price == b.price.x
    ensures body.category.Some? <==> Truthy(b.category)
  {
    OfferBody(b.title.s, b.description.s, b.price.x,
              if Truthy(b.category) then CategoryOf(b.category) else None, userId)
  }

  /** The create endpoint (201 on success). */
  function CreateClassOfferController(db: Db, userId: int, b: RawOfferBody): (s: Step<ClassOffer>)
    requires Valid(db)
    ensures Valid(s.db)
    ensures ValidateClassOfferBody(b).Fail? ==> s == Step(Err(ValidateClassOfferBody(b).error), db)
    ensures ValidateClassOfferBody(b).Pass? ==> s == CreateClassOffer(db, SanitizedOfferBody(b, userId))
  {
    var check := ValidateClassOfferBody(b);
    if check.Fail? then Step(Err(check.error), db)
    else CreateClassOffer(db, SanitizedOfferBody(b, userId))
  }

  /** Whatever the body says, a created offer belongs to the caller and starts live. */
  lemma CreatedOfferBelongsToCaller(db: Db, userId: int, b: RawOfferBody)
    requires Valid(db)
    requires CreateClassOfferController(db, userId, b).result.Ok?
    ensures CreateClassOfferController(db, userId, b).result.value.authorId == userId
    ensures !CreateClassOfferController(db, userId, b).result.value.isDeleted
    ensures CreateClassOfferController(db, userId, b).result.value.price != 0
  {
    var body := SanitizedOfferBody(b, userId);
    assert body.price != 0.0;
  }

  // ------------------------------------------------------------------- edit

  /**
   * The edit checks: one of title, description or price must be truthy (so a
   * category alone is refused); each field that is present is then checked
   * as in creation.
   */
  function ValidateEditBody(b: RawOfferBody): (o: Outcome)
    ensures o.Pass? <==>
      (Truthy(b.title) || Truthy(b.description) || Truthy(b.price)) &&
      (b.title.Undefined? || Filled(b.title)) &&
      (b.description.Undefined? || Filled(b.description)) &&
      (b.price.Undefined? || IsNumberType(b.price)) &&
      (b.category.Undefined? || CategoryOf(b.category).Some?)
    ensures !(Truthy(b.title) || Truthy(b.description) || Truthy(b.price)) ==> o == Fail(HttpError(400, MsgNothingToEdit))
    ensures o.Fail? ==> o.error.status in {400, 500}
  {
    if !(Truthy(b.title) || Truthy(b.description) || Truthy(b.price)) then Fail(HttpError(400, MsgNothingToEdit))
    else if !b.title.Undefined? && BlankAfterTrim(b.title).None? then Fail(Unexpected)
    else if !b.title.Undefined? && BlankAfterTrim(b.title).value then Fail(HttpError(400, MsgTitleEmpty))
    else if !b.description.Undefined? && BlankAfterTrim(b.description).None? then Fail(Unexpected)
    else if !b.description.Undefined? && BlankAfterTrim(b.description).value then Fail(HttpError(400, MsgDescriptionEmpty))
    else if !b.price.Undefined? && !IsNumberType(b.price) then Fail(HttpError(400, MsgPriceNotNumber))
    else if !b.category.Undefined? && CategoryOf(b.category).None? then Fail(HttpError(400, MsgBadCategory))
    else Pass
  }

  /** The edit the service receives: only the truthy fields. */
  function SanitizedEdit(b: RawOfferBody): (e: OfferEdit)
    requires ValidateEditBody(b).Pass?
    ensures e.title.Some? <==> Truthy(b.title)
    ensures e.description.Some? <==> Truthy(b.description)
    ensures e.price.Some? <==> Truthy(b.price)
    ensures e.category.Some? <==> Truthy(b.category)
    ensures e.title.Some? ==> e.title.value == b.title.s
    ensures e.description.Some? ==> e.description.value == b.description.s
    ensures e.price.Some? ==> e.price.value == b.price.x
  {
    OfferEdit(if Truthy(b.title) then Some(b.title.s) else None,
              if Truthy(b.description) then Some(b.description.s) else None,
              if Truthy(b.price) then Some(b.price.x) else None,
              if Truthy(b.category) then CategoryOf(b.category) else None)
  }

  /** `Number(raw)` is a whole number. */
  predicate WholeId(n: Option<real>)
  {
    n.Some? && n.value == n.value.Floor as real
  }

  /**
   * The edit endpoint: the class id must be a number (400), then the body is
   * checked; an id that is a number but not a whole one fails in the
   * service's query (500).
   */
  function EditClassOfferController(db: Db, userId: int, rawClassId: string, b: RawOfferBody): (s: Step<ClassOffer>)
    requires Valid(db)
    ensures Valid(s.db)
    ensures s.result.Err? ==> s.db == db
    ensures NumberOfString(rawClassId).None? ==> s.result == Err(HttpError(400, MsgBadOfferId))
    ensures NumberOfString(rawClassId).Some? && ValidateEditBody(b).Fail? ==> s.result == Err(ValidateEditBody(b).error)
    ensures NumberOfString(rawClassId).Some? && !WholeId(NumberOfString(rawClassId)) && ValidateEditBody(b).Pass? ==>
      s.result == Err(HttpError(500, MsgServerError))
    ensures WholeId(NumberOfString(rawClassId)) && ValidateEditBody(b).Pass? ==>
      s == EditClassOffer(db, userId, NumberOfString(rawClassId).value.Floor, SanitizedEdit(b))
  {
    var id := NumberOfString(rawClassId);
    if id.None? then Step(Err(HttpError(400, MsgBadOfferId)), db)
    else
      var check := ValidateEditBody(b);
      if check.Fail? then Step(Err(check.error), db)
      else if !WholeId(id) then Step(Err(HttpError(500, MsgServerError)), db)
      else EditClassOffer(db, userId, id.value.Floor, SanitizedEdit(b))
  }

  /** `Number("1.5")` is a number but not an id: the body is checked, then the query fails with 500. */
  lemma FractionalIdFailsEdit(db: Db, userId: int, b: RawOfferBody)
    requires Valid(db)
    ensures ValidateEditBody(b).Fail? ==> EditClassOfferController(db, userId, "1.5", b).result == Err(ValidateEditBody(b).error)
    ensures ValidateEditBody(b).Pass? ==> EditClassOfferController(db, userId, "1.5", b).result == Err(HttpError(500, MsgServerError))
  {
    NumberOfFraction();
  }

  /** An edit that names only a category is refused and changes nothing. */
  lemma CategoryOnlyEditRefused(db: Db, userId: int, rawClassId: string, b: RawOfferBody)
    requires Valid(db)
    requires NumberOfString(rawClassId).Some?
    requires b.title.Undefined? && b.description.Undefined? && b.price.Undefined?
    ensures EditClassOfferController(db, userId, rawClassId, b) == Step(Err(HttpError(400, MsgNothingToEdit)), db)
  {
  }

  /** The answer to a deletion. */
  datatype Deleted = Deleted(deleted: ClassOffer, message: string)

  /**
   * The delete endpoint: a class id that is not a number is refused before
   * the service runs; one that is not whole fails in the service's query (500).
   */
  function DeleteClassOfferController(db: Db, userId: int, rawClassId: string): (s: Step<Deleted>)
    requires Valid(db)
    ensures Valid(s.db)
    ensures s.result.Err? ==> s.db == db
    ensures NumberOfString(rawClassId).None? ==> s.result == Err(HttpError(400, MsgBadOfferId))
    ensures NumberOfString(rawClassId).Some? && !WholeId(NumberOfString(rawClassId)) ==>
      s.result == Err(HttpError(500, MsgServerError))
    ensures WholeId(NumberOfString(rawClassId)) ==>
      var svc := DestroyClassOffer(db, userId, NumberOfString(rawClassId).value.Floor);
      s.db == svc.db &&
      (svc.result.Err? ==> s.result == Err(svc.result.error)) &&
      (svc.result.Ok? ==> s.result == Ok(Deleted(svc.result.value, MsgOfferDeleted)))
  {
    var id := NumberOfString(rawClassId);
    if id.None? then Step(Err(HttpError(400, MsgBadOfferId)), db)
    else if !WholeId(id) then Step(Err(HttpError(500, MsgServerError)), db)
    else
      var svc := DestroyClassOffer(db, userId, id.value.Floor);
      if svc.result.Err? then Step(Err(svc.result.error), svc.db)
      else Step(Ok(Deleted(svc.result.value, MsgOfferDeleted)), svc.db)
  }
  /** Deleting with class id `"1.5"` fails with 500 and changes nothing. */
  lemma FractionalIdFailsDelete(db: Db, userId: int)
    requires Valid(db)
    ensures DeleteClassOfferController(db, userId, "1.5") == Step(Err(HttpError(500, MsgServerError)), db)
  {
    NumberOfFraction();
  }


  // ---------------------------------------------------------------- listing

  /** The listing's query parameters as received: strings, arrays (`Object`) or absent. */
  datatype RawOfferQuery = RawOfferQuery(title: JsValue, category: JsValue, price: JsValue, minPrice: JsValue, maxPrice: JsValue)

  /** A price parameter is kept only when it is a string `parseInt` reads. */
  function QueryNumber(v: JsValue): (n: Option<int>)
    ensures n.Some? <==> v.Str? && ParseIntAuto(v.s).Some?
    ensures n.Some? ==> n == ParseIntAuto(v.s)
  {
    if v.Str? then ParseIntAuto(v.s) else None
  }

  /** The sanitised query: a string title, readable prices and a known category; anything else is dropped silently. */
  function SanitizeQuery(raw: RawOfferQuery): (q: OfferQuery)
    ensures q.title.Some? <==> raw.title.Str?
    ensures q.title.Some? ==> q.title.value == raw.title.s
    ensures q.category == CategoryOf(raw.category)
    ensures q.price == QueryNumber(raw.price) && q.minPrice == QueryNumber(raw.minPrice) && q.maxPrice == QueryNumber(raw.maxPrice)
  {
    OfferQuery(if raw.title.Str? then Some(raw.title.s) else None, CategoryOf(raw.category),
               QueryNumber(raw.price), QueryNumber(raw.minPrice), QueryNumber(raw.maxPrice))
  }

  /** The public listing endpoint. */
  function GetClassOffersController(db: Db, rawPage: Option<string>, rawLimit: Option<string>, raw: RawOfferQuery)
    : (r: Listing<OfferCard>)
    requires Valid(db)
    ensures r.page >= 1 && r.limit >= 1 && |r.data| <= r.limit
    ensures forall i :: 0 <= i < |r.data| ==> Selects(FilterOf(SanitizeQuery(raw)), r.data[i].offer)
    ensures PageRequest(r.page, r.limit) == PageRequestOf(rawPage, rawLimit)
    ensures r.data == ClassOffersPage(db, r.page, r.limit, SanitizeQuery(raw))
  {
    var p := PageRequestOf(rawPage, rawLimit);
    Listing(ClassOffersPage(db, p.page, p.limit, SanitizeQuery(raw)), p.page, p.limit)
  }

  /** An unknown category does not narrow the listing: it is the listing without one. */
  lemma UnknownCategoryIgnored(db: Db, rawPage: Option<string>, rawLimit: Option<string>, raw: RawOfferQuery)
    requires Valid(db)
    requires CategoryOf(raw.category).None?
    ensures GetClassOffersController(db, rawPage, rawLimit, raw) ==
            GetClassOffersController(db, rawPage, rawLimit, raw.(category := Undefined))
  {
    assert SanitizeQuery(raw) == SanitizeQuery(raw.(category := Undefined));
  }
}
