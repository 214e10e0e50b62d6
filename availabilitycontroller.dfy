/**
 * The HTTP layer of availability: each posted cell must carry an integer
 * slot and day in range, the body must be an array of at most 100 cells,
 * the teacher id of a listing must parse, and the ids of a delete must all
 * parse as integers.
 */
module AvailabilityController {
  import opened Common
  import opened Text
  import opened Js
  import opened Tables
  import opened Availabilities

  /** One posted cell; an element that is not an object has neither field. */
  datatype RawCell = RawCell(day: JsValue, slot: JsValue)

  /** A posted body: an array of cells or anything else. */
  datatype RawAvailabilityBody = NotAnArray | Cells(cells: seq<RawCell>)

  const MaxUploadSize := 100

  const MsgSlotRequired := "slot es requerido."
  const MsgSlotNotNumber := "slot debe ser un numbero."
  const MsgSlotRange := "slot fuera de rango (0 - 24)."
  const MsgDayRequired := "day es requerido."
  const MsgDayNotInteger := "day debe ser un entero."
  const MsgDayRange := "day fuera de rango (1 - 7)."
  const MsgTooMany := "La cantidad de disponibilidades a crear excede el máximo (100)."
  const MsgNotAnArray := "La request debe ser un arreglo."
  const MsgBadTeacherId := "teacherId debe ser un numero"
  const MsgBadIds := "Las ids tienen que ser numeros enteros."
  const MsgDeleted := "Disponibilidades eliminadas con éxito."

  /** An integer number from `lo` to `hi`. */
  predicate IntegerIn(v: JsValue, lo: int, hi: int)
  {
    IsInteger(v) && lo as real <= v.x <= hi as real
  }

  /**
   * The checks on one cell, slot first. Because a zero slot is refused as
   * missing, the accepted slots are 1 to 24 although the range message says 0 - 24.
   */
  function ValidateAvailability(c: RawCell): (o: Outcome)
    ensures o.Pass? <==> IntegerIn(c.slot, 1, 24) && IntegerIn(c.day, 1, 7)
    ensures o.Fail? ==> o.error.status == 400
    ensures !IntegerIn(c.slot, 1, 24) ==> o.Fail? && o.error.message in {MsgSlotRequired, MsgSlotNotNumber, MsgSlotRange}
    ensures IntegerIn(c.slot, 1, 24) && !IntegerIn(c.day, 1, 7) ==>
      o.Fail? && o.error.message in {MsgDayRequired, MsgDayNotInteger, MsgDayRange}
    ensures c.slot == Num(0.0) ==> o == Fail(HttpError(400, MsgSlotRequired))
  {
    if !Truthy(c.slot) then Fail(HttpError(400, MsgSlotRequired))
    else if !IsInteger(c.slot) then Fail(HttpError(400, MsgSlotNotNumber))
    else if c.slot.x < 0.0 || c.slot.x > 24.0 then Fail(HttpError(400, MsgSlotRange))
    else if !Truthy(c.day) then Fail(HttpError(400, MsgDayRequired))
    else if !IsInteger(c.day) then Fail(HttpError(400, MsgDayNotInteger))
    else if c.day.x > 7.0 || c.day.x < 1.0 then Fail(HttpError(400, MsgDayRange))
    else Pass
  }

  /** Every cell passes its checks. */
  predicate AllValid(cells: seq<RawCell>)
  {
    forall k :: 0 <= k < |cells| ==> ValidateAvailability(cells[k]).Pass?
  }

  /** The `forEach` over the cells: the first failing cell's error, or `Pass`. */
  function ValidateCells(cells: seq<RawCell>): (o: Outcome)
    ensures o.Pass? <==> AllValid(cells)
    ensures o.Fail? ==> exists k :: 0 <= k < |cells| && AllValid(cells[..k]) && o == ValidateAvailability(cells[k])
    decreases |cells|
  {
    if cells == [] then Pass
    else
      var first := ValidateAvailability(cells[0]);
      if first.Fail? then
        assert AllValid(cells[..0]);
        first
      else
        var rest := ValidateCells(cells[1..]);
        if rest.Fail? then
          var k :| 0 <= k < |cells[1..]| && AllValid(cells[1..][..k]) && rest == ValidateAvailability(cells[1..][k]);
          assert cells[..k + 1] == [cells[0]] + cells[1..][..k];
          assert AllValid(cells[..k + 1]);
          rest
        else
          assert forall k :: 1 <= k < |cells| ==> cells[k] == cells[1..][k - 1];
          rest
  }

  /** The whole body: an array of at most 100 valid cells. */
  function ValidateRequestBody(body: RawAvailabilityBody): (o: Outcome)
    ensures o.Pass? <==> body.Cells? && |body.cells| <= MaxUploadSize && AllValid(body.cells)
    ensures o.Fail? ==> o.error.status == 400
    ensures body.NotAnArray? ==> o == Fail(HttpError(400, MsgNotAnArray))
    ensures body.Cells? && |body.cells| > MaxUploadSize ==> o == Fail(HttpError(400, MsgTooMany))
  {
    if body.NotAnArray? then Fail(HttpError(400, MsgNotAnArray))
    else if |body.cells| > MaxUploadSize then Fail(HttpError(400, MsgTooMany))
    else ValidateCells(body.cells)
  }

  /** `sanitizeCreateAvailabilities`: each cell owned by the caller, in the same order, other fields dropped. */
  function SanitizeCreateAvailabilities(userId: int, cells: seq<RawCell>): (r: seq<SlotPayload>)
    requires AllValid(cells)
    ensures |r| == |cells|
    ensures forall k :: 0 <= k < |cells| ==>
      r[k].userId == userId && r[k].day as real == cells[k].day.x && r[k].slot as real == cells[k].slot.x
    ensures forall k :: 0 <= k < |cells| ==> 1 <= r[k].day <= 7 && 1 <= r[k].slot <= 24
  {
    seq(|cells|, k requires 0 <= k < |cells| =>
      assert ValidateAvailability(cells[k]).Pass?;
      SlotPayload(userId, cells[k].day.x.Floor, cells[k].slot.x.Floor))
  }

  /** The answer of the create and list endpoints. */
  datatype Counted<T> = Counted(data: seq<T>, count: int)

  /** The create endpoint: validation, sanitising, then the batch insert (201 with data and count). */
  function CreateAvailabilitiesController(db: Db, userId: int, body: RawAvailabilityBody): (s: Step<Counted<SlotRecord>>)
    requires Valid(db)
    ensures Valid(s.db)
    ensures s.result.Err? ==> s.db == db
    ensures ValidateRequestBody(body).Fail? ==> s.result == Err(ValidateRequestBody(body).error)
    ensures ValidateRequestBody(body).Pass? ==>
      var svc := SaveAvailability(db, SanitizeCreateAvailabilities(userId, body.cells));
      s.db == svc.db && (svc.result.Err? ==> s.result == Err(svc.result.error))
    ensures s.result.Ok? ==>
      && s.result.value.count == |s.result.value.data| == |body.cells|
      && forall k :: 0 <= k < |body.cells| ==>
           var id := s.result.value.data[k].id;
           && id in s.db.slots && s.db.slots[id].userId == userId
           && s.db.slots[id].day as real == body.cells[k].day.x
           && s.db.slots[id].slot as real == body.cells[k].slot.x
  {
    var check := ValidateRequestBody(body);
    if check.Fail? then Step(Err(check.error), db)
    else
      var batch := SanitizeCreateAvailabilities(userId, body.cells);
      var svc := SaveAvailability(db, batch);
      if svc.result.Err? then Step(Err(svc.result.error), svc.db)
      else
        CreatedCells(db, userId, body.cells);
        Step(Ok(Counted(svc.result.value, |svc.result.value|)), svc.db)
  }

  /** Each returned record is a stored cell of the caller with the posted day and slot. */
  lemma CreatedCells(db: Db, userId: int, cells: seq<RawCell>)
    requires Valid(db) && AllValid(cells)
    requires SaveAvailability(db, SanitizeCreateAvailabilities(userId, cells)).result.Ok?
    ensures var svc := SaveAvailability(db, SanitizeCreateAvailabilities(userId, cells));
      && |svc.result.value| == |cells|
      && forall k :: 0 <= k < |cells| ==>
           var id := svc.result.value[k].id;
           && id in svc.db.slots && svc.db.slots[id].userId == userId
           && svc.db.slots[id].day as real == cells[k].day.x
           && svc.db.slots[id].slot as real == cells[k].slot.x
  {
    var batch := SanitizeCreateAvailabilities(userId, cells);
    var svc := SaveAvailability(db, batch);
    forall k | 0 <= k < |cells|
      ensures var id := svc.result.value[k].id;
        && id in svc.db.slots && svc.db.slots[id].userId == userId
        && svc.db.slots[id].day as real == cells[k].day.x
        && svc.db.slots[id].slot as real == cells[k].slot.x
    {
      assert batch[k].day as real == cells[k].day.x && batch[k].slot as real == cells[k].slot.x;
    }
  }

  /** The list endpoint: a teacher id that does not parse is refused with 400. */
  function GetAvailabilityController(db: Db, rawTeacherId: string): (r: Result<Counted<Availability>>)
    requires Valid(db)
    ensures ParseInt(rawTeacherId).None? <==> r == Err(HttpError(400, MsgBadTeacherId))
    ensures r.Ok? ==>
      && r.value.count == |r.value.data|
      && r.value.data == TeacherAvailability(db, ParseInt(rawTeacherId).value)
  {
    var teacherId := ParseInt(rawTeacherId);
    if teacherId.None? then Err(HttpError(400, MsgBadTeacherId))
    else
      var av := TeacherAvailability(db, teacherId.value);
      Ok(Counted(av, |av|))
  }

  /** The `ids` query split on commas, each piece read with `parseInt(x, 10)`. */
  function ParseIds(query: string): (ids: seq<Option<int>>)
    ensures |ids| == |Split(query, ',')| == Count(query, ',') + 1
    ensures forall k :: 0 <= k < |ids| ==> ids[k] == ParseInt(Split(query, ',')[k])
  {
    var parts := Split(query, ',');
    SplitCount(query, ',');
    seq(|parts|, k requires 0 <= k < |parts| => ParseInt(parts[k]))
  }

  /** Every id parsed. */
  predicate AllParsed(ids: seq<Option<int>>)
  {
    forall k :: 0 <= k < |ids| ==> ids[k].Some?
  }

  function Values(ids: seq<Option<int>>): (r: seq<int>)
    requires AllParsed(ids)
    ensures |r| == |ids| && forall k :: 0 <= k < |ids| ==> r[k] == ids[k].value
  {
    seq(|ids|, k requires 0 <= k < |ids| => ids[k].value)
  }

  /** The answer of the delete endpoint. */
  datatype Removed = Removed(count: int, message: string)

  /**
   * The delete endpoint. A missing `ids` query cannot be split and the
   * request fails as an unexpected error; an id that does not parse is
   * refused with 400 before anything is removed.
   */
  function DeleteAvailabilityController(db: Db, userId: int, rawIds: Option<string>): (s: Step<Removed>)
    requires Valid(db)
    ensures Valid(s.db)
    ensures s.result.Err? ==> s.db == db
    ensures rawIds.None? ==> s.result == Err(Unexpected)
    ensures rawIds.Some? && !AllParsed(ParseIds(rawIds.value)) ==> s.result == Err(HttpError(400, MsgBadIds))
    ensures rawIds.Some? && AllParsed(ParseIds(rawIds.value)) ==>
      var svc := DeleteAvailabilities(db, userId, Values(ParseIds(rawIds.value)));
      s.db == svc.db && s.result == Ok(Removed(svc.result.value, MsgDeleted))
  {
    if rawIds.None? then Step(Err(Unexpected), db)
    else
      var ids := ParseIds(rawIds.value);
      if !AllParsed(ids) then Step(Err(HttpError(400, MsgBadIds)), db)
      else
        var svc := DeleteAvailabilities(db, userId, Values(ids));
        Step(Ok(Removed(svc.result.value, MsgDeleted)), svc.db)
  }

  /** The query a client builds from a non-empty list of ids: their decimal forms joined by commas. */
  function IdsQuery(ids: seq<int>): (q: string)
    requires ids != []
  {
    Join(seq(|ids|, k requires 0 <= k < |ids| => IntToString(ids[k])), ",")
  }

  /** The decimal form of an integer has no comma. */
  lemma NoCommaInNumber(i: int)
    ensures ',' !in IntToString(i)
  {
    var s := IntToString(i);
    if i >= 0 {
      assert forall k :: 0 <= k < |s| ==> IsDigit(s[k]);
    } else {
      var t := NatToString(-i);
      assert forall k :: 0 <= k < |t| ==> IsDigit(t[k]);
      assert forall k :: 1 <= k < |s| ==> s[k] == t[k - 1];
    }
  }

  /** Parsing the query built from a list of ids gives every id back, in order. */
  lemma ParseIdsQuery(ids: seq<int>)
    requires ids != []
    ensures ParseIds(IdsQuery(ids)) == seq(|ids|, k requires 0 <= k < |ids| => Some(ids[k]))
  {
    var parts := seq(|ids|, k requires 0 <= k < |ids| => IntToString(ids[k]));
    forall k | 0 <= k < |parts| ensures ',' !in parts[k] {
      NoCommaInNumber(ids[k]);
    }
    SplitJoin(parts, ',');
    forall k | 0 <= k < |ids| ensures ParseInt(parts[k]) == Some(ids[k]) {
      ParseIntIntToString(ids[k]);
    }
  }

  /** Deleting through the endpoint with such a query is the service delete of exactly those ids. */
  lemma DeleteByQuery(db: Db, userId: int, ids: seq<int>)
    requires Valid(db) && ids != []
    ensures var svc := DeleteAvailabilities(db, userId, ids);
      DeleteAvailabilityController(db, userId, Some(IdsQuery(ids))) == Step(Ok(Removed(svc.result.value, MsgDeleted)), svc.db)
  {
    ParseIdsQuery(ids);
    var parsed := ParseIds(IdsQuery(ids));
    assert AllParsed(parsed);
    assert Values(parsed) == ids;
  }
}
