/**
 * The availability service: a teacher's weekly (day, slot) cells. A batch
 * is inserted all at once or not at all, guarded by the unique constraint on
 * (userId, slot, day); a listing returns one teacher's cells; a delete
 * removes the listed cells that belong to the caller and reports how many.
 */
module Availabilities {
  import opened Common
  import opened Tables

  /** One cell to insert, owned by `userId`. */
  datatype SlotPayload = SlotPayload(userId: int, day: int, slot: int)

  /** What the insert returns per cell. */
  datatype SlotRecord = SlotRecord(id: int, day: int, slot: int)

  const MsgSlotTaken := "Uno de los slots ya está asignado"
  const MsgSystemError := "Error interno del sistema"

  /** A stored cell with the same owner, day and slot as `p`. */
  predicate SameCell(a: Availability, p: SlotPayload)
  {
    a.userId == p.userId && a.day == p.day && a.slot == p.slot
  }

  /** Some cell of the batch is already stored, or appears twice in the batch. */
  predicate Conflicts(slots: map<int, Availability>, batch: seq<SlotPayload>)
  {
    || (exists k, id :: 0 <= k < |batch| && id in slots && SameCell(slots[id], batch[k]))
    || (exists j, k :: 0 <= j < k < |batch| && batch[j] == batch[k])
  }

  /** Every cell is owned by a stored user (the foreign key). */
  predicate OwnersExist(users: map<int, User>, batch: seq<SlotPayload>)
  {
    forall k :: 0 <= k < |batch| ==> batch[k].userId in users
  }

  /** The ids from `lo` below `lo + n`. */
  function IdRange(lo: int, n: nat): (r: set<int>)
    ensures forall id :: id in r <==> lo <= id < lo + n
    ensures |r| == n
  {
    if n == 0 then {}
    else
      var r := IdRange(lo, n - 1);
      assert lo + n - 1 !in r;
      r + {lo + n - 1}
  }

  /** The row the cell of the batch numbered `id` becomes. */
  function Row(batch: seq<SlotPayload>, next: int, id: int): Availability
    requires next <= id < next + |batch|
  {
    Availability(id, batch[id - next].userId, batch[id - next].day, batch[id - next].slot)
  }

  /** The rows the batch becomes, numbered from `next` in batch order. */
  function Inserted(batch: seq<SlotPayload>, next: int): (m: map<int, Availability>)
    ensures forall id :: id in m <==> next <= id < next + |batch|
    ensures forall id :: id in m ==> m[id] == Row(batch, next, id)
    ensures |m| == |batch|
  {
    var ids := IdRange(next, |batch|);
    var m := map id | id in ids :: Row(batch, next, id);
    assert m.Keys == ids;
    m
  }

  /**
   * `saveAvailabilityService`: the batch is inserted with consecutive fresh
   * ids and returned as (id, day, slot) in input order. A duplicate cell, in
   * the table or within the batch, fails the whole insert with 400; a cell
   * whose owner is not a user fails it with 500.
   */
  function SaveAvailability(db: Db, batch: seq<SlotPayload>): (s: Step<seq<SlotRecord>>)
    requires Valid(db)
    ensures Valid(s.db)
    ensures s.result.Err? ==> s.db == db
    ensures s.result.Ok? <==> OwnersExist(db.users, batch) && !Conflicts(db.slots, batch)
    ensures OwnersExist(db.users, batch) && Conflicts(db.slots, batch) ==>
      s.result == Err(HttpError(400, MsgSlotTaken))
    ensures !OwnersExist(db.users, batch) ==> s.result == Err(HttpError(500, MsgSystemError))
    ensures s.result.Ok? ==>
      && AddedExactly(db.slots, s.db.slots, batch, s.result.value)
      && s.db == db.(slots := s.db.slots, nextSlotId := s.db.nextSlotId)
  {
    if !OwnersExist(db.users, batch) then Step(Err(HttpError(500, MsgSystemError)), db)
    else if Conflicts(db.slots, batch) then Step(Err(HttpError(400, MsgSlotTaken)), db)
    else
      var next := db.nextSlotId;
      SaveKeepsValid(db, batch);
      InsertAddsExactly(db.slots, next, batch);
      Step(Ok(Records(batch, next)), db.(slots := db.slots + Inserted(batch, next), nextSlotId := next + |batch|))
  }

  /** The records the insert returns, in batch order. */
  function Records(batch: seq<SlotPayload>, next: int): (r: seq<SlotRecord>)
    ensures |r| == |batch|
    ensures forall k :: 0 <= k < |batch| ==> r[k] == SlotRecord(next + k, batch[k].day, batch[k].slot)
  {
    seq(|batch|, k requires 0 <= k < |batch| => SlotRecord(next + k, batch[k].day, batch[k].slot))
  }

  /** The insert leaves every old row in place. */
  lemma InsertKeepsOld(slots: map<int, Availability>, next: int, batch: seq<SlotPayload>)
    requires IdsBelow(slots, next)
    ensures forall id :: id in slots ==> id in slots + Inserted(batch, next) && (slots + Inserted(batch, next))[id] == slots[id]
  {
    var rows := Inserted(batch, next);
    forall id | id in slots ensures id in slots + rows && (slots + rows)[id] == slots[id] {
      assert id !in rows;
    }
  }

  /** Every row after the insert is an old row or one of the returned records, and there are `|batch|` more. */
  lemma InsertOnlyRecords(slots: map<int, Availability>, next: int, batch: seq<SlotPayload>)
    requires IdsBelow(slots, next)
    ensures var all := slots + Inserted(batch, next);
      && (forall id :: id in all ==> id in slots || exists k :: 0 <= k < |batch| && Records(batch, next)[k].id == id)
      && |all| == |slots| + |batch|
  {
    var rows := Inserted(batch, next);
    var all := slots + rows;
    var r := Records(batch, next);
    forall id | id in all && id !in slots ensures exists k :: 0 <= k < |batch| && r[k].id == id {
      assert r[id - next].id == id;
    }
    assert all.Keys == slots.Keys + rows.Keys;
    assert slots.Keys * rows.Keys == {};
  }

  /**
   * Cell `k` of the batch is filed in `after` under the fresh id of record
   * `k`; the records carry the cells' day and slot, with ids increasing in
   * batch order.
   */
  predicate FiledAsRecords(before: map<int, Availability>, after: map<int, Availability>,
                           batch: seq<SlotPayload>, records: seq<SlotRecord>)
  {
    && |records| == |batch|
    && (forall k :: 0 <= k < |batch| ==>
          && records[k] == SlotRecord(records[k].id, batch[k].day, batch[k].slot)
          && records[k].id !in before && records[k].id in after
          && after[records[k].id] == Availability(records[k].id, batch[k].userId, batch[k].day, batch[k].slot))
    && (forall j, k :: 0 <= j < k < |batch| ==> records[j].id < records[k].id)
  }

  /** `after` keeps every row of `before` and adds only the rows of the records, one per cell. */
  predicate OnlyRecordsAdded(before: map<int, Availability>, after: map<int, Availability>,
                             batch: seq<SlotPayload>, records: seq<SlotRecord>)
  {
    && (forall id :: id in before ==> id in after && after[id] == before[id])
    && (forall id :: id in after ==> id in before || exists k :: 0 <= k < |records| && records[k].id == id)
    && |after| == |before| + |batch|
  }

  /** `after` is `before` plus one fresh row per cell of the batch, as the records say, and nothing else. */
  predicate AddedExactly(before: map<int, Availability>, after: map<int, Availability>,
                         batch: seq<SlotPayload>, records: seq<SlotRecord>)
  {
    FiledAsRecords(before, after, batch, records) && OnlyRecordsAdded(before, after, batch, records)
  }

  /** Inserting above every existing id files each cell under its record's id. */
  lemma InsertFilesRecords(slots: map<int, Availability>, next: int, batch: seq<SlotPayload>)
    requires IdsBelow(slots, next)
    ensures FiledAsRecords(slots, slots + Inserted(batch, next), batch, Records(batch, next))
  {
    var rows := Inserted(batch, next);
    var after := slots + rows;
    var records := Records(batch, next);
    forall k | 0 <= k < |batch|
      ensures records[k] == SlotRecord(records[k].id, batch[k].day, batch[k].slot)
      ensures records[k].id !in slots && records[k].id in after
      ensures after[records[k].id] == Availability(records[k].id, batch[k].userId, batch[k].day, batch[k].slot)
    {
      var id := next + k;
      assert records[k] == SlotRecord(id, batch[k].day, batch[k].slot);
      assert id !in slots && id in rows;
      assert after[id] == rows[id] == Row(batch, next, id);
    }
    forall j, k | 0 <= j < k < |batch| ensures records[j].id < records[k].id {
      assert records[j].id == next + j && records[k].id == next + k;
    }
  }

  /** Inserting above every existing id adds exactly the returned records. */
  lemma InsertAddsExactly(slots: map<int, Availability>, next: int, batch: seq<SlotPayload>)
    requires IdsBelow(slots, next)
    ensures AddedExactly(slots, slots + Inserted(batch, next), batch, Records(batch, next))
  {
    InsertFilesRecords(slots, next, batch);
    InsertKeepsOld(slots, next, batch);
    InsertOnlyRecords(slots, next, batch);
  }

  /** A conflict-free insert leaves the tables valid. */
  lemma SaveKeepsValid(db: Db, batch: seq<SlotPayload>)
    requires Valid(db) && !Conflicts(db.slots, batch)
    ensures Valid(db.(slots := db.slots + Inserted(batch, db.nextSlotId), nextSlotId := db.nextSlotId + |batch|))
  {
    var next := db.nextSlotId;
    var rows := Inserted(batch, next);
    var all := db.slots + rows;
    NewCellsKeepUnique(db.slots, next, batch);
    InsertedIdsMatch(db.slots, next, batch);
    var db1 := db.(slots := all, nextSlotId := next + |batch|);
    assert IdsBelow(db1.slots, db1.nextSlotId) && UniqueSlots(db1.slots);
  }

  /** Each inserted row is filed under its own id. */
  lemma InsertedIdsMatch(slots: map<int, Availability>, next: int, batch: seq<SlotPayload>)
    requires IdsMatchKeys(slots, (a: Availability) => a.id)
    ensures IdsMatchKeys(slots + Inserted(batch, next), (a: Availability) => a.id)
  {
    var rows := Inserted(batch, next);
    var all := slots + rows;
    forall id | id in all ensures all[id].id == id {
      if id in rows {
        assert all[id] == Row(batch, next, id);
      } else {
        assert all[id] == slots[id];
        assert ((a: Availability) => a.id)(slots[id]) == id;
      }
    }
  }

  /** Inserting a batch without conflicts keeps the unique constraint. */
  lemma NewCellsKeepUnique(slots: map<int, Availability>, next: int, batch: seq<SlotPayload>)
    requires UniqueSlots(slots) && IdsBelow(slots, next) && !Conflicts(slots, batch)
    ensures UniqueSlots(slots + Inserted(batch, next))
    ensures IdsBelow(slots + Inserted(batch, next), next + |batch|)
  {
    var rows := Inserted(batch, next);
    var all := slots + rows;
    forall a, b | a in all && b in all && a != b
      ensures all[a].userId != all[b].userId || all[a].slot != all[b].slot || all[a].day != all[b].day
    {
      if a in rows && b in rows {
        assert batch[a - next] != batch[b - next] by {
          if a < b { assert !(batch[a - next] == batch[b - next]); }
          else { assert !(batch[b - next] == batch[a - next]); }
        }
      } else if a in rows {
        assert b in slots && !SameCell(slots[b], batch[a - next]);
      } else if b in rows {
        assert a in slots && !SameCell(slots[a], batch[b - next]);
      }
    }
  }

  method SaveAvailabilityService(store: Database, batch: seq<SlotPayload>) returns (r: Result<seq<SlotRecord>>)
    requires Valid(store.Model())
    modifies store
    ensures Step(r, store.Model()) == SaveAvailability(old(store.Model()), batch)
  {
    if !OwnersExist(store.users, batch) {
      return Err(HttpError(500, MsgSystemError));
    }
    if Conflicts(store.slots, batch) {
      return Err(HttpError(400, MsgSlotTaken));
    }
    var next := store.nextSlotId;
    store.slots := store.slots + Inserted(batch, next);
    store.nextSlotId := next + |batch|;
    r := Ok(Records(batch, next));
  }

  /** Saving the same non-empty batch twice: the second save conflicts and changes nothing. */
  lemma RepeatedSaveConflicts(db: Db, batch: seq<SlotPayload>)
    requires Valid(db) && batch != []
    requires SaveAvailability(db, batch).result.Ok?
    ensures var db1 := SaveAvailability(db, batch).db;
      SaveAvailability(db1, batch) == Step(Err(HttpError(400, MsgSlotTaken)), db1)
  {
    var s := SaveAvailability(db, batch);
    var id := s.result.value[0].id;
    assert id in s.db.slots && SameCell(s.db.slots[id], batch[0]);
    assert OwnersExist(s.db.users, batch);
  }

  // --------------------------------------------------------------- listing

  /** `getAvailailitiesService`: every cell of the teacher, each once, in id order. */
  function TeacherAvailability(db: Db, teacherId: int): (r: seq<Availability>)
    requires Valid(db)
    ensures forall id :: id in db.slots && db.slots[id].userId == teacherId ==> db.slots[id] in r
    ensures forall i :: 0 <= i < |r| ==> r[i].userId == teacherId && r[i].id in db.slots && db.slots[r[i].id] == r[i]
    ensures forall i, j :: 0 <= i < j < |r| ==> r[i].id < r[j].id
  {
    OldestRows(db.slots, db.nextSlotId, (a: Availability) => a.userId == teacherId, (a: Availability) => a.id)
  }

  /** A saved batch of one teacher's cells shows up in that teacher's listing. */
  lemma SavedCellsAreListed(db: Db, teacherId: int, batch: seq<SlotPayload>)
    requires Valid(db)
    requires forall k :: 0 <= k < |batch| ==> batch[k].userId == teacherId
    requires SaveAvailability(db, batch).result.Ok?
    ensures var s := SaveAvailability(db, batch);
      forall k :: 0 <= k < |batch| ==>
        Availability(s.result.value[k].id, teacherId, batch[k].day, batch[k].slot) in TeacherAvailability(s.db, teacherId)
  {
    var s := SaveAvailability(db, batch);
    forall k | 0 <= k < |batch|
      ensures Availability(s.result.value[k].id, teacherId, batch[k].day, batch[k].slot) in TeacherAvailability(s.db, teacherId)
    {
      var id := s.result.value[k].id;
      assert s.db.slots[id].userId == teacherId;
    }
  }

  // ---------------------------------------------------------------- delete

  /** The cells a delete removes: listed and owned by the caller. */
  function Owned(slots: map<int, Availability>, userId: int, ids: seq<int>): (r: set<int>)
    ensures forall id :: id in r <==> id in slots && id in ids && slots[id].userId == userId
  {
    set id | id in slots && id in ids && slots[id].userId == userId
  }

  /**
   * `deleteAvailabilitiesService`: removes exactly the listed cells the
   * caller owns, leaves every other cell as it was, and answers how many
   * were removed.
   */
  function DeleteAvailabilities(db: Db, userId: int, ids: seq<int>): (s: Step<nat>)
    requires Valid(db)
    ensures Valid(s.db)
    ensures s.result.Ok?
    ensures forall id :: id in s.db.slots <==> id in db.slots && (id !in ids || db.slots[id].userId != userId)
    ensures forall id :: id in s.db.slots ==> s.db.slots[id] == db.slots[id]
    ensures s.db == db.(slots := s.db.slots)
    ensures s.result.value == |db.slots| - |s.db.slots|
  {
    var kept := Kept(db.slots, userId, ids);
    DropSlotsKeepsValid(db, kept);
    Step(Ok(|db.slots| - |kept|), db.(slots := kept))
  }

  /** The cells left once the caller's listed cells are gone. */
  function Kept(slots: map<int, Availability>, userId: int, ids: seq<int>): (kept: map<int, Availability>)
    ensures forall id :: id in kept <==> id in slots && (id !in ids || slots[id].userId != userId)
    ensures forall id :: id in kept ==> id in slots && kept[id] == slots[id]
    ensures |kept| <= |slots|
  {
    var gone := Owned(slots, userId, ids);
    var kept := map id | id in slots && id !in gone :: slots[id];
    RemovedCount(slots, kept, gone);
    kept
  }

  /** Removing a set of present keys shrinks the map by the size of the set. */
  lemma RemovedCount(m: map<int, Availability>, kept: map<int, Availability>, gone: set<int>)
    requires gone <= m.Keys
    requires forall id :: id in kept <==> id in m && id !in gone
    ensures |kept| == |m| - |gone|
  {
    assert forall id :: id in kept.Keys <==> id in m.Keys - gone;
    assert kept.Keys == m.Keys - gone;
    assert |m.Keys - gone| == |m.Keys| - |gone|;
  }

  method DeleteAvailabilitiesService(store: Database, userId: int, ids: seq<int>) returns (r: Result<nat>)
    requires Valid(store.Model())
    modifies store
    ensures Step(r, store.Model()) == DeleteAvailabilities(old(store.Model()), userId, ids)
  {
    var kept := Kept(store.slots, userId, ids);
    r := Ok(|store.slots| - |kept|);
    store.slots := kept;
  }

  /** A second identical delete removes nothing. */
  lemma DeleteIdempotent(db: Db, userId: int, ids: seq<int>)
    requires Valid(db)
    ensures var db1 := DeleteAvailabilities(db, userId, ids).db;
      DeleteAvailabilities(db1, userId, ids) == Step(Ok(0), db1)
  {
    var db1 := DeleteAvailabilities(db, userId, ids).db;
    var db2 := DeleteAvailabilities(db1, userId, ids).db;
    assert db2.slots == db1.slots;
  }

  /** The ids of the returned records, in order. */
  function IdsOf(records: seq<SlotRecord>): (ids: seq<int>)
    ensures |ids| == |records| && forall k :: 0 <= k < |records| ==> ids[k] == records[k].id
  {
    if records == [] then [] else [records[0].id] + IdsOf(records[1..])
  }

  /** Removing exactly the rows an insert added gives back the table as it was. */
  lemma RemovingAddedRestores(before: map<int, Availability>, after: map<int, Availability>,
                              ids: seq<int>, userId: int, kept: map<int, Availability>)
    requires forall id :: id in before ==> id in after && after[id] == before[id]
    requires forall id :: id in after && id !in before ==> id in ids && after[id].userId == userId
    requires forall k :: 0 <= k < |ids| ==> ids[k] !in before
    requires forall id :: id in kept <==> id in after && (id !in ids || after[id].userId != userId)
    requires forall id :: id in kept ==> kept[id] == after[id]
    ensures kept == before
  {
    forall id | id in before ensures id in kept && kept[id] == before[id] {
      assert id !in ids by {
        forall k | 0 <= k < |ids| ensures ids[k] != id {
        }
      }
    }
    assert forall id :: id in kept ==> id in before;
    assert kept.Keys == before.Keys;
  }

  /** Every row a save adds is listed among the returned ids and owned by the saving user. */
  lemma SavedRowsAreReturned(db: Db, userId: int, batch: seq<SlotPayload>)
    requires Valid(db)
    requires forall k :: 0 <= k < |batch| ==> batch[k].userId == userId
    requires SaveAvailability(db, batch).result.Ok?
    ensures var s := SaveAvailability(db, batch);
      && (forall id :: id in s.db.slots && id !in db.slots ==> id in IdsOf(s.result.value) && s.db.slots[id].userId == userId)
      && (forall k :: 0 <= k < |batch| ==> IdsOf(s.result.value)[k] !in db.slots)
  {
    var s := SaveAvailability(db, batch);
    var records := s.result.value;
    var after := s.db.slots;
    assert AddedExactly(db.slots, after, batch, records);
    var ids := IdsOf(records);
    forall id | id in after && id !in db.slots ensures id in ids && after[id].userId == userId {
      var k :| 0 <= k < |batch| && records[k].id == id;
      assert ids[k] == id;
    }
    forall k | 0 <= k < |batch| ensures ids[k] !in db.slots {
      assert ids[k] == records[k].id;
    }
  }

  /** Deleting the cells just saved, as their owner, gives back the table as it was before the save. */
  lemma SaveThenDeleteRestores(db: Db, userId: int, batch: seq<SlotPayload>)
    requires Valid(db)
    requires forall k :: 0 <= k < |batch| ==> batch[k].userId == userId
    requires SaveAvailability(db, batch).result.Ok?
    ensures var s := SaveAvailability(db, batch);
      var d := DeleteAvailabilities(s.db, userId, IdsOf(s.result.value));
      d.db.slots == db.slots
  {
    var s := SaveAvailability(db, batch);
    var d := DeleteAvailabilities(s.db, userId, IdsOf(s.result.value));
    SavedRowsAreReturned(db, userId, batch);
    RemovingAddedRestores(db.slots, s.db.slots, IdsOf(s.result.value), userId, d.db.slots);
  }

  /** That delete reports as many removed cells as the save inserted. */
  lemma SaveThenDeleteCounts(db: Db, userId: int, batch: seq<SlotPayload>)
    requires Valid(db)
    requires forall k :: 0 <= k < |batch| ==> batch[k].userId == userId
    requires SaveAvailability(db, batch).result.Ok?
    ensures var s := SaveAvailability(db, batch);
      DeleteAvailabilities(s.db, userId, IdsOf(s.result.value)).result == Ok(|batch|)
  {
    var s := SaveAvailability(db, batch);
    var d := DeleteAvailabilities(s.db, userId, IdsOf(s.result.value));
    SaveThenDeleteRestores(db, userId, batch);
    assert OnlyRecordsAdded(db.slots, s.db.slots, batch, s.result.value);
    assert |s.db.slots| == |db.slots| + |batch|;
    assert d.result.value == |s.db.slots| - |d.db.slots|;
  }
}
