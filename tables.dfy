/**
 * The persistent rows the services read and write, as a snapshot value `Db`
 * and as the class `Database` whose fields the services update in place.
 * Each table is a map keyed by the row's id; ids are handed out by an
 * auto-increment counter, so a larger id means a later insertion. Listing
 * "by createdAt, newest first" is therefore listing by descending id.
 */
module Tables {
  import opened Common

  // ------------------------------------------------------------------ enums

  /** The booking lifecycle states the payment-aware services use. */
  datatype RequestState = Created | PaymentPending | Paid | Approved | Rejected | PaymentRefunded

  function StateName(s: RequestState): string
  {
    match s
    case Created => "Created"
    case PaymentPending => "PaymentPending"
    case Paid => "Paid"
    case Approved => "Approved"
    case Rejected => "Rejected"
    case PaymentRefunded => "PaymentRefunded"
  }

  /** The database accepts a state only by its exact enum label. */
  function ParseState(name: string): (r: Option<RequestState>)
    ensures r.Some? ==> StateName(r.value) == name
    ensures forall s :: StateName(s) == name ==> r == Some(s)
  {
    if name == "Created" then Some(Created)
    else if name == "PaymentPending" then Some(PaymentPending)
    else if name == "Paid" then Some(Paid)
    else if name == "Approved" then Some(Approved)
    else if name == "Rejected" then Some(Rejected)
    else if name == "PaymentRefunded" then Some(PaymentRefunded)
    else None
  }

  datatype Category = Calculo | Dinamica | Economia | Quimica | Computacion | Otro

  function CategoryName(c: Category): string
  {
    match c
    case Calculo => "Calculo"
    case Dinamica => "Dinamica"
    case Economia => "Economia"
    case Quimica => "Quimica"
    case Computacion => "Computacion"
    case Otro => "Otro"
  }

  /** `categories.includes(name)`, giving the category it names. */
  function ParseCategory(name: string): (r: Option<Category>)
    ensures r.Some? ==> CategoryName(r.value) == name
    ensures forall c :: CategoryName(c) == name ==> r == Some(c)
  {
    if name == "Calculo" then Some(Calculo)
    else if name == "Dinamica" then Some(Dinamica)
    else if name == "Economia" then Some(Economia)
    else if name == "Quimica" then Some(Quimica)
    else if name == "Computacion" then Some(Computacion)
    else if name == "Otro" then Some(Otro)
    else None
  }

  /** The category the database assigns when none is given. */
  const DefaultCategory := Otro

  // ------------------------------------------------------------------- rows

  datatype User = User(
    id: int, username: string, email: string, passwordHash: string, role: string,
    isDeleted: bool,
    firstName: Option<string>, lastName1: Option<string>, lastName2: Option<string>,
    phone: Option<string>)

  datatype ClassOffer = ClassOffer(
    id: int, title: string, description: string, price: int, category: Category,
    authorId: int, isDeleted: bool)

  datatype ClassRequest = ClassRequest(
    id: int, classOfferId: int, userId: int, day: int, slot: int,
    state: RequestState, priceCreatedAt: Option<int>)

  datatype Transaction = Transaction(
    id: int, classRequestId: int, preferenceId: string,
    paymentId: Option<string>, status: string, confirmCode: Option<string>)

  /** A teacher's payment-provider credential; expirations are in milliseconds. */
  datatype Credential = Credential(
    userId: int, accessToken: string, accessTokenExpiration: int,
    refreshToken: string, refreshTokenExpiration: int)

  datatype Review = Review(id: int, teacherId: int, reviewerId: int, rating: int, content: Option<string>)

  datatype Availability = Availability(id: int, userId: int, day: int, slot: int)

  // ---------------------------------------------------------------- listing

  /** Ids below `hi` of the rows that satisfy `keep`, largest (newest) first. */
  function IdsDesc<R>(m: map<int, R>, hi: int, keep: R -> bool): (ids: seq<int>)
    ensures forall id :: id in ids <==> (0 <= id < hi && id in m && keep(m[id]))
    ensures forall i, j :: 0 <= i < j < |ids| ==> ids[i] > ids[j]
    decreases hi
  {
    if hi <= 0 then []
    else
      var rest := IdsDesc(m, hi - 1, keep);
      assert forall k :: 0 <= k < |rest| ==> rest[k] in rest && rest[k] < hi - 1;
      if hi - 1 in m && keep(m[hi - 1]) then [hi - 1] + rest else rest
  }

  /** Ids below `hi` of the rows that satisfy `keep`, smallest (oldest) first. */
  function IdsAsc<R>(m: map<int, R>, hi: int, keep: R -> bool): (ids: seq<int>)
    ensures forall id :: id in ids <==> (0 <= id < hi && id in m && keep(m[id]))
    ensures forall i, j :: 0 <= i < j < |ids| ==> ids[i] < ids[j]
    decreases hi
  {
    if hi <= 0 then []
    else
      var rest := IdsAsc(m, hi - 1, keep);
      assert forall k :: 0 <= k < |rest| ==> rest[k] in rest && rest[k] < hi - 1;
      if hi - 1 in m && keep(m[hi - 1]) then rest + [hi - 1] else rest
  }

  /** The rows with the given ids, in the same order. */
  function RowsOf<R>(m: map<int, R>, ids: seq<int>): (rows: seq<R>)
    requires forall i :: 0 <= i < |ids| ==> ids[i] in m
    ensures |rows| == |ids|
    ensures forall i :: 0 <= i < |ids| ==> rows[i] == m[ids[i]]
  {
    seq(|ids|, i requires 0 <= i < |ids| => m[ids[i]])
  }

  /** The rows satisfying `keep`, newest first. */
  function NewestFirst<R>(m: map<int, R>, hi: int, keep: R -> bool): seq<R>
  {
    RowsOf(m, IdsDesc(m, hi, keep))
  }

  /** The rows satisfying `keep`, oldest first (the order of a query without `orderBy`). */
  function OldestFirst<R>(m: map<int, R>, hi: int, keep: R -> bool): seq<R>
  {
    RowsOf(m, IdsAsc(m, hi, keep))
  }

  /** Ids are positive and below the table's counter. */
  ghost predicate IdsBelow<R>(m: map<int, R>, nextId: int)
  {
    nextId >= 1 && forall id :: id in m ==> 1 <= id < nextId
  }

  /** With every id below the counter, a listing holds exactly the rows satisfying `keep`. */
  lemma NewestFirstExactly<R>(m: map<int, R>, nextId: int, keep: R -> bool, x: R)
    requires IdsBelow(m, nextId)
    ensures x in NewestFirst(m, nextId, keep) <==> exists id :: id in m && m[id] == x && keep(x)
  {
    var ids := IdsDesc(m, nextId, keep);
    var rows := NewestFirst(m, nextId, keep);
    if x in rows {
      var i :| 0 <= i < |rows| && rows[i] == x;
      assert ids[i] in ids;
    }
    if exists id :: id in m && m[id] == x && keep(x) {
      var id :| id in m && m[id] == x && keep(x);
      assert id in ids;
      var i :| 0 <= i < |ids| && ids[i] == id;
      assert rows[i] == x;
    }
  }

  /** Every row is stored under its own id. */
  ghost predicate IdsMatchKeys<R>(m: map<int, R>, idOf: R -> int)
  {
    forall id :: id in m ==> idOf(m[id]) == id
  }

  /** The rows satisfying `keep`, largest id first, each stored under its own id. */
  function NewestRows<R>(m: map<int, R>, hi: int, keep: R -> bool, idOf: R -> int): (r: seq<R>)
    requires IdsBelow(m, hi) && IdsMatchKeys(m, idOf)
    ensures forall i :: 0 <= i < |r| ==> keep(r[i]) && idOf(r[i]) in m && m[idOf(r[i])] == r[i]
    ensures forall i, j :: 0 <= i < j < |r| ==> idOf(r[i]) > idOf(r[j])
    ensures forall id :: id in m && keep(m[id]) ==> m[id] in r
  {
    var ids := IdsDesc(m, hi, keep);
    var all := RowsOf(m, ids);
    assert forall k :: 0 <= k < |all| ==> ids[k] in ids && idOf(all[k]) == ids[k];
    forall id | id in m && keep(m[id]) ensures m[id] in all {
      assert id in ids;
      var k :| 0 <= k < |ids| && ids[k] == id;
      assert all[k] == m[id];
    }
    all
  }

  /** The rows satisfying `keep`, smallest id first, each stored under its own id. */
  function OldestRows<R>(m: map<int, R>, hi: int, keep: R -> bool, idOf: R -> int): (r: seq<R>)
    requires IdsBelow(m, hi) && IdsMatchKeys(m, idOf)
    ensures forall i :: 0 <= i < |r| ==> keep(r[i]) && idOf(r[i]) in m && m[idOf(r[i])] == r[i]
    ensures forall i, j :: 0 <= i < j < |r| ==> idOf(r[i]) < idOf(r[j])
    ensures forall id :: id in m && keep(m[id]) ==> m[id] in r
  {
    var ids := IdsAsc(m, hi, keep);
    var all := RowsOf(m, ids);
    assert forall k :: 0 <= k < |all| ==> ids[k] in ids && idOf(all[k]) == ids[k];
    forall id | id in m && keep(m[id]) ensures m[id] in all {
      assert id in ids;
      var k :| 0 <= k < |ids| && ids[k] == id;
      assert all[k] == m[id];
    }
    all
  }

  // -------------------------------------------------------------- the store

  /** At most one review per (reviewer, teacher) pair. */
  ghost predicate OneReviewPerPair(rows: map<int, Review>)
  {
    forall a, b :: a in rows && b in rows && a != b ==>
      rows[a].reviewerId != rows[b].reviewerId || rows[a].teacherId != rows[b].teacherId
  }

  /** The database's unique constraint on availability (userId, slot, day). */
  ghost predicate UniqueSlots(rows: map<int, Availability>)
  {
    forall a, b :: a in rows && b in rows && a != b ==>
      rows[a].userId != rows[b].userId || rows[a].slot != rows[b].slot || rows[a].day != rows[b].day
  }

  /** Every transaction is filed under its own class request and has an id below the counter. */
  ghost predicate TxsFiled(txs: map<int, seq<Transaction>>, nextTxId: int)
  {
    nextTxId >= 1 &&
    forall rid, k :: rid in txs && 0 <= k < |txs[rid]| ==>
      txs[rid][k].classRequestId == rid && 1 <= txs[rid][k].id < nextTxId
  }

  /** The transactions of a class request in creation order (the last is the newest). */
  function TxsOf(txs: map<int, seq<Transaction>>, classRequestId: int): seq<Transaction>
  {
    if classRequestId in txs then txs[classRequestId] else []
  }

  /** The newest transaction whose status is one of `statuses`. */
  function LatestWithStatus(txs: seq<Transaction>, statuses: set<string>): (r: Option<Transaction>)
    ensures r.None? <==> forall k :: 0 <= k < |txs| ==> txs[k].status !in statuses
    ensures r.Some? ==> exists k :: 0 <= k < |txs| && txs[k] == r.value && r.value.status in statuses &&
                                    forall j :: k < j < |txs| ==> txs[j].status !in statuses
  {
    if txs == [] then None
    else if txs[|txs| - 1].status in statuses then Some(txs[|txs| - 1])
    else
      var r := LatestWithStatus(txs[..|txs| - 1], statuses);
      LatestSkipsLast(txs, statuses, r);
      r
  }

  /** When the newest transaction does not match, the answer for all is the answer for the older ones. */
  lemma LatestSkipsLast(txs: seq<Transaction>, statuses: set<string>, r: Option<Transaction>)
    requires txs != [] && txs[|txs| - 1].status !in statuses
    requires r.None? <==> forall k :: 0 <= k < |txs| - 1 ==> txs[k].status !in statuses
    requires r.Some? ==> exists k :: 0 <= k < |txs| - 1 && txs[k] == r.value && r.value.status in statuses &&
                                     forall j :: k < j < |txs| - 1 ==> txs[j].status !in statuses
    ensures r.None? <==> forall k :: 0 <= k < |txs| ==> txs[k].status !in statuses
    ensures r.Some? ==> exists k :: 0 <= k < |txs| && txs[k] == r.value && r.value.status in statuses &&
                                    forall j :: k < j < |txs| ==> txs[j].status !in statuses
  {
    if r.Some? {
      var k :| 0 <= k < |txs| - 1 && txs[k] == r.value && r.value.status in statuses &&
               forall j :: k < j < |txs| - 1 ==> txs[j].status !in statuses;
      assert forall j :: k < j < |txs| ==> txs[j].status !in statuses;
    }
  }

  /** Transactions are filed only under existing class requests (a request with transactions cannot be deleted). */
  ghost predicate TxsBelongToRequests(txs: map<int, seq<Transaction>>, requests: map<int, ClassRequest>)
  {
    forall rid :: rid in txs && txs[rid] != [] ==> rid in requests
  }

  /** Every review was written by a stored user (users are never removed, only flagged). */
  ghost predicate ReviewsByUsers(reviews: map<int, Review>, users: map<int, User>)
  {
    forall id :: id in reviews ==> reviews[id].reviewerId in users
  }

  /** Usernames and emails are unique columns: no two users share either. */
  ghost predicate UniqueLogins(users: map<int, User>)
  {
    && (forall a, b :: a in users && b in users && users[a].username == users[b].username ==> a == b)
    && (forall a, b :: a in users && b in users && users[a].email == users[b].email ==> a == b)
  }

  /** A user row without its password hash, as login and profile updates return it. */
  datatype PublicUser = PublicUser(
    id: int, username: string, email: string, role: string, isDeleted: bool,
    firstName: Option<string>, lastName1: Option<string>, lastName2: Option<string>,
    phone: Option<string>)

  /** The user row as returned to the client: every column but the password hash. */
  function Public(u: User): PublicUser
  {
    PublicUser(u.id, u.username, u.email, u.role, u.isDeleted, u.firstName, u.lastName1, u.lastName2, u.phone)
  }

  /** The contents of every table at one moment. */
  datatype Db = Db(
    users: map<int, User>,
    offers: map<int, ClassOffer>, nextOfferId: int,
    requests: map<int, ClassRequest>, nextRequestId: int,
    txs: map<int, seq<Transaction>>, nextTxId: int,
    creds: map<int, Credential>,
    reviews: map<int, Review>, nextReviewId: int,
    slots: map<int, Availability>, nextSlotId: int)

  /** Keys, ids and counters agree, and the unique constraints hold. */
  ghost predicate Valid(db: Db)
  {
    && IdsMatchKeys(db.users, (u: User) => u.id)
    && IdsBelow(db.offers, db.nextOfferId) && IdsMatchKeys(db.offers, (o: ClassOffer) => o.id)
    && IdsBelow(db.requests, db.nextRequestId) && IdsMatchKeys(db.requests, (r: ClassRequest) => r.id)
    && TxsFiled(db.txs, db.nextTxId) && TxsBelongToRequests(db.txs, db.requests)
    && IdsMatchKeys(db.creds, (c: Credential) => c.userId)
    && IdsBelow(db.reviews, db.nextReviewId) && IdsMatchKeys(db.reviews, (r: Review) => r.id)
    && OneReviewPerPair(db.reviews) && ReviewsByUsers(db.reviews, db.users)
    && IdsBelow(db.slots, db.nextSlotId) && IdsMatchKeys(db.slots, (a: Availability) => a.id)
    && UniqueSlots(db.slots)
  }

  /** Dropping availability rows, and keeping the rest unchanged, keeps the snapshot valid. */
  lemma DropSlotsKeepsValid(db: Db, kept: map<int, Availability>)
    requires Valid(db)
    requires forall id :: id in kept ==> id in db.slots && kept[id] == db.slots[id]
    ensures Valid(db.(slots := kept))
  {
    forall a, b | a in kept && b in kept && a != b
      ensures kept[a].userId != kept[b].userId || kept[a].slot != kept[b].slot || kept[a].day != kept[b].day
    {
      assert kept[a] == db.slots[a] && kept[b] == db.slots[b];
    }
  }

  /** Filing a row under the next id, and moving the counter past it, keeps the id invariants. */
  lemma InsertKeepsIds<R>(m: map<int, R>, nextId: int, idOf: R -> int, x: R)
    requires IdsBelow(m, nextId) && IdsMatchKeys(m, idOf) && idOf(x) == nextId
    ensures IdsBelow(m[nextId := x], nextId + 1) && IdsMatchKeys(m[nextId := x], idOf)
  {
  }

  /** Publishing an offer under the next offer id keeps the tables valid. */
  lemma NewOfferKeepsValid(db: Db, o: ClassOffer)
    requires Valid(db) && o.id == db.nextOfferId
    ensures Valid(db.(offers := db.offers[o.id := o], nextOfferId := db.nextOfferId + 1))
  {
    InsertKeepsIds(db.offers, db.nextOfferId, (c: ClassOffer) => c.id, o);
  }

  /** Appending a new transaction under an existing class request keeps the tables valid. */
  lemma AppendTxKeepsValid(db: Db, tx: Transaction)
    requires Valid(db) && tx.classRequestId in db.requests && tx.id == db.nextTxId
    ensures Valid(db.(txs := db.txs[tx.classRequestId := TxsOf(db.txs, tx.classRequestId) + [tx]],
                      nextTxId := db.nextTxId + 1))
  {
    var rid := tx.classRequestId;
    var txs: map<int, seq<Transaction>> := db.txs[rid := TxsOf(db.txs, rid) + [tx]];
    forall r: int, k: int | r in txs && 0 <= k < |txs[r]|
      ensures txs[r][k].classRequestId == r && 1 <= txs[r][k].id < db.nextTxId + 1
    {
      if r == rid && k == |txs[r]| - 1 {
        assert txs[r][k] == tx;
      } else {
        assert txs[r][k] == db.txs[r][k];
      }
    }
  }

  /** The reviews a teacher received, in insertion order. */
  function TeacherReviews(db: Db, teacherId: int): (r: seq<Review>)
    requires Valid(db)
    ensures forall i :: 0 <= i < |r| ==> r[i].teacherId == teacherId && r[i].id in db.reviews && db.reviews[r[i].id] == r[i]
    ensures forall i, j :: 0 <= i < j < |r| ==> r[i].id < r[j].id
    ensures forall id :: id in db.reviews && db.reviews[id].teacherId == teacherId ==> db.reviews[id] in r
  {
    OldestRows(db.reviews, db.nextReviewId, (v: Review) => v.teacherId == teacherId, (v: Review) => v.id)
  }

  /** An offer that exists and is not soft-deleted. */
  predicate LiveOffer(db: Db, classOfferId: int)
  {
    classOfferId in db.offers && !db.offers[classOfferId].isDeleted
  }

  /** The result of a service call together with the tables after it. */
  datatype Step<+T> = Step(result: Result<T>, db: Db)

  /** The tables, updated in place by the services. */
  class Database {
    var users: map<int, User>
    var offers: map<int, ClassOffer>
    var nextOfferId: int
    var requests: map<int, ClassRequest>
    var nextRequestId: int
    var txs: map<int, seq<Transaction>>
    var nextTxId: int
    var creds: map<int, Credential>
    var reviews: map<int, Review>
    var nextReviewId: int
    var slots: map<int, Availability>
    var nextSlotId: int

    /** The current contents of all tables. */
    function Model(): Db
      reads this
    {
      Db(users, offers, nextOfferId, requests, nextRequestId, txs, nextTxId, creds,
         reviews, nextReviewId, slots, nextSlotId)
    }

    constructor ()
      ensures Valid(Model())
      ensures Model() == Db(map[], map[], 1, map[], 1, map[], 1, map[], map[], 1, map[], 1)
    {
      users, offers, requests, txs, creds, reviews, slots :=
        map[], map[], map[], map[], map[], map[], map[];
      nextOfferId, nextRequestId, nextTxId, nextReviewId, nextSlotId := 1, 1, 1, 1, 1;
    }
  }
}
