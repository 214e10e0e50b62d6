/**
 * The review service: one review per (reviewer, teacher), written only about
 * an existing teacher, edited and deleted only by its reviewer, listed per
 * teacher one page at a time and per reviewer in full.
 */
module Reviews {
  import opened Common
  import opened Js
  import opened Paging
  import opened Tables

  const MsgTeacherNotFound := "Tutor no encontrado."
  const MsgAlreadyReviewed := "Ya dejaste una review a este tutor"
  const MsgReviewNotFound := "Review no encontrada."
  const MsgNotYours := "El recurso no le pertenece al usuario actual."
  const MsgServerError := "Error interno del servidor"

  /** The fields a new review is written with, as the controller passes them on. */
  datatype ReviewBody = ReviewBody(rating: JsValue, content: Option<JsValue>)

  /** The fields an edit sets; an absent one is left as it is. */
  datatype ReviewEdit = ReviewEdit(rating: Option<JsValue>, content: Option<JsValue>)

  /** What the database accepts for a review's columns: an integer rating and text content. */
  predicate Storable(rating: JsValue, content: Option<JsValue>)
  {
    IsInteger(rating) && (content.None? || content.value.Str?)
  }

  function ContentOf(content: Option<JsValue>): Option<string>
    requires content.None? || content.value.Str?
  {
    if content.None? then None else Some(content.value.s)
  }

  /** The reviewer already reviewed this teacher. */
  predicate HasReviewed(reviews: map<int, Review>, reviewerId: int, teacherId: int)
  {
    exists id :: id in reviews && reviews[id].reviewerId == reviewerId && reviews[id].teacherId == teacherId
  }

  // ---------------------------------------------------------------- create

  /**
   * `createReviewService`: 404 when the teacher is not a user, 400 when the
   * reviewer already reviewed the teacher; a value the database refuses, or
   * a reviewer that is not a user, fails the insert (500).
   */
  function CreateReview(db: Db, body: ReviewBody, teacherId: int, reviewerId: int): (s: Step<Review>)
    requires Valid(db)
    ensures Valid(s.db)
    ensures s.result.Err? ==> s.db == db
    ensures teacherId !in db.users ==> s.result == Err(HttpError(404, MsgTeacherNotFound))
    ensures teacherId in db.users && HasReviewed(db.reviews, reviewerId, teacherId) ==>
      s.result == Err(HttpError(400, MsgAlreadyReviewed))
    ensures teacherId in db.users && !HasReviewed(db.reviews, reviewerId, teacherId)
      && (!Storable(body.rating, body.content) || reviewerId !in db.users)
      ==> s.result == Err(HttpError(500, MsgServerError))
    ensures s.result.Ok? ==>
      var r := s.result.value;
      && r.id !in db.reviews && s.db.reviews == db.reviews[r.id := r]
      && r.teacherId == teacherId && r.reviewerId == reviewerId
      && r.rating as real == body.rating.x && r.content == ContentOf(body.content)
      && s.db == db.(reviews := s.db.reviews, nextReviewId := s.db.nextReviewId)
  {
    if teacherId !in db.users then Step(Err(HttpError(404, MsgTeacherNotFound)), db)
    else if HasReviewed(db.reviews, reviewerId, teacherId) then Step(Err(HttpError(400, MsgAlreadyReviewed)), db)
    else if !Storable(body.rating, body.content) || reviewerId !in db.users then
      Step(Err(HttpError(500, MsgServerError)), db)
    else
      var r := Review(db.nextReviewId, teacherId, reviewerId, body.rating.x.Floor, ContentOf(body.content));
      NewReviewKeepsPairsUnique(db.reviews, r);
      Step(Ok(r), db.(reviews := db.reviews[r.id := r], nextReviewId := db.nextReviewId + 1))
  }

  /** Adding a review for a pair that has none keeps one review per pair. */
  lemma NewReviewKeepsPairsUnique(reviews: map<int, Review>, r: Review)
    requires OneReviewPerPair(reviews) && r.id !in reviews
    requires !HasReviewed(reviews, r.reviewerId, r.teacherId)
    ensures OneReviewPerPair(reviews[r.id := r])
  {
    var all := reviews[r.id := r];
    forall a, b | a in all && b in all && a != b
      ensures all[a].reviewerId != all[b].reviewerId || all[a].teacherId != all[b].teacherId
    {
      if a == r.id {
        assert b in reviews;
      } else if b == r.id {
        assert a in reviews;
      }
    }
  }

  method CreateReviewService(store: Database, body: ReviewBody, teacherId: int, reviewerId: int) returns (r: Result<Review>)
    requires Valid(store.Model())
    modifies store
    ensures Step(r, store.Model()) == CreateReview(old(store.Model()), body, teacherId, reviewerId)
  {
    if teacherId !in store.users {
      return Err(HttpError(404, MsgTeacherNotFound));
    }
    if HasReviewed(store.reviews, reviewerId, teacherId) {
      return Err(HttpError(400, MsgAlreadyReviewed));
    }
    if !Storable(body.rating, body.content) || reviewerId !in store.users {
      return Err(HttpError(500, MsgServerError));
    }
    var review := Review(store.nextReviewId, teacherId, reviewerId, body.rating.x.Floor, ContentOf(body.content));
    store.reviews := store.reviews[review.id := review];
    store.nextReviewId := store.nextReviewId + 1;
    r := Ok(review);
  }

  /** Once a review is written, any further review of the same teacher by the same reviewer is refused and changes nothing. */
  lemma SecondReviewRefused(db: Db, body: ReviewBody, again: ReviewBody, teacherId: int, reviewerId: int)
    requires Valid(db)
    requires CreateReview(db, body, teacherId, reviewerId).result.Ok?
    ensures var db1 := CreateReview(db, body, teacherId, reviewerId).db;
      CreateReview(db1, again, teacherId, reviewerId) == Step(Err(HttpError(400, MsgAlreadyReviewed)), db1)
  {
    var s := CreateReview(db, body, teacherId, reviewerId);
    var id := s.result.value.id;
    assert id in s.db.reviews && s.db.reviews[id].reviewerId == reviewerId && s.db.reviews[id].teacherId == teacherId;
  }

  // ------------------------------------------------------------------ edit

  /** The review with the given fields replaced. */
  function Edited(r: Review, e: ReviewEdit): (n: Review)
    requires e.rating.None? || IsInteger(e.rating.value)
    requires e.content.None? || e.content.value.Str?
    ensures n.id == r.id && n.teacherId == r.teacherId && n.reviewerId == r.reviewerId
    ensures n.rating as real == (if e.rating.Some? then e.rating.value.x else r.rating as real)
    ensures n.content == (if e.content.Some? then Some(e.content.value.s) else r.content)
  {
    r.(rating := if e.rating.Some? then e.rating.value.x.Floor else r.rating,
       content := if e.content.Some? then Some(e.content.value.s) else r.content)
  }

  /** The edit's values are ones the database accepts. */
  predicate EditStorable(e: ReviewEdit)
  {
    (e.rating.None? || IsInteger(e.rating.value)) && (e.content.None? || e.content.value.Str?)
  }

  /** `updateReviewService`: 404 when missing, 401 for anyone but the reviewer; only the given fields change. */
  function UpdateReview(db: Db, reviewId: int, userId: int, e: ReviewEdit): (s: Step<Review>)
    requires Valid(db)
    ensures Valid(s.db)
    ensures s.result.Err? ==> s.db == db
    ensures reviewId !in db.reviews <==> s.result == Err(HttpError(404, MsgReviewNotFound))
    ensures reviewId in db.reviews && db.reviews[reviewId].reviewerId != userId ==>
      s.result == Err(HttpError(401, MsgNotYours))
    ensures reviewId in db.reviews && db.reviews[reviewId].reviewerId == userId && !EditStorable(e) ==>
      s.result == Err(HttpError(500, MsgServerError))
    ensures s.result.Ok? <==> reviewId in db.reviews && db.reviews[reviewId].reviewerId == userId && EditStorable(e)
    ensures s.result.Ok? ==>
      && s.result.value == Edited(db.reviews[reviewId], e)
      && s.db == db.(reviews := db.reviews[reviewId := s.result.value])
  {
    if reviewId !in db.reviews then Step(Err(HttpError(404, MsgReviewNotFound)), db)
    else if db.reviews[reviewId].reviewerId != userId then Step(Err(HttpError(401, MsgNotYours)), db)
    else if !EditStorable(e) then Step(Err(HttpError(500, MsgServerError)), db)
    else
      var n := Edited(db.reviews[reviewId], e);
      var reviews := db.reviews[reviewId := n];
      assert OneReviewPerPair(reviews) by {
        forall a, b | a in reviews && b in reviews && a != b
          ensures reviews[a].reviewerId != reviews[b].reviewerId || reviews[a].teacherId != reviews[b].teacherId
        {
          assert a in db.reviews && b in db.reviews;
        }
      }
      Step(Ok(n), db.(reviews := reviews))
  }

  method UpdateReviewService(store: Database, reviewId: int, userId: int, e: ReviewEdit) returns (r: Result<Review>)
    requires Valid(store.Model())
    modifies store
    ensures Step(r, store.Model()) == UpdateReview(old(store.Model()), reviewId, userId, e)
  {
    if reviewId !in store.reviews {
      return Err(HttpError(404, MsgReviewNotFound));
    }
    if store.reviews[reviewId].reviewerId != userId {
      return Err(HttpError(401, MsgNotYours));
    }
    if !EditStorable(e) {
      return Err(HttpError(500, MsgServerError));
    }
    var n := Edited(store.reviews[reviewId], e);
    store.reviews := store.reviews[reviewId := n];
    r := Ok(n);
  }

  /** Applying the same edit twice changes nothing more. */
  lemma UpdateIdempotent(db: Db, reviewId: int, userId: int, e: ReviewEdit)
    requires Valid(db)
    ensures var once := UpdateReview(db, reviewId, userId, e);
      var twice := UpdateReview(once.db, reviewId, userId, e);
      twice.db == once.db && twice.result == once.result
  {
    var once := UpdateReview(db, reviewId, userId, e);
    if once.result.Ok? {
      var n := once.result.value;
      assert Edited(n, e) == n;
      assert once.db.reviews[reviewId := n] == once.db.reviews;
    }
  }

  // ---------------------------------------------------------------- delete

  /** `deleteReviewService`: 404 when missing, 401 for anyone but the reviewer; otherwise exactly that review goes. */
  function DeleteReview(db: Db, reviewId: int, userId: int): (s: Step<()>)
    requires Valid(db)
    ensures Valid(s.db)
    ensures s.result.Err? ==> s.db == db
    ensures reviewId !in db.reviews <==> s.result == Err(HttpError(404, MsgReviewNotFound))
    ensures reviewId in db.reviews && db.reviews[reviewId].reviewerId != userId ==>
      s.result == Err(HttpError(401, MsgNotYours))
    ensures s.result.Ok? <==> reviewId in db.reviews && db.reviews[reviewId].reviewerId == userId
    ensures s.result.Ok? ==>
      && (forall id :: id in s.db.reviews <==> id in db.reviews && id != reviewId)
      && (forall id :: id in s.db.reviews ==> s.db.reviews[id] == db.reviews[id])
      && s.db == db.(reviews := s.db.reviews)
  {
    if reviewId !in db.reviews then Step(Err(HttpError(404, MsgReviewNotFound)), db)
    else if db.reviews[reviewId].reviewerId != userId then Step(Err(HttpError(401, MsgNotYours)), db)
    else Step(Ok(()), db.(reviews := db.reviews - {reviewId}))
  }

  method DeleteReviewService(store: Database, reviewId: int, userId: int) returns (r: Result<()>)
    requires Valid(store.Model())
    modifies store
    ensures Step(r, store.Model()) == DeleteReview(old(store.Model()), reviewId, userId)
  {
    if reviewId !in store.reviews {
      return Err(HttpError(404, MsgReviewNotFound));
    }
    if store.reviews[reviewId].reviewerId != userId {
      return Err(HttpError(401, MsgNotYours));
    }
    store.reviews := store.reviews - {reviewId};
    r := Ok(());
  }

  /** Deleting the review just written gives back the reviews as they were, and the teacher can be reviewed again. */
  lemma CreateThenDeleteRestores(db: Db, body: ReviewBody, teacherId: int, reviewerId: int)
    requires Valid(db)
    requires CreateReview(db, body, teacherId, reviewerId).result.Ok?
    ensures var c := CreateReview(db, body, teacherId, reviewerId);
      var d := DeleteReview(c.db, c.result.value.id, reviewerId);
      && d.result.Ok?
      && d.db.reviews == db.reviews
      && !HasReviewed(d.db.reviews, reviewerId, teacherId)
  {
    var c := CreateReview(db, body, teacherId, reviewerId);
    var d := DeleteReview(c.db, c.result.value.id, reviewerId);
    assert d.db.reviews == db.reviews;
  }

  // -------------------------------------------------------------- listings

  /** `getTeacherReviewsService`: 404 for a teacher that is not a user, otherwise one page of their reviews. */
  function TeacherReviewsPage(db: Db, teacherId: int, page: int, limit: int): (r: Result<seq<Review>>)
    requires Valid(db) && page >= 1 && limit >= 1
    ensures teacherId !in db.users <==> r == Err(HttpError(404, MsgTeacherNotFound))
    ensures r.Ok? ==> |r.value| <= limit
    ensures r.Ok? ==> forall i :: 0 <= i < |r.value| ==>
      r.value[i].teacherId == teacherId && r.value[i].id in db.reviews && db.reviews[r.value[i].id] == r.value[i]
    ensures r.Ok? ==> forall i, j :: 0 <= i < j < |r.value| ==> r.value[i].id < r.value[j].id
    ensures r.Ok? ==> r.value == Window(TeacherReviews(db, teacherId), page, limit)
  {
    if teacherId !in db.users then Err(HttpError(404, MsgTeacherNotFound))
    else
      var all := TeacherReviews(db, teacherId);
      WindowKeeps(all, (v: Review) => v.teacherId == teacherId && v.id in db.reviews && db.reviews[v.id] == v, page, limit);
      WindowKeepsAscending(all, (v: Review) => v.id, page, limit);
      Ok(Window(all, page, limit))
  }

  /** `getCurrentUserReviewsService`: every review the user wrote, each once, unpaginated. */
  function CurrentUserReviews(db: Db, userId: int): (r: seq<Review>)
    requires Valid(db)
    ensures forall i :: 0 <= i < |r| ==> r[i].reviewerId == userId && r[i].id in db.reviews && db.reviews[r[i].id] == r[i]
    ensures forall id :: id in db.reviews && db.reviews[id].reviewerId == userId ==> db.reviews[id] in r
    ensures forall i, j :: 0 <= i < j < |r| ==> r[i].id < r[j].id
  {
    OldestRows(db.reviews, db.nextReviewId, (v: Review) => v.reviewerId == userId, (v: Review) => v.id)
  }

  /** A user's reviews name each teacher at most once. */
  lemma CurrentUserReviewsOnePerTeacher(db: Db, userId: int)
    requires Valid(db)
    ensures var r := CurrentUserReviews(db, userId);
      forall i, j :: 0 <= i < j < |r| ==> r[i].teacherId != r[j].teacherId
  {
    var r := CurrentUserReviews(db, userId);
    forall i, j | 0 <= i < j < |r| ensures r[i].teacherId != r[j].teacherId {
      assert r[i].id != r[j].id;
      assert db.reviews[r[i].id] == r[i] && db.reviews[r[j].id] == r[j];
    }
  }
}
