/**
 * Class offers: the public listing with its title, category and price
 * filters and the author's average rating, the detail view with the
 * author's reviews, and the author's own create, edit, soft delete and
 * listing.
 */
module ClassOffers {
  import opened Common
  import opened Text
  import opened Paging
  import opened Tables

  // ---------------------------------------------------------------- filters

  /** The sanitised listing query; the numbers are those `parseInt` read. */
  datatype OfferQuery = OfferQuery(
    title: Option<string>, category: Option<Category>,
    price: Option<int>, minPrice: Option<int>, maxPrice: Option<int>)

  /** A query number that is present and truthy (0 counts as absent). */
  predicate Given(n: Option<int>)
  {
    n.Some? && n.value != 0
  }

  /** The `price` part of the database filter. */
  datatype PriceFilter = AnyPrice | ExactPrice(price: int) | PriceRange(gte: Option<int>, lte: Option<int>)

  /** An exact price wins over the bounds; each bound is sent only when truthy. */
  function PriceFilterOf(q: OfferQuery): PriceFilter
  {
    if Given(q.price) then ExactPrice(q.price.value)
    else if Given(q.minPrice) || Given(q.maxPrice) then
      PriceRange(if Given(q.minPrice) then q.minPrice else None,
                 if Given(q.maxPrice) then q.maxPrice else None)
    else AnyPrice
  }

  /** The filter the listing sends to the database. */
  datatype OfferFilter = OfferFilter(title: Option<string>, category: Option<Category>, price: PriceFilter, isDeleted: bool)

  /** The listing's filter: an empty title is no filter, and deleted offers are always excluded. */
  function FilterOf(q: OfferQuery): (f: OfferFilter)
    ensures !f.isDeleted
  {
    OfferFilter(if q.title.Some? && q.title.value != [] then q.title else None,
                q.category, PriceFilterOf(q), false)
  }

  /** How the database applies a price filter. */
  predicate PriceSelects(f: PriceFilter, price: int)
  {
    match f
    case AnyPrice => true
    case ExactPrice(p) => price == p
    case PriceRange(lo, hi) => (lo.Some? ==> price >= lo.value) && (hi.Some? ==> price <= hi.value)
  }

  /** How the database applies the filter: title substring ignoring case, category, price and the deleted flag. */
  predicate Selects(f: OfferFilter, o: ClassOffer)
  {
    && (f.title.Some? ==> Contains(ToLower(o.title), ToLower(f.title.value)))
    && (f.category.Some? ==> o.category == f.category.value)
    && PriceSelects(f.price, o.price)
    && o.isDeleted == f.isDeleted
  }

  /** What a listing query selects, stated on the query itself. */
  lemma FilterMeaning(q: OfferQuery, o: ClassOffer)
    ensures Selects(FilterOf(q), o) <==>
      && !o.isDeleted
      && (q.title.Some? && q.title.value != [] ==> Contains(ToLower(o.title), ToLower(q.title.value)))
      && (q.category.Some? ==> o.category == q.category.value)
      && (Given(q.price) ==> o.price == q.price.value)
      && (!Given(q.price) && Given(q.minPrice) ==> o.price >= q.minPrice.value)
      && (!Given(q.price) && Given(q.maxPrice) ==> o.price <= q.maxPrice.value)
  {
  }

  // --------------------------------------------------------- average rating

  function Sum(xs: seq<int>): int
  {
    if xs == [] then 0 else Sum(xs[..|xs| - 1]) + xs[|xs| - 1]
  }

  /** `Math.ceil(a / n)` for a positive `n`. */
  function CeilDiv(a: int, n: int): (q: int)
    requires n > 0
    ensures (q - 1) * n < a <= q * n
  {
    var d := (-a) / n;
    assert -a == d * n + (-a) % n;
    -d
  }

  /** The mean rating rounded up, or 0 without ratings. */
  function AvgRating(ratings: seq<int>): (avg: int)
    ensures ratings == [] ==> avg == 0
    ensures ratings != [] ==> (avg - 1) * |ratings| < Sum(ratings) <= avg * |ratings|
  {
    if ratings == [] then 0 else CeilDiv(Sum(ratings), |ratings|)
  }

  lemma {:induction false} SumBounds(xs: seq<int>, lo: int, hi: int)
    requires forall i :: 0 <= i < |xs| ==> lo <= xs[i] <= hi
    ensures |xs| * lo <= Sum(xs) <= |xs| * hi
  {
    if xs != [] {
      SumBounds(xs[..|xs| - 1], lo, hi);
      assert (|xs| - 1) * lo + lo == |xs| * lo;
      assert (|xs| - 1) * hi + hi == |xs| * hi;
    }
  }

  lemma MulMonotone(a: int, b: int, n: int)
    requires a <= b && n >= 0
    ensures a * n <= b * n
  {
  }

  /** With ratings between 1 and 5, the average shown is between 1 and 5. */
  lemma AvgRatingInRange(ratings: seq<int>)
    requires ratings != []
    requires forall i :: 0 <= i < |ratings| ==> 1 <= ratings[i] <= 5
    ensures 1 <= AvgRating(ratings) <= 5
  {
    var n := |ratings|;
    var avg := AvgRating(ratings);
    SumBounds(ratings, 1, 5);
    if avg > 5 {
      MulMonotone(5, avg - 1, n);
    }
    if avg < 1 {
      MulMonotone(avg, 0, n);
    }
  }

  /** The ratings of some reviews, in order. */
  function Ratings(rs: seq<Review>): (xs: seq<int>)
    ensures |xs| == |rs| && forall i :: 0 <= i < |rs| ==> xs[i] == rs[i].rating
  {
    seq(|rs|, i requires 0 <= i < |rs| => rs[i].rating)
  }

  // ---------------------------------------------------------------- listing

  /** A listed offer with its author's average rating. */
  datatype OfferCard = OfferCard(offer: ClassOffer, avgRating: int)

  /** Each offer with the average of all ratings its author received. */
  function Cards(db: Db, os: seq<ClassOffer>): (cs: seq<OfferCard>)
    requires Valid(db)
    ensures |cs| == |os|
    ensures forall i :: 0 <= i < |os| ==>
      cs[i].offer == os[i] && cs[i].avgRating == AvgRating(Ratings(TeacherReviews(db, os[i].authorId)))
  {
    seq(|os|, i requires 0 <= i < |os| => OfferCard(os[i], AvgRating(Ratings(TeacherReviews(db, os[i].authorId)))))
  }

  /** The offers a query selects, in insertion order (the query has no `orderBy`). */
  function Selected(db: Db, q: OfferQuery): (r: seq<ClassOffer>)
    requires Valid(db)
    ensures forall i :: 0 <= i < |r| ==> Selects(FilterOf(q), r[i]) && r[i].id in db.offers && db.offers[r[i].id] == r[i]
    ensures forall i, j :: 0 <= i < j < |r| ==> r[i].id < r[j].id
    ensures forall id :: id in db.offers && Selects(FilterOf(q), db.offers[id]) ==> db.offers[id] in r
  {
    OldestRows(db.offers, db.nextOfferId, (o: ClassOffer) => Selects(FilterOf(q), o), (o: ClassOffer) => o.id)
  }

  /** One page of the public listing. */
  function ClassOffersPage(db: Db, page: int, limit: int, q: OfferQuery): (r: seq<OfferCard>)
    requires Valid(db) && page >= 1 && limit >= 1
    ensures |r| <= limit
    ensures forall i :: 0 <= i < |r| ==>
      Selects(FilterOf(q), r[i].offer) && r[i].offer.id in db.offers && db.offers[r[i].offer.id] == r[i].offer &&
      r[i].avgRating == AvgRating(Ratings(TeacherReviews(db, r[i].offer.authorId)))
    ensures forall i, j :: 0 <= i < j < |r| ==> r[i].offer.id < r[j].offer.id
    ensures r == Cards(db, Window(Selected(db, q), page, limit))
  {
    var all := Selected(db, q);
    WindowKeeps(all, (o: ClassOffer) => Selects(FilterOf(q), o) && o.id in db.offers && db.offers[o.id] == o, page, limit);
    WindowKeepsAscending(all, (o: ClassOffer) => o.id, page, limit);
    Cards(db, Window(all, page, limit))
  }

  /** An author's offers that are not deleted. */
  function LiveOfAuthor(authorId: int): ClassOffer -> bool
  {
    (o: ClassOffer) => o.authorId == authorId && !o.isDeleted
  }

  /** Every live offer of an author, each once, newest first. */
  function AuthorLiveOffers(db: Db, authorId: int): (r: seq<ClassOffer>)
    requires Valid(db)
    ensures forall i :: 0 <= i < |r| ==>
      r[i].authorId == authorId && !r[i].isDeleted && r[i].id in db.offers && db.offers[r[i].id] == r[i]
    ensures forall i, j :: 0 <= i < j < |r| ==> r[i].id > r[j].id
    ensures forall id :: id in db.offers && db.offers[id].authorId == authorId && !db.offers[id].isDeleted ==>
      db.offers[id] in r
  {
    NewestRows(db.offers, db.nextOfferId, LiveOfAuthor(authorId), (o: ClassOffer) => o.id)
  }

  /** An author's own live offers, newest first, one page. */
  function MyClassOffers(db: Db, authorId: int, page: int, limit: int): (r: seq<OfferCard>)
    requires Valid(db) && page >= 1 && limit >= 1
    ensures |r| <= limit
    ensures forall i :: 0 <= i < |r| ==>
      r[i].offer.authorId == authorId && !r[i].offer.isDeleted &&
      r[i].offer.id in db.offers && db.offers[r[i].offer.id] == r[i].offer &&
      r[i].avgRating == AvgRating(Ratings(TeacherReviews(db, authorId)))
    ensures forall i, j :: 0 <= i < j < |r| ==> r[i].offer.id > r[j].offer.id
    ensures r == Cards(db, Window(AuthorLiveOffers(db, authorId), page, limit))
  {
    var keep := LiveOfAuthor(authorId);
    var all := AuthorLiveOffers(db, authorId);
    WindowKeeps(all, (o: ClassOffer) => keep(o) && o.id in db.offers && db.offers[o.id] == o, page, limit);
    WindowKeepsDescending(all, (o: ClassOffer) => o.id, page, limit);
    Cards(db, Window(all, page, limit))
  }

  // ----------------------------------------------------------------- detail

  /** A review as the detail view shows it. */
  datatype ReviewView = ReviewView(review: Review, reviewerName: string)

  const DeletedReviewerName := "Eliminado"

  /** A deleted reviewer is shown as "Eliminado", anyone else by username. */
  function ReviewerName(db: Db, r: Review): string
    requires r.reviewerId in db.users
  {
    if db.users[r.reviewerId].isDeleted then DeletedReviewerName else db.users[r.reviewerId].username
  }

  function Views(db: Db, rs: seq<Review>): (vs: seq<ReviewView>)
    requires forall i :: 0 <= i < |rs| ==> rs[i].reviewerId in db.users
    ensures |vs| == |rs|
    ensures forall i :: 0 <= i < |rs| ==> vs[i].review == rs[i] && vs[i].reviewerName == ReviewerName(db, rs[i])
  {
    seq(|rs|, i requires 0 <= i < |rs| && rs[i].reviewerId in db.users => ReviewView(rs[i], ReviewerName(db, rs[i])))
  }

  /** The reviews behind some views. */
  function ReviewsOf(vs: seq<ReviewView>): (rs: seq<Review>)
    ensures |rs| == |vs| && forall i :: 0 <= i < |vs| ==> rs[i] == vs[i].review
  {
    seq(|vs|, i requires 0 <= i < |vs| => vs[i].review)
  }

  /** Naming the reviewers changes neither the reviews nor their order. */
  lemma ViewsKeepReviews(db: Db, rs: seq<Review>)
    requires forall i :: 0 <= i < |rs| ==> rs[i].reviewerId in db.users
    ensures ReviewsOf(Views(db, rs)) == rs
  {
    var back := ReviewsOf(Views(db, rs));
    assert |back| == |rs|;
    assert forall i :: 0 <= i < |rs| ==> back[i] == rs[i];
  }

  /** A live offer with its author's average, one page of reviews and the author's availability. */
  datatype OfferDetail = OfferDetail(offer: ClassOffer, avgRating: int, reviews: seq<ReviewView>, availability: seq<Availability>)

  const MsgOfferNotFound := "Oferta de clase no encontrada"

  /** The slots an author offers, in insertion order. */
  function AuthorSlots(db: Db, userId: int): (r: seq<Availability>)
    requires Valid(db)
    ensures forall i :: 0 <= i < |r| ==> r[i].userId == userId && r[i].id in db.slots && db.slots[r[i].id] == r[i]
    ensures forall id :: id in db.slots && db.slots[id].userId == userId ==> db.slots[id] in r
  {
    OldestRows(db.slots, db.nextSlotId, (a: Availability) => a.userId == userId, (a: Availability) => a.id)
  }

  /**
   * A review of `authorId` as stored, shown under its reviewer's username, or
   * as "Eliminado" when the reviewer's account is deleted.
   */
  predicate ShownReview(db: Db, authorId: int, v: ReviewView)
  {
    && v.review.teacherId == authorId && v.review.id in db.reviews
    && db.reviews[v.review.id] == v.review && v.review.reviewerId in db.users
    && (db.users[v.review.reviewerId].isDeleted ==> v.reviewerName == DeletedReviewerName)
    && (!db.users[v.review.reviewerId].isDeleted ==> v.reviewerName == db.users[v.review.reviewerId].username)
  }

  /** One page of the reviews an author received, each with its reviewer's name. */
  function ReviewPage(db: Db, authorId: int, page: int, limit: int): (vs: seq<ReviewView>)
    requires Valid(db) && page >= 1 && limit >= 1
    ensures |vs| <= limit
    ensures forall i :: 0 <= i < |vs| ==> ShownReview(db, authorId, vs[i])
    ensures ReviewsOf(vs) == Window(TeacherReviews(db, authorId), page, limit)
  {
    var all := TeacherReviews(db, authorId);
    var keep := (v: Review) => v.teacherId == authorId && v.id in db.reviews && db.reviews[v.id] == v;
    WindowKeeps(all, keep, page, limit);
    var rs := Window(all, page, limit);
    assert forall i :: 0 <= i < |rs| ==> rs[i].reviewerId in db.users by {
      forall i | 0 <= i < |rs| ensures rs[i].reviewerId in db.users {
        assert keep(rs[i]);
      }
    }
    var vs := Views(db, rs);
    ViewsKeepReviews(db, rs);
    assert forall i :: 0 <= i < |vs| ==> ShownReview(db, authorId, vs[i]) by {
      forall i | 0 <= i < |vs| ensures ShownReview(db, authorId, vs[i]) {
        assert vs[i].review == rs[i] && keep(rs[i]);
      }
    }
    vs
  }

  /**
   * The detail of a live offer (404 otherwise). The average shown is taken
   * over the page of reviews returned, not over all of the author's reviews.
   */
  function GetClassOfferById(db: Db, classId: int, reviewsPage: int, reviewsLimit: int): (r: Result<OfferDetail>)
    requires Valid(db) && reviewsPage >= 1 && reviewsLimit >= 1
    ensures r.Err? <==> !LiveOffer(db, classId)
    ensures r.Err? ==> r.error == HttpError(404, MsgOfferNotFound)
    ensures r.Ok? ==> r.value.offer == db.offers[classId]
    ensures r.Ok? ==> |r.value.reviews| <= reviewsLimit
    ensures r.Ok? ==> forall i :: 0 <= i < |r.value.reviews| ==>
      ShownReview(db, db.offers[classId].authorId, r.value.reviews[i])
    ensures r.Ok? ==> r.value.avgRating == AvgRating(Ratings(ReviewsOf(r.value.reviews)))
    ensures r.Ok? ==>
      ReviewsOf(r.value.reviews) == Window(TeacherReviews(db, db.offers[classId].authorId), reviewsPage, reviewsLimit)
    ensures r.Ok? ==> r.value.availability == AuthorSlots(db, db.offers[classId].authorId)
  {
    if !LiveOffer(db, classId) then Err(HttpError(404, MsgOfferNotFound))
    else
      var offer := db.offers[classId];
      var views := ReviewPage(db, offer.authorId, reviewsPage, reviewsLimit);
      Ok(OfferDetail(offer, AvgRating(Ratings(ReviewsOf(views))), views, AuthorSlots(db, offer.authorId)))
  }

  // ----------------------------------------------------------------- create

  /** The body the create service receives; the price is a JavaScript number. */
  datatype OfferBody = OfferBody(title: string, description: string, price: real, category: Option<Category>, authorId: int)

  const MsgCreateFailed := "Error interno en el servidor."
  const MsgServerError := "Error interno del servidor"

  /** The database stores whole prices only. */
  predicate Whole(x: real)
  {
    x == x.Floor as real
  }

  /**
   * Publishing an offer: it is linked to an existing author, gets the given
   * category or the default one, and starts live. Any database error (an
   * unknown author, a price that is not whole) is a 500 that writes nothing.
   */
  function CreateClassOffer(db: Db, body: OfferBody): (s: Step<ClassOffer>)
    requires Valid(db)
    ensures Valid(s.db)
    ensures s.result.Ok? <==> body.authorId in db.users && Whole(body.price)
    ensures s.result.Err? ==> s.db == db && s.result.error == HttpError(500, MsgCreateFailed)
    ensures s.result.Ok? ==>
      var o := s.result.value;
      && o.id == db.nextOfferId && db.nextOfferId !in db.offers
      && o.title == body.title && o.description == body.description && o.price as real == body.price
      && o.category == (if body.category.Some? then body.category.value else DefaultCategory)
      && o.authorId == body.authorId && !o.isDeleted
      && s.db == db.(offers := db.offers[o.id := o], nextOfferId := db.nextOfferId + 1)
  {
    if body.authorId !in db.users || !Whole(body.price) then Step(Err(HttpError(500, MsgCreateFailed)), db)
    else
      var o := ClassOffer(db.nextOfferId, body.title, body.description, body.price.Floor,
                          if body.category.Some? then body.category.value else DefaultCategory,
                          body.authorId, false);
      NewOfferKeepsValid(db, o);
      Step(Ok(o), db.(offers := db.offers[o.id := o], nextOfferId := db.nextOfferId + 1))
  }

  method CreateClassOfferService(store: Database, body: OfferBody) returns (r: Result<ClassOffer>)
    requires Valid(store.Model())
    modifies store
    ensures Step(r, store.Model()) == CreateClassOffer(old(store.Model()), body)
  {
    if body.authorId !in store.users || !Whole(body.price) {
      return Err(HttpError(500, MsgCreateFailed));
    }
    var o := ClassOffer(store.nextOfferId, body.title, body.description, body.price.Floor,
                        if body.category.Some? then body.category.value else DefaultCategory,
                        body.authorId, false);
    store.offers := store.offers[o.id := o];
    store.nextOfferId := store.nextOfferId + 1;
    r := Ok(o);
  }

  /** A new offer is shown by id and heads its author's own listing. */
  lemma CreatedOfferIsShown(db: Db, body: OfferBody, limit: int)
    requires Valid(db) && limit >= 1
    requires CreateClassOffer(db, body).result.Ok?
    ensures var s := CreateClassOffer(db, body);
      && GetClassOfferById(s.db, s.result.value.id, 1, limit).Ok?
      && GetClassOfferById(s.db, s.result.value.id, 1, limit).value.offer == s.result.value
      && MyClassOffers(s.db, body.authorId, 1, limit) != []
      && MyClassOffers(s.db, body.authorId, 1, limit)[0].offer == s.result.value
  {
    var s := CreateClassOffer(db, body);
    var o := s.result.value;
    var keep := (x: ClassOffer) => x.authorId == body.authorId && !x.isDeleted;
    var all := NewestRows(s.db.offers, s.db.nextOfferId, keep, (x: ClassOffer) => x.id);
    assert o in all;
    var k :| 0 <= k < |all| && all[k] == o;
    assert all[0].id >= o.id;
    assert all[0].id in s.db.offers;
  }

  // ------------------------------------------------------------------- edit

  /** The fields an edit supplies; absent ones keep their value. */
  datatype OfferEdit = OfferEdit(title: Option<string>, description: Option<string>, price: Option<real>, category: Option<Category>)

  function OfferNotFound(id: int): HttpError
  {
    HttpError(404, "No existe una oferta de clase con id " + IntToString(id) + ".")
  }

  const MsgNotOwner := "El recurso no pertenece al usuario."

  /** The offer with the supplied fields replaced. */
  function Edited(o: ClassOffer, e: OfferEdit): (n: ClassOffer)
    requires e.price.Some? ==> Whole(e.price.value)
  {
    o.(title := if e.title.Some? then e.title.value else o.title,
       description := if e.description.Some? then e.description.value else o.description,
       price := if e.price.Some? then e.price.value.Floor else o.price,
       category := if e.category.Some? then e.category.value else o.category)
  }

  /**
   * The author edits an offer: 404 when no offer has the id (a soft-deleted
   * one is still found), 401 for someone else's; a price that is not whole
   * fails in the database (500). Only the supplied fields change.
   */
  function EditClassOffer(db: Db, userId: int, id: int, e: OfferEdit): (s: Step<ClassOffer>)
    requires Valid(db)
    ensures Valid(s.db)
    ensures s.result.Err? ==> s.db == db
    ensures s.result == Err(OfferNotFound(id)) <==> id !in db.offers
    ensures StatusOf(s.result) == 401 <==> id in db.offers && db.offers[id].authorId != userId
    ensures s.result.Ok? <==>
      id in db.offers && db.offers[id].authorId == userId && (e.price.Some? ==> Whole(e.price.value))
    ensures s.result.Ok? ==>
      var o := db.offers[id];
      var n := s.result.value;
      && n.id == o.id && n.authorId == o.authorId && n.isDeleted == o.isDeleted
      && n.title == (if e.title.Some? then e.title.value else o.title)
      && n.description == (if e.description.Some? then e.description.value else o.description)
      && (e.price.Some? ==> n.price as real == e.price.value) && (e.price.None? ==> n.price == o.price)
      && n.category == (if e.category.Some? then e.category.value else o.category)
      && s.db == db.(offers := db.offers[id := n])
  {
    if id !in db.offers then Step(Err(OfferNotFound(id)), db)
    else if db.offers[id].authorId != userId then Step(Err(HttpError(401, MsgNotOwner)), db)
    else if e.price.Some? && !Whole(e.price.value) then Step(Err(HttpError(500, MsgServerError)), db)
    else
      var n := Edited(db.offers[id], e);
      Step(Ok(n), db.(offers := db.offers[id := n]))
  }

  method EditClassOfferService(store: Database, userId: int, id: int, e: OfferEdit) returns (r: Result<ClassOffer>)
    requires Valid(store.Model())
    modifies store
    ensures Step(r, store.Model()) == EditClassOffer(old(store.Model()), userId, id, e)
  {
    if id !in store.offers {
      return Err(OfferNotFound(id));
    }
    if store.offers[id].authorId != userId {
      return Err(HttpError(401, MsgNotOwner));
    }
    if e.price.Some? && !Whole(e.price.value) {
      return Err(HttpError(500, MsgServerError));
    }
    var n := Edited(store.offers[id], e);
    store.offers := store.offers[id := n];
    r := Ok(n);
  }

  /** Repeating an edit changes nothing more. */
  lemma EditIdempotent(db: Db, userId: int, id: int, e: OfferEdit)
    requires Valid(db)
    ensures var once := EditClassOffer(db, userId, id, e);
      EditClassOffer(once.db, userId, id, e).db == once.db
  {
  }

  // ---------------------------------------------------------------- destroy

  /**
   * The author soft-deletes a live offer: 404 when there is no live offer
   * with the id (so deleting twice fails), 401 for someone else's; only the
   * deleted flag changes.
   */
  function DestroyClassOffer(db: Db, userId: int, id: int): (s: Step<ClassOffer>)
    requires Valid(db)
    ensures Valid(s.db)
    ensures s.result.Err? ==> s.db == db
    ensures s.result == Err(OfferNotFound(id)) <==> !LiveOffer(db, id)
    ensures StatusOf(s.result) == 401 <==> LiveOffer(db, id) && db.offers[id].authorId != userId
    ensures s.result.Ok? <==> LiveOffer(db, id) && db.offers[id].authorId == userId
    ensures s.result.Ok? ==>
      s.result.value == db.offers[id].(isDeleted := true) &&
      s.db == db.(offers := db.offers[id := s.result.value])
  {
    if !LiveOffer(db, id) then Step(Err(OfferNotFound(id)), db)
    else if db.offers[id].authorId != userId then Step(Err(HttpError(401, MsgNotOwner)), db)
    else
      var n := db.offers[id].(isDeleted := true);
      Step(Ok(n), db.(offers := db.offers[id := n]))
  }

  method DestroyClassOfferService(store: Database, userId: int, id: int) returns (r: Result<ClassOffer>)
    requires Valid(store.Model())
    modifies store
    ensures Step(r, store.Model()) == DestroyClassOffer(old(store.Model()), userId, id)
  {
    if id !in store.offers || store.offers[id].isDeleted {
      return Err(OfferNotFound(id));
    }
    if store.offers[id].authorId != userId {
      return Err(HttpError(401, MsgNotOwner));
    }
    var n := store.offers[id].(isDeleted := true);
    store.offers := store.offers[id := n];
    r := Ok(n);
  }

  /** After a delete the offer is gone from the detail view and from every page of the listing, and a second delete fails. */
  lemma DestroyedOfferIsHidden(db: Db, userId: int, id: int, page: int, limit: int, q: OfferQuery)
    requires Valid(db) && page >= 1 && limit >= 1
    requires DestroyClassOffer(db, userId, id).result.Ok?
    ensures var db1 := DestroyClassOffer(db, userId, id).db;
      && GetClassOfferById(db1, id, page, limit) == Err(HttpError(404, MsgOfferNotFound))
      && (forall i :: 0 <= i < |ClassOffersPage(db1, page, limit, q)| ==> ClassOffersPage(db1, page, limit, q)[i].offer.id != id)
      && DestroyClassOffer(db1, userId, id) == Step(Err(OfferNotFound(id)), db1)
  {
  }
}
