# Tutoring marketplace backend — service and validation layer in Dafny

This project models the request-handling core of a tutoring-marketplace REST
backend. Students book classes that teachers publish, pay for them through a
payment provider on the teacher's own account, confirm them with a code, and
review teachers. The model covers:

- the **booking lifecycle** of a class request (`Created`, `PaymentPending`,
  `Paid`, `Approved`, `Rejected`, `PaymentRefunded`): creation with its
  duplicate-slot and self-booking checks, the teacher's decision, the direct
  state update, deletion, the confirmation-code handshake, and the listings
  with the payment preference attached to each request;
- **payments**: preference creation on the teacher's provider account,
  get-or-create of the preference a student should pay, the transaction
  status update, the refund guard, and the provider redirect that marks a
  request paid and issues a four-digit confirmation code;
- the teacher's **OAuth credential** bookkeeping: token creation, refresh and
  the status check, with times as integer milliseconds and strict expiry;
- the **entity tables** with their ownership, soft-delete and uniqueness rules:
  class offers (filters, average rating, create, edit, soft delete), reviews
  (one per reviewer and teacher), availability slots (unique teacher, day and
  slot), account soft-delete cascading to the author's offers, and the
  profile's partial update;
- the **request validators** of the controllers (registration, class offer,
  availability, review, class request, profile), page normalisation, and the
  **middleware** decisions (token presence, role membership, suspended
  account), plus login.

## How the model is built

- `Tables.Db` is a snapshot of every table: maps keyed by id plus the
  auto-increment counters. `Tables.Valid` states that keys, ids and counters
  agree and that the unique constraints hold.
- `Tables.Database` is the class whose fields the services update in place.
- Each service is a pure function `F(db, ...)` returning a `Step`: the
  `Result` (a value or an `HttpError(status, message)`) together with the
  tables after the call. Its contract states:
  - which status each guard answers and under which condition (both directions);
  - that a failure changes nothing;
  - the exact new tables on success;
  - that `Valid` is preserved.
- Where the source mutates the database, a method
  `FService(store: Database, ...)` performs the updates on the class's fields
  step by step. Its contract ties the returned result and the new state to
  `F(old(store.Model()), ...)`.
- The listing loop over a student's requests is a `while` loop with
  invariants (`ClassRequests.AnnotateLoop`).
- Controllers are pure functions over raw JavaScript values (`Js.JsValue`:
  undefined, null, booleans, numbers, NaN, strings). They reproduce
  JavaScript truthiness, `parseInt`, `Number()` and `Number.isInteger`, as
  far as the checks need them.
- Calls to the outside world are parameters:
  - the payment provider's answers are `Reply<...>` oracles;
  - `jwt.verify` is a function to a `Verdict`;
  - `bcrypt.compare` is a boolean function;
  - the clock is a `now` parameter in milliseconds;
  - `Math.random()` is a `draw` with `0 <= draw < 9000`;
  - a rejected database write is an optional `WriteFailure`.

Where the documented intent and the code disagree, the model follows the code:

- `refundPaymentService` accepts `Paid` and also `Rejected` requests (it only
  refuses `Created`, `PaymentPending`, `Approved` and `PaymentRefunded`).
  It never writes `PaymentRefunded`: the request and its transactions are
  left as they are.
- `confirmClassService` moves a request to `Approved` from any state, not
  only from `Paid`.
- The preference's back URLs carry the class offer's id, not the class
  request's.

## Model

| member | source | states |
|---|---|---|
| Tables.ParseState | src/services/classRequestService.ts:374-376 | a state label maps to a state exactly when it is that state's name, so a label is written verbatim or not at all |
| Tables.LatestWithStatus | src/services/classRequestService.ts:176-184 | the newest transaction whose status is in the set, or none exactly when no transaction has such a status |
| Text.ParseIntIntToString | src/controllers/availabilityController.ts:93 | `parseInt(s, 10)` of the decimal form of an id gives back that id |
| Js.NumberOfIntToString | src/controllers/profileController.ts:34 | `Number()` of the decimal form of an id gives back that id |
| Text.ParseIntAuto | src/controllers/reviewsController.ts:15 | radix-less `parseInt` agrees with radix 10 unless a `0x` or `0X` follows the sign, and then it is a number exactly when a hexadecimal digit follows the prefix |
| Js.NumberOfString | src/controllers/classOfferController.ts:139 | `Number()` of a blank string is 0 |
| Js.ToNumber | src/controllers/classRequestController.ts:114 | `Number()` keeps a number, and gives NaN for NaN and `undefined` |
| Text.ParseIntAutoIntToString | src/middlewares/authMiddleware.ts:114 | `parseInt` without a radix of the decimal form of an id gives back that id, so the hexadecimal reading never applies to it |
| Text.HexReadsDifferently | src/controllers/reviewsController.ts:15 | without a radix `"0x1A"` reads as 26, where radix 10 reads it as 0 |
| Text.BareHexPrefixIsNaN | src/controllers/reviewsController.ts:78 | without a radix a bare `"0x"` is NaN, where radix 10 reads it as 0 |
| Js.NumberOfFraction | src/controllers/classRequestController.ts:151 | `Number("1.5")` is 1.5, not NaN |
| Js.NumberOfHex | src/controllers/classOfferController.ts:139 | `Number("0x10")` is 16 and `Number("-0x10")` is NaN |
| Text.TrimEmptyIffAllSpace | src/controllers/classOfferController.ts:16-19 | a string is blank after `trim()` exactly when it is all white space |
| Text.TrimIdempotent | src/controllers/registerController.ts:104 | trimming twice is trimming once |
| Text.ToLowerIdempotent | src/controllers/registerController.ts:104 | lowercasing twice is lowercasing once |
| Text.JoinSplit | src/controllers/availabilityController.ts:124 | joining the pieces of `split(',')` with commas gives the query back |
| Text.SplitJoin | src/controllers/availabilityController.ts:124 | splitting comma-joined comma-free pieces gives the pieces back |
| Text.SplitCount | src/controllers/availabilityController.ts:124 | `split(',')` yields one more piece than there are commas |
| Paging.PageRequestOf | src/controllers/classRequestController.ts:79-82 | page and limit are always at least 1; each is the query value read by radix-less `parseInt` (so `0x` means hexadecimal) when that is positive, otherwise the default |
| Paging.DefaultPageRequest | src/controllers/classOfferController.ts:42-45 | absent, unparsable or non-positive page and limit give page 1 and limit 10 |
| Paging.HexPageParameter | src/controllers/classOfferController.ts:42-43 | page `"0x2"` is page 2, and limit `"0x"` is NaN and falls back to 10 |
| Paging.SkipIsProduct | src/services/reviewsServices.ts:65 | the offset skipped is `(page - 1) * limit` |
| Paging.Window | src/services/reviewsServices.ts:74-80 | a page holds at most `limit` rows: the rows from the offset onwards, in order |
| Paging.FirstPagesArePrefix | src/services/reviewsServices.ts:65-80 | the first k pages together are the first `k * limit` rows |
| ClassRequests.CreateClassRequest | src/services/classRequestService.ts:59-147 | 404 iff the offer is missing or soft-deleted; 403 iff the student is its author; 409 iff a request of theirs in any state books the same offer, day and slot; otherwise exactly one request is added, with the offer's current price and the next id; failures write nothing |
| ClassRequests.CreateFromRawBody | src/services/classRequestService.ts:59-147 | with an integer day and slot it is `CreateClassRequest`; otherwise nothing is written and: 404 iff the offer is missing or deleted, 403 iff it is the student's own, 409 iff day and slot are each absent or an integer and some request of the student on the offer agrees with the ones given, and 500 "Error al crear la reserva" in every other case (text, fraction, null, or no match) |
| ClassRequests.MissingSlotConflictsWithAnySlot | src/services/classRequestService.ts:84-99 | without a slot, any earlier request of the student on a live offer of someone else with the same day is a 409, whatever its slot |
| ClassRequests.CreateClassRequestService | src/services/classRequestService.ts:59-147 | inserts the request into the store as `CreateClassRequest` says |
| ClassRequests.SecondBookingConflicts | src/services/classRequestService.ts:85-99 | booking the same slot again right after a success answers 409 and writes nothing |
| ClassRequests.CreateKeepsBookingsUnique | src/services/classRequestService.ts:85-109 | creation keeps (offer, student, day, slot) unique among requests |
| ClassRequests.AcceptClass | src/services/classRequestService.ts:498-516 | succeeds iff the request exists; only its state changes, to PaymentPending on accept and Rejected otherwise; a missing request is 500 and changes nothing |
| ClassRequests.AcceptClassService | src/services/classRequestService.ts:498-516 | writes the decision into the store as `AcceptClass` says |
| ClassRequests.ConfirmClass | src/services/classRequestService.ts:523-549 | 404 iff the request has no transaction; 400 iff the code differs from the newest transaction's code (a missing code never matches); otherwise only the state changes, to Approved, whatever it was |
| ClassRequests.ConfirmClassService | src/services/classRequestService.ts:523-549 | writes the confirmation into the store as `ConfirmClass` says |
| ClassRequests.UpdateClassRequestState | src/services/classRequestService.ts:342-411 | 404 iff the request is missing; 403 iff the caller is not the offer's author; succeeds iff the offer is live, the caller authors it and the label names a state, and then only that request's state changes, to the label given; every failure leaves the tables as they were |
| ClassRequests.UpdateClassRequestStateService | src/services/classRequestService.ts:342-411 | writes the state into the store as `UpdateClassRequestState` says |
| ClassRequests.DeleteClassRequest | src/services/classRequestService.ts:694-719 | 404 iff the request is missing; 401 iff it is another student's; succeeds iff it is the caller's and has no transactions (a foreign key from transactions is assumed to restrict the delete), and then exactly that request is removed |
| ClassRequests.DeleteClassRequestService | src/services/classRequestService.ts:694-719 | removes the request from the store as `DeleteClassRequest` says |
| ClassRequests.RequestsNewestFirst | src/services/classRequestService.ts:204-206 | every stored request that passes the filter, and only those, newest first |
| ClassRequests.WindowOfNewestFirstRows | src/services/classRequestService.ts:204-208 | every row of a page of a newest-first listing is a stored request that passes the filter |
| ClassRequests.WindowOfNewestFirstOrder | src/services/classRequestService.ts:204-208 | a page of a newest-first listing is newest first |
| ClassRequests.ClassRequestById | src/services/classRequestService.ts:551-591 | the stored request with that id, or 404 exactly when there is none |
| ClassRequests.ClassRequestsByClass | src/services/classRequestService.ts:421-491 | 404 iff the offer is missing or deleted; 403 iff it is someone else's; otherwise exactly the requested page of all of that offer's stored requests, newest first |
| ClassRequests.TutorClassRequests | src/services/classRequestService.ts:275-331 | exactly the requested page of all stored requests on the teacher's live offers, newest first |
| ClassRequests.TutorListStartsWithNewest | src/services/classRequestService.ts:284-319 | the first page starts with the teacher's newest request on a live offer |
| ClassRequests.PreferenceDecisionFor | src/services/classRequestService.ts:213-238 | no preference iff the request is not PaymentPending; a new one iff it is and no transaction is pending or approved; otherwise the newest such transaction's preference is fetched |
| ClassRequests.FetchStored | src/services/classRequestService.ts:226-237 | a stored preference is fetched, by the transaction's preference id, exactly when the teacher has a credential and the provider answers |
| ClassRequests.AnnotateOne | src/services/classRequestService.ts:213-252 | the listed request keeps its row; with no preference due it carries none; with a pending or approved transaction it carries the fetched stored preference, and fails with the given error when that fetch fails; otherwise it carries a newly created one; only payment tables may change, and only when a preference is created |
| ClassRequests.AnnotateOneCreates | src/services/classRequestService.ts:218-220 | when a preference must be created, the iteration is exactly `createPreferenceService` for that request: its tables, its error, or its preference attached |
| ClassRequests.AnnotateAll | src/services/classRequestService.ts:213-253 | a success lists every request in order, each with the preference its payment state calls for; a failure is the failure of one request's iteration; only payment tables change |
| ClassRequests.AnnotateAllFirst | src/services/classRequestService.ts:213-253 | the listing is its first iteration followed by the listing of the rest; a failure in the first iteration ends it |
| ClassRequests.AnnotateOneService | src/services/classRequestService.ts:213-252 | one loop iteration against the store, as `AnnotateOne` says |
| ClassRequests.AnnotateLoop | src/services/classRequestService.ts:213-253 | the `for` loop over the listed requests, run against the store, produces what `AnnotateAll` says |
| ClassRequests.UserWindow | src/services/classRequestService.ts:164-209 | exactly the requested page of all of the student's stored requests, newest first |
| ClassRequests.UserRequestsInOffer | src/services/classRequestService.ts:594-638 | exactly the student's stored requests on that offer, in insertion order |
| ClassRequests.GetUserClassRequests | src/services/classRequestService.ts:158-265 | one entry per request of the requested page of the student's requests, in order; each carries the preference its payment state calls for (none unless PaymentPending, the stored one fetched, or a new one); only payment tables change; a failure is some page row's own failure: its preference creation's error, or 500 "Error al obtener las reservas del usuario" when its stored preference cannot be fetched |
| ClassRequests.GetUserClassRequestService | src/services/classRequestService.ts:158-265 | runs the listing against the store as `GetUserClassRequests` says |
| ClassRequests.GetUserReqInClassOffer | src/services/classRequestService.ts:594-691 | one entry per request of the student on the offer, in order, each with the preference its payment state calls for; only payment tables change; a failure is some request's own failure: its preference creation's error, or 500 when its stored preference cannot be fetched |
| ClassRequests.GetUserReqInClassOfferService | src/services/classRequestService.ts:594-691 | runs the listing against the store as `GetUserReqInClassOffer` says |
| ClassRequestController.ValidateCreateBody | src/controllers/classRequestController.ts:16-19 | passes iff `classOfferId` is truthy (0 is refused), otherwise 400 "El campo 'classOfferId' es obligatorio" |
| ClassRequestController.CreateReservation | src/controllers/classRequestController.ts:24-36 | a falsy offer id is 400 before the service; a truthy non-integer one makes the service's query throw, answered with the service's own 500 "Error al crear la reserva"; otherwise the service decides on the day and slot as posted (`CreateFromRawBody`), and a success is answered with the reservation |
| ClassRequestController.RepeatedReservationConflicts | src/controllers/classRequestController.ts:24-36 | posting the same booking twice: the second answer is 409 and stores nothing |
| ClassRequestController.StateLabel | src/controllers/classRequestController.ts:113-125 | a string state is passed on as is; any other value names no state |
| ClassRequestController.UpdateClassRequestStateController | src/controllers/classRequestController.ts:111-142 | a NaN request id is 400; a falsy state is 400; a number that is not whole is 500; otherwise the service decides |
| ClassRequestController.UnknownStateChangesNothing | src/controllers/classRequestController.ts:111-142 | a state label that names no state is refused and leaves the tables as they were |
| ClassRequestController.ClassRequestsByClassController | src/controllers/classRequestController.ts:148-184 | a class id `Number()` reads as NaN is 400 before any lookup; a number that is not whole (`"1.5"`) is 500; otherwise the normalised page of the service |
| ClassRequestController.FractionalClassIdFails | src/controllers/classRequestController.ts:151-166 | class id `"1.5"` passes the NaN check and is answered with 500 |
| ClassRequestController.TutorClassRequestsController | src/controllers/classRequestController.ts:76-106 | page and limit are the normalised query values, and the data is exactly that page of the teacher's requests |
| OAuth.RenewedIsFresh | src/services/transactionService.ts:223-226 | a renewed credential is for the same user; its access token is valid until `now + expires_in * 1000` and its refresh token for the following 180 days |
| OAuth.RefreshGuard | src/services/transactionService.ts:356-363 | passes iff the user exists, has a credential and the refresh token has not expired; 404 iff the user is missing; 400 otherwise |
| OAuth.RefreshOAuthToken | src/services/transactionService.ts:347-404 | a failed guard is answered as is; succeeds iff the guard passes and the provider returns all three fields; then only the user's credential changes, to the renewed one; a failure writes nothing |
| OAuth.RefreshOAuthTokenService | src/services/transactionService.ts:347-404 | updates the credential in the store as `RefreshOAuthToken` says |
| OAuth.CreateOAuthToken | src/services/transactionService.ts:206-252 | succeeds iff the provider returns all three fields and the user exists or already has a credential; then the credential is upserted with the renewed expirations; every failure is 500 and writes nothing |
| OAuth.CreateOAuthTokenService | src/services/transactionService.ts:206-252 | upserts the credential in the store as `CreateOAuthToken` says |
| OAuth.CheckDecisionOf | src/services/transactionService.ts:305-333 | linked iff the user exists, has a credential and the access token is unexpired; a refresh is attempted only when the refresh guard would pass; re-linking is asked for only when it would fail |
| OAuth.CheckOAuth | src/services/transactionService.ts:301-345 | reports OAuth (200) exactly when the token is valid or was refreshed; 404 with "Usuario no encontrado" exactly when the user is missing; 400 with the not-linked message without a credential and with the relink message when both tokens expired; writes only through the refresh, and any refresh failure is 500 |
| OAuth.CheckOAuthService | src/services/transactionService.ts:301-345 | runs the check against the store as `CheckOAuth` says |
| OAuth.CheckAfterRefreshIsLinked | src/services/transactionService.ts:316-333 | after a check that refreshed, the user stays linked until the new access token expires |
| OAuth.CheckNeverReportsRefreshableAsUnlinked | src/services/transactionService.ts:316-345 | a user whose refresh token is still valid is never told to re-link |
| Payments.BackUrlUnderWebhook | src/services/transactionService.ts:90-94 | each back URL lies under `backend_url/transactions/wh/<outcome>/` |
| Payments.PreferenceChargesOffer | src/services/transactionService.ts:95-105 | one item, quantity 1, at the offer's current price, titled as the offer, whose id is the request's id; no marketplace fee; auto-return on approval |
| Payments.PreferenceReturnsToWebhook | src/services/transactionService.ts:90-94 | the success, failure and pending URLs lie under the matching webhook paths |
| Payments.PreferenceGuard | src/services/transactionService.ts:37-78 | passes iff the request exists, is the caller's, its offer exists, the author is not the caller and has a credential; 403 iff the request is another student's |
| Payments.CreatePreference | src/services/transactionService.ts:32-130 | a failed guard changes nothing; succeeds iff the guard passes, an expired teacher token refreshes, and the provider returns an id; then exactly one pending transaction with that preference id is appended, and the call uses the token read before the refresh; a failure adds no transaction; a failing refresh returns its own error and changes nothing; once any refresh succeeded, the credentials are the refreshed ones (kept even when the provider then fails) or unchanged when none was needed; a throwing provider call is 500 "Error al crear la preferencia de pago" and an answer without an id is 500 "No se pudo crear la preferencia de pago" |
| Tables.AppendTxKeepsValid | src/services/transactionService.ts:113-118 | filing a new transaction, under the next id, with an existing request keeps the tables valid |
| Payments.CreatePreferenceService | src/services/transactionService.ts:32-130 | appends the transaction in the store as `CreatePreference` says |
| Payments.GetPreference | src/services/transactionService.ts:133-203 | 404 for a missing request, 403 for another student's; with a pending transaction nothing is written and the answer is `FetchPending`'s; otherwise the tables are `CreatePreference`'s, its error is returned as is, and on success its transaction with the preference it built |
| Payments.FetchPending | src/services/transactionService.ts:179-203 | succeeds iff the offer, its teacher's credential and the provider's answer are all there; then the transaction, its status and the stored preference read with the teacher's access token; otherwise 500 "Error al obtener la preferencia de pago" |
| Payments.GetPreferenceService | src/services/transactionService.ts:133-203 | runs the get-or-create against the store as `GetPreference` says |
| Payments.CreateViewService | src/services/transactionService.ts:173-178 | the branch without a pending transaction: runs the preference creation against the store as `GetPreference` says for that case |
| Payments.GetPreferenceCreatesOnce | src/services/transactionService.ts:150-197 | after a successful call, a second call writes nothing and returns the same transaction |
| Payments.UpdateTransaction | src/services/transactionService.ts:255-298 | 404 iff the request or its transactions are missing; 403 iff it is another student's; otherwise only the newest transaction's status changes |
| Payments.UpdateTransactionService | src/services/transactionService.ts:255-298 | updates the transaction in the store as `UpdateTransaction` says |
| Payments.RefundPayment | src/services/transactionService.ts:407-455 | succeeds iff the request is the caller's, is Paid or Rejected, and its newest transaction has a payment id, which is what is refunded; 404 iff it is missing; 403 iff it is another student's; nothing is written |
| Payments.ConfirmCodeIsFourDigits | src/services/transactionService.ts:473 | the confirmation code is four digits, not starting with 0, worth `draw + 1000` |
| Payments.RedirectHandler | src/services/transactionService.ts:458-489 | 404 "No se encontro transaccion para la class request con id " and the id iff the request has no transaction, writing nothing; otherwise only the newest transaction gets the payment id, status and code, the request becomes Paid whatever its state, and no other table or counter changes |
| Payments.RedirectHandlerService | src/services/transactionService.ts:458-489 | updates the transaction and the request in the store as `RedirectHandler` says |
| ClassOffers.FilterOf | src/services/classOfferServices.ts:66-78 | every listing filter excludes soft-deleted offers |
| ClassOffers.FilterMeaning | src/services/classOfferServices.ts:56-78 | an offer is selected iff it is live, its title contains the query title ignoring case, its category matches, and its price equals a given exact price or else lies within the given minimum and maximum |
| ClassOffers.CeilDiv | src/services/classOfferServices.ts:106-112 | the integer ceiling of a quotient |
| ClassOffers.AvgRating | src/services/classOfferServices.ts:106-112 | 0 with no ratings, otherwise the ceiling of the mean |
| ClassOffers.AvgRatingInRange | src/services/classOfferServices.ts:106-112 | ratings in 1..5 average to a value in 1..5 |
| ClassOffers.Cards | src/services/classOfferServices.ts:100-113 | each offer with its author's average rating, in order |
| ClassOffers.Selected | src/services/classOfferServices.ts:66-83 | exactly the stored offers the filter selects, by ascending id |
| ClassOffers.ClassOffersPage | src/services/classOfferServices.ts:49-131 | exactly the requested page of all selected stored offers by ascending id, each with its author's average rating |
| ClassOffers.AuthorLiveOffers | src/services/classOfferServices.ts:333-345 | every live offer of the author, each once, newest first |
| ClassOffers.MyClassOffers | src/services/classOfferServices.ts:327-392 | exactly the requested page of all of the author's live offers, newest first, each with the author's average |
| ClassOffers.AuthorSlots | src/services/classOfferServices.ts:159 | exactly the author's availability slots |
| ClassOffers.GetClassOfferById | src/services/classOfferServices.ts:134-223 | 404 iff the offer is missing or deleted; otherwise the offer, exactly the requested page of its author's reviews with "Eliminado" as name iff the reviewer is deleted, the average over that page only, and all of the author's slots |
| ClassOffers.ReviewPage | src/services/classOfferServices.ts:160-190 | exactly the requested page of the author's reviews, each named "Eliminado" exactly when its reviewer is deleted |
| ClassOffers.CreateClassOffer | src/services/classOfferServices.ts:226-243 | succeeds iff the author exists and the price is whole; the new live offer carries the body's fields, the given category or the default, and the next id; a failure is 500 and writes nothing |
| Tables.NewOfferKeepsValid | src/services/classOfferServices.ts:230-238 | filing a new offer under the next id keeps the tables valid |
| ClassOffers.CreateClassOfferService | src/services/classOfferServices.ts:226-243 | inserts the offer in the store as `CreateClassOffer` says |
| ClassOffers.CreatedOfferIsShown | src/services/classOfferServices.ts:226-243 | a created offer is found by id and heads the author's own listing |
| ClassOffers.EditClassOffer | src/services/classOfferServices.ts:246-280 | 404 iff no offer has the id (soft-deleted ones are found); 401 iff it is someone else's; a price that is not whole is refused; otherwise only the supplied fields change |
| ClassOffers.EditClassOfferService | src/services/classOfferServices.ts:246-280 | updates the offer in the store as `EditClassOffer` says |
| ClassOffers.EditIdempotent | src/services/classOfferServices.ts:268 | applying the same edit twice gives the tables of one |
| ClassOffers.DestroyClassOffer | src/services/classOfferServices.ts:283-319 | 404 iff the offer is missing or already deleted; 401 iff it is someone else's; otherwise only its `isDeleted` becomes true |
| ClassOffers.DestroyClassOfferService | src/services/classOfferServices.ts:283-319 | flags the offer in the store as `DestroyClassOffer` says |
| ClassOffers.DestroyedOfferIsHidden | src/services/classOfferServices.ts:283-319 | a deleted offer is 404 by id, absent from every listing page, and a second delete is 404 |
| ClassOfferController.BlankAfterTrim | src/controllers/classOfferController.ts:16-19 | a string is kept iff it is not all white space; a value that is neither undefined, null nor a string makes `trim` throw |
| ClassOfferController.CategoryOf | src/services/classOfferServices.ts:7-14 | a category is recognised exactly when the string is one of the listed names |
| ClassOfferController.ValidateClassOfferBody | src/controllers/classOfferController.ts:15-26 | passes iff title and description are not blank, the price is a non-zero number and a truthy category is listed; a blank title is refused first, then a blank description |
| ClassOfferController.SanitizedOfferBody | src/controllers/classOfferController.ts:100-108 | the body keeps title, description and price, the caller as author, and a category only when one is given |
| ClassOfferController.CreateClassOfferController | src/controllers/classOfferController.ts:94-113 | a failed check is answered and writes nothing; otherwise the service runs on the sanitised body |
| ClassOfferController.CreatedOfferBelongsToCaller | src/controllers/classOfferController.ts:94-113 | a created offer belongs to the caller, is live and has a non-zero price |
| ClassOfferController.ValidateEditBody | src/controllers/classOfferController.ts:28-39 | passes iff title, description or price is truthy and each supplied field is valid; with none of the three the answer is 400 |
| ClassOfferController.SanitizedEdit | src/controllers/classOfferController.ts:124-130 | the edit keeps exactly the truthy fields, with their values |
| ClassOfferController.EditClassOfferController | src/controllers/classOfferController.ts:115-135 | a class id `Number()` reads as NaN is 400; a failed body check is answered; a number that is not whole is 500; otherwise the service edits with the sanitised fields; failures write nothing |
| ClassOfferController.FractionalIdFailsEdit | src/controllers/classOfferController.ts:115-135 | with class id `"1.5"` a failed body check is answered, and a valid body is 500 |
| ClassOfferController.CategoryOnlyEditRefused | src/controllers/classOfferController.ts:28-30 | an edit that sends only a category is refused with 400 and changes nothing |
| ClassOfferController.DeleteClassOfferController | src/controllers/classOfferController.ts:137-150 | a class id `Number()` reads as NaN is 400, one that is not whole (`"1.5"`) is 500; otherwise the service decides |
| ClassOfferController.FractionalIdFailsDelete | src/controllers/classOfferController.ts:137-150 | deleting with class id `"1.5"` is 500 and changes nothing |
| ClassOfferController.QueryNumber | src/controllers/classOfferController.ts:54-65 | a query price is kept iff it is a string that radix-less `parseInt` reads (`0x` meaning hexadecimal), and then as that number |
| ClassOfferController.SanitizeQuery | src/controllers/classOfferController.ts:47-67 | the title is kept iff it is a string; prices as `parseInt` reads them; the category only when listed |
| ClassOfferController.GetClassOffersController | src/controllers/classOfferController.ts:41-82 | page and limit are the normalised query values; the data is exactly that page of the offers the sanitised query selects |
| ClassOfferController.UnknownCategoryIgnored | src/controllers/classOfferController.ts:66-67 | an unknown category in the query is dropped: the listing is that of a query without one |
| RegisterController.EmailDomainAfterAt | src/controllers/registerController.ts:82 | for a well-formed email the domain checked is the text after its only `@` |
| RegisterController.CheckName | src/controllers/registerController.ts:38-73 | a name passes iff present, 3 to 30 characters and made of letters, spaces, apostrophes and hyphens; otherwise 400 with one of its three messages |
| RegisterController.ValidateRegisterBody | src/controllers/registerController.ts:10-97 | passes iff every rule holds, otherwise 400; a bad username, first name, first last name or email is reported with one of that field's messages before any later field |
| RegisterController.RegistrationOf | src/controllers/registerController.ts:104-107 | the stored email is the trimmed, lowercased one; username, password and role pass unchanged |
| RegisterController.LowerKeepsEmailSplit | src/controllers/registerController.ts:104 | lowercasing keeps an email's shape |
| RegisterController.LowerOfLower | src/controllers/registerController.ts:83 | the allowed domains are already lower case |
| RegisterController.NormalisedEmailIsValid | src/controllers/registerController.ts:76-88 | a valid email has no surrounding space, and its lowercase form is valid too |
| RegisterController.EmailIsTrimmed | src/controllers/registerController.ts:104 | text matching the email pattern has no surrounding space, so trimming leaves it as it is |
| RegisterController.LowerEmailOk | src/controllers/registerController.ts:76-104 | the lowercase form of an email that passes the checks passes them too |
| RegisterController.RegisteredEmailIsValid | src/controllers/registerController.ts:104-107 | the email stored at sign-up is the lowercased input and passes every email rule |
| AvailabilityController.ValidateAvailability | src/controllers/availabilityController.ts:44-57 | passes iff slot is an integer in 1..24 and day an integer in 1..7; slot is checked first; failures are 400 |
| AvailabilityController.ValidateCells | src/controllers/availabilityController.ts:68-70 | passes iff every cell is valid; otherwise the first invalid cell's error |
| AvailabilityController.ValidateRequestBody | src/controllers/availabilityController.ts:62-75 | passes iff the body is an array of at most 100 valid cells; a non-array and an oversized array have their own 400 messages |
| AvailabilityController.SanitizeCreateAvailabilities | src/controllers/availabilityController.ts:14-27 | keeps length and order; each cell becomes the caller's, with its day and slot |
| AvailabilityController.CreateAvailabilitiesController | src/controllers/availabilityController.ts:78-90 | a failed check is answered and writes nothing; otherwise the sanitised cells are saved and counted |
| AvailabilityController.CreatedCells | src/controllers/availabilityController.ts:78-90 | every saved cell is stored as the caller's with its day and slot |
| AvailabilityController.GetAvailabilityController | src/controllers/availabilityController.ts:92-103 | 400 iff `parseInt` fails; otherwise exactly the teacher's slots, counted |
| AvailabilityController.ParseIds | src/controllers/availabilityController.ts:124 | one entry per comma-separated piece, each read by `parseInt` |
| AvailabilityController.DeleteAvailabilityController | src/controllers/availabilityController.ts:121-135 | a missing query throws; any unparsable id is 400; otherwise the service deletes the parsed ids |
| AvailabilityController.NoCommaInNumber | src/controllers/availabilityController.ts:124 | the decimal form of an id has no comma |
| AvailabilityController.ParseIdsQuery | src/controllers/availabilityController.ts:124-127 | ids written comma-separated parse back to the same ids |
| AvailabilityController.DeleteByQuery | src/controllers/availabilityController.ts:121-135 | a query listing ids deletes exactly what the service deletes for those ids |
| Availabilities.IdRange | src/services/availabilityService.ts:30 | the ids a batch insert hands out: a run of n consecutive ids |
| Availabilities.Inserted | src/services/availabilityService.ts:30-37 | the inserted rows get consecutive new ids, one per input, in order |
| Availabilities.SaveAvailability | src/services/availabilityService.ts:26-50 | succeeds iff every owner exists and no cell repeats one in the table or the batch; a repeat is 400, a missing owner 500, and neither writes; otherwise one record per input is returned, in order of new ids, and exactly those rows are added |
| Availabilities.Records | src/services/availabilityService.ts:32-36 | one (id, day, slot) record per input, in order |
| Availabilities.InsertKeepsOld | src/services/availabilityService.ts:30 | existing rows are untouched by an insert |
| Availabilities.InsertOnlyRecords | src/services/availabilityService.ts:30 | an insert adds exactly the returned rows and no others |
| Availabilities.InsertFilesRecords | src/services/availabilityService.ts:30-38 | each returned record names a row that was not there before and now holds that input under its id, with ids increasing |
| Availabilities.InsertAddsExactly | src/services/availabilityService.ts:30-38 | an insert adds exactly the returned rows, keeps every old row and adds nothing else |
| Availabilities.SaveKeepsValid | src/services/availabilityService.ts:30-44 | a conflict-free insert keeps the tables valid |
| Availabilities.InsertedIdsMatch | src/services/availabilityService.ts:30 | inserted rows sit under their own ids |
| Availabilities.NewCellsKeepUnique | src/services/availabilityService.ts:30-44 | a conflict-free insert keeps (teacher, day, slot) unique |
| Availabilities.SaveAvailabilityService | src/services/availabilityService.ts:26-50 | inserts into the store as `SaveAvailability` says |
| Availabilities.RepeatedSaveConflicts | src/services/availabilityService.ts:40-44 | saving the same batch again is refused with 400 and writes nothing |
| Availabilities.TeacherAvailability | src/services/availabilityService.ts:52-65 | exactly the teacher's stored slots, by ascending id |
| Availabilities.SavedCellsAreListed | src/services/availabilityService.ts:52-59 | every saved cell appears in the teacher's listing |
| Availabilities.Owned | src/services/availabilityService.ts:72-82 | the ids in the list whose slot belongs to the caller |
| Availabilities.Kept | src/services/availabilityService.ts:92-101 | the rows left are exactly those not both listed and owned by the caller, each unchanged, and never more than before |
| Availabilities.DeleteAvailabilities | src/services/availabilityService.ts:67-108 | removes exactly the listed slots the caller owns, leaves every other row untouched, and returns the number removed |
| Availabilities.RemovedCount | src/services/availabilityService.ts:92-103 | the count returned is the number of rows removed |
| Availabilities.DeleteAvailabilitiesService | src/services/availabilityService.ts:67-108 | deletes from the store as `DeleteAvailabilities` says |
| Availabilities.DeleteIdempotent | src/services/availabilityService.ts:92-101 | deleting the same ids again removes nothing |
| Availabilities.IdsOf | src/services/availabilityService.ts:32-36 | the ids of the returned records, in order |
| Availabilities.RemovingAddedRestores | src/services/availabilityService.ts:92-101 | removing exactly the added rows restores the earlier table |
| Availabilities.SavedRowsAreReturned | src/services/availabilityService.ts:30-38 | the rows a save adds are exactly the returned ones, all the caller's and all new |
| Availabilities.SaveThenDeleteRestores | src/services/availabilityService.ts:26-108 | deleting the ids a save returned gives back the slots as they were |
| Availabilities.SaveThenDeleteCounts | src/services/availabilityService.ts:26-108 | that delete reports one removal per saved cell |
| Reviews.CreateReview | src/services/reviewsServices.ts:16-57 | 404 when the teacher is not a user; 400 when this reviewer already reviewed this teacher; a rating that cannot be stored or a missing reviewer is 500; otherwise exactly one review is added under a new id with the given teacher, reviewer, rating and content; failures write nothing |
| Reviews.NewReviewKeepsPairsUnique | src/services/reviewsServices.ts:30-47 | adding a review for a pair not yet reviewed keeps one review per (reviewer, teacher) |
| Reviews.CreateReviewService | src/services/reviewsServices.ts:16-57 | inserts the review in the store as `CreateReview` says |
| Reviews.SecondReviewRefused | src/services/reviewsServices.ts:30-39 | a second review of the same teacher by the same reviewer is 400 and writes nothing |
| Reviews.Edited | src/services/reviewsServices.ts:110-113 | only the fields sent change; ids, teacher and reviewer stay |
| Reviews.UpdateReview | src/services/reviewsServices.ts:92-123 | 404 iff the review is missing; 401 when it is someone else's; a rating that cannot be stored is 500; otherwise only the sent fields of that review change |
| Reviews.UpdateReviewService | src/services/reviewsServices.ts:92-123 | updates the review in the store as `UpdateReview` says |
| Reviews.UpdateIdempotent | src/services/reviewsServices.ts:110-113 | applying the same update twice gives the result and tables of one |
| Reviews.DeleteReview | src/services/reviewsServices.ts:125-146 | 404 iff the review is missing; 401 when it is someone else's; otherwise exactly that review is removed, and nothing is returned |
| Reviews.DeleteReviewService | src/services/reviewsServices.ts:125-146 | removes the review from the store as `DeleteReview` says |
| Reviews.CreateThenDeleteRestores | src/services/reviewsServices.ts:16-146 | deleting a review just created restores the reviews and lets the pair review again |
| Reviews.TeacherReviewsPage | src/services/reviewsServices.ts:59-90 | 404 iff the teacher is not a user; otherwise exactly the requested page of that teacher's stored reviews, in insertion order |
| Reviews.CurrentUserReviews | src/services/reviewsServices.ts:148-159 | exactly the reviews the user wrote, unpaginated, in insertion order |
| Reviews.CurrentUserReviewsOnePerTeacher | src/services/reviewsServices.ts:148-159 | no teacher appears twice in a user's own reviews |
| ReviewsController.PathId | src/controllers/reviewsController.ts:15-23 | an id is accepted iff radix-less `parseInt` reads it (`0x` meaning hexadecimal) and it is not 0 |
| ReviewsController.CheckRating | src/controllers/reviewsController.ts:25-35 | passes iff the rating is a number in 1..5 (not necessarily whole); a falsy rating is "required" |
| ReviewsController.InRangeIsTruthy | src/controllers/reviewsController.ts:25-35 | a rating in range is truthy, so the presence check never refuses it |
| ReviewsController.TruthyField | src/controllers/reviewsController.ts:104-105 | a field is kept iff it is truthy, unchanged |
| ReviewsController.CreateReviewController | src/controllers/reviewsController.ts:13-46 | a bad teacher id is 400; a rating out of range is 400; otherwise the service decides, on the rating and a truthy content |
| ReviewsController.CreatedReviewKeepsBody | src/controllers/reviewsController.ts:37-43 | a created review carries the rating sent (in 1..5), the caller, the path's teacher, and content iff truthy content was sent |
| ReviewsController.SanitizedEdit | src/controllers/reviewsController.ts:104-105 | the edit keeps exactly the truthy rating and content |
| ReviewsController.ValidateUpdate | src/controllers/reviewsController.ts:82-102 | passes iff the id is accepted, something truthy is sent, and a truthy rating is in range; each failure is 400 |
| ReviewsController.UpdateReviewController | src/controllers/reviewsController.ts:76-117 | a failed check is answered and writes nothing; otherwise the service updates with the sanitised fields |
| ReviewsController.UpdateKeepsUnsentFields | src/controllers/reviewsController.ts:96-113 | fields not sent keep their stored values |
| ReviewsController.DeleteReviewController | src/controllers/reviewsController.ts:119-135 | a bad review id is 400 before the service; otherwise the service decides |
| ReviewsController.TeacherReviewsController | src/controllers/reviewsController.ts:48-74 | a bad teacher id is 400; otherwise the service's normalised page |
| ReviewsController.CurrentUserReviewsController | src/controllers/reviewsController.ts:137-157 | every review the caller wrote, and only those |
| UserAccount.FlagOffersOf | src/services/userAccountService.ts:21-31 | flags exactly the author's offers as deleted and leaves the others as they are |
| UserAccount.DeleteUserAccount | src/services/userAccountService.ts:6-39 | 404 iff the user is missing; 400 iff already deleted; both write nothing; otherwise the user and all their offers are flagged deleted together, and nothing else changes |
| UserAccount.FlagKeepsValid | src/services/userAccountService.ts:21-31 | flagging a user and their offers keeps the tables valid |
| UserAccount.DeleteUserAccountService | src/services/userAccountService.ts:6-39 | flags the user and their offers in the store as `DeleteUserAccount` says |
| UserAccount.DeletedAuthorHasNoLiveOffers | src/services/userAccountService.ts:21-31 | after closing an account none of its offers is live, and other authors' offers are as live as before |
| UserAccount.DeleteTwiceRefused | src/services/userAccountService.ts:17-19 | closing an account twice is 400 and changes nothing |
| UserAccount.DeleteKeepsLogins | src/services/userAccountService.ts:21-31 | closing an account changes only that user's flag, so usernames and emails stay unique |
| Login.FindUser | src/services/loginServices.ts:16-18 | the user the login identifies, or none exactly when none does |
| Login.LoginUser | src/services/loginServices.ts:12-44 | succeeds iff an identified user is not deleted and the password matches, returning that user without the hash; no user is 401; a deleted user is 403 before the password; a wrong password is 401 |
| Login.RegisteredEmailLooksLikeEmail | src/services/loginServices.ts:14 | every email sign-up accepts is recognised as an email at login |
| Login.RegisteredUsernameIsNotEmail | src/services/loginServices.ts:14 | no username sign-up accepts looks like an email |
| Login.LoginByRegisteredEmail | src/services/loginServices.ts:12-36 | a live user logs in with the registered email and the right password |
| Login.LoginByRegisteredUsername | src/services/loginServices.ts:12-36 | a live user logs in with the registered username and the right password |
| Login.SameCredentialsSameLogin | src/services/loginServices.ts:16-36 | whether a login succeeds depends only on usernames, emails, flags and hashes |
| Login.PublicDropsOnlyPassword | src/services/loginServices.ts:31-33 | two users have the same public form iff they differ at most in the password hash |
| Auth.Authenticate | src/middlewares/authMiddleware.ts:27-62 | no token is 401 "Autenticación fallida."; an expired token is 401 with its message; every failure is 401; success iff the token verifies, yielding its user |
| Auth.OptionalAuthenticate | src/middlewares/authMiddleware.ts:84-107 | never fails; yields a user exactly when `authenticate` would accept, and the same user |
| Auth.AuthenticateRequest | src/middlewares/authMiddleware.ts:27-62 | on success the user is stored in the request's locals; on failure the error is answered and the locals are untouched |
| Auth.OptionalAuthenticateRequest | src/middlewares/authMiddleware.ts:84-107 | the user is stored when the token verifies; otherwise the locals are untouched |
| Auth.Autorize | src/middlewares/authMiddleware.ts:67-77 | passes iff the role is listed; otherwise 401 "Usuario no tiene rol: " with the roles joined by ", " |
| Auth.AutorizeOneRole | src/middlewares/authMiddleware.ts:67-77 | with one required role the refusal names exactly that role |
| Auth.AutorizeMonotone | src/middlewares/authMiddleware.ts:67-77 | listing more roles never refuses a role that passed |
| Auth.CheckUserIsDeleted | src/middlewares/authMiddleware.ts:109-132 | 403 iff the parsed id names a stored deleted user; passes iff it parses and the user is missing or not deleted; an unparsable id is 500 |
| Auth.SuspendedIffDeleted | src/middlewares/authMiddleware.ts:109-124 | a session with a stored user's id is refused exactly when the account is flagged deleted |
| Profile.Written | src/services/profileServices.ts:20-24 | an absent key keeps the column, `null` clears it, a value sets it |
| Profile.Applied | src/services/profileServices.ts:20-28 | only names and phone change, each as its key says; id, username, email, role, flag and hash stay |
| Profile.UpdateUserProfile | src/services/profileServices.ts:15-54 | succeeds iff the user exists and the write is accepted, storing exactly the rewritten row and returning it without the hash; a unique violation is 400; a missing user or other failure is 500; failures write nothing |
| Profile.ProfileKeepsValid | src/services/profileServices.ts:26-28 | rewriting a user's row under its own id keeps the tables valid |
| Profile.UpdateUserProfileService | src/services/profileServices.ts:15-54 | builds the row key by key and stores it as `UpdateUserProfile` says |
| Profile.SuccessiveUpdatesMerge | src/services/profileServices.ts:20-28 | two updates in a row equal one with the later keys taking precedence |
| Profile.UpdateIdempotent | src/services/profileServices.ts:20-28 | repeating an update changes nothing more |
| Profile.EmptyPayloadChangesNothing | src/services/profileServices.ts:20-39 | a payload without keys leaves the row as it is and returns it |
| Profile.UpdateKeepsLogins | src/services/profileServices.ts:20-28 | usernames, emails, flags and hashes are never written, so they stay unique |
| ProfileController.ValidateProfileBody | src/controllers/profileController.ts:19-28 | passes iff no name is the empty string and a non-empty phone is eight digits not starting with 0; names are checked first |
| ProfileController.UpdateProfileController | src/controllers/profileController.ts:12-41 | a failed body check is answered; a missing or empty session id is 401; one `Number()` reads as NaN is 500 "Id de usuario inválido"; a fractional one is 500 from the service's query; otherwise the service runs for that user |
| ProfileController.StoredPhoneIsValid | src/controllers/profileController.ts:22-28 | every phone stored through the endpoint is empty or eight digits not starting with 0 |
| ProfileController.SessionIdSelectsUser | src/controllers/profileController.ts:31-39 | a session carrying a stored user's id updates exactly that user |
| Lifecycle.ClosedAccountIsLockedOut | src/services/userAccountService.ts:21-31 | after closing an account, login as that user is 403 whatever the password and the middleware refuses the session |
| Lifecycle.OtherUsersLoginUnchanged | src/services/loginServices.ts:16-36 | closing one account leaves every other login's answer as it was |
| Lifecycle.ProfileUpdateKeepsLogin | src/services/profileServices.ts:20-28 | a profile update never changes whether a login succeeds |

## Left out

- Routing, Swagger, CORS, rate limiting and app wiring are not modelled. As a
  consequence, `GET /reviews/user` is registered after `GET /reviews/:teacherId`,
  so a request to it reaches the teacher-reviews handler, where `parseInt("user")`
  fails and the answer is 400. The model states each handler on its own.
- The controller that receives the provider's redirect is not part of this
  model. The back URLs put the class offer's id in the segment the route
  names `:classRequest`. `Payments.RedirectHandler` takes the request id it
  is given.
- `jwt.verify` and `bcrypt.compare` are parameters. The register service's
  hashing and its mapping of unique-constraint errors to 409 are not modelled.
- Usernames and emails are unique columns. `Tables.UniqueLogins` states this
  as a precondition of login, and `UserAccount.DeleteKeepsLogins` and
  `Profile.UpdateKeepsLogins` prove it is preserved.
- The payment provider's calls (preference create and get, OAuth create and
  refresh, refund) are oracles. The refund call itself is not modelled:
  `Payments.RefundPayment` states the guards and returns the payment id to refund.
- The Transbank payment path (its service and controller) is superseded and not modelled.
- `Date` formatting is not modelled: times are integer milliseconds given as
  `now`. `Math.random` is the `draw` input.
- Concurrency is not modelled: the model is sequential. This includes the
  check-then-insert races of duplicate bookings and reviews.
- Js.NumberOfString: reads optional surrounding space, then an unsigned
  `0x` hexadecimal literal, or a sign and a decimal literal with an optional
  fraction. Exponents (`"1e3"`), `Infinity` and the `0b` and `0o` forms are
  not modelled and read as NaN, where `Number()` reads them as numbers.
- Js.ToNumber: arrays and objects convert to NaN. In JavaScript `Number([7])`
  is 7 and `Number([])` is 0, so ClassRequestController.UpdateClassRequestStateController
  answers 400 for a `classRequestId` of `[7]` where the source goes on, and
  ReviewsController.RatingInRange refuses an array rating that the source
  passes to the service, which then fails with 500.
- RegisterController.RegisterBody and Profile.ProfilePayload: the payload
  fields are strings. A JSON number sent as the phone (which the source's
  regular expression tests after converting it to text) cannot be expressed.
- ClassRequests.DeleteClassRequest: the schema is not part of this model. The
  refusal (500) of a request that has transactions assumes a foreign key from
  transactions to requests that restricts the delete.
- Payments.CreatePreference: the `pending` status of a new transaction is the
  assumed column default; the service does not set it.
- Tables: prices and ratings are integer columns, an assumption about the
  schema. ClassOffers.CreateClassOffer refuses a fractional price with 500
  on that assumption.
- Tables: ids are unbounded integers. The database's integer columns are
  32-bit, and a query with an id outside -2^31 to 2^31-1 throws, which each
  service's catch answers with 500. The model answers such an id as any
  other (404 for a missing row, or goes on): `ReviewsController.PathId` of
  `"3000000000"` followed by `Reviews.UpdateReview`, the ids that
  `AvailabilityController.ParseIds` reads for `DeleteAvailabilityController`,
  and the id of `Auth.CheckUserIsDeleted`.
  Numbers are exact: JavaScript's doubles, which round a `parseInt` or
  `Number()` of 17 or more digits, are not modelled.
- ClassRequestController.CreateReservation: with `day` or `slot` absent
  and no earlier request of the student on the offer matching the other
  fields, the insert lacks a required column and the answer is 500. That the
  columns have no default is an assumption about the schema.
- Text.IsSpace: the ASCII white space characters, U+00A0 and U+FEFF. The
  other white space of JavaScript's `\s` and `trim` (U+1680, U+2000 to
  U+200A, U+2028, U+2029, U+202F, U+205F and U+3000) is not included.
- String lengths count characters, not UTF-16 code units.
- Case-insensitive title search is ASCII case folding, not the database collation.
- `findMany` without `orderBy` is modelled as id order.
- Auth.CheckUserIsDeleted: the 500 message omits the text of the thrown
  error appended after `Error interno del servidor:\n`.
- ClassRequests.DeleteClassRequest, ClassRequests.GetUserReqInClassOffer and
  ClassRequests.ClassRequestById: the source's 500 message is
  `Error interno del servidor: ` followed by the thrown error
  (src/services/classRequestService.ts:590, 690 and 718). `ClassRequests.MsgInternal`
  is the prefix alone. The database failures that reach the by-id catch are
  not modelled, so `ClassRequestById` only answers the request or 404.
- UserAccount.DeleteUserAccount: a database failure inside the transaction
  (500) is not modelled.
- Login.LoginUser: a database failure during the lookup (500) is not modelled.
- ClassRequests.AcceptClass, ClassRequests.ConfirmClass: database failures
  other than the ones named (500) are not modelled.
- Availabilities.DeleteAvailabilities: the 403 loop in the service is
  unreachable, because the query already selects only the caller's rows. It
  is not modelled; the model's delete never fails, as any error becomes 500
  in the source.
- getUserClassRequestController and `getClassOfferByIdController` are not
  modelled. The response bodies of the list controllers are not modelled
  either: `TutorClassRequestsController.data`, `ClassRequestsByClassController`'s
  `data` and `GetClassOffersController.data` are the lists the services
  compute, not the JSON the source sends. The source destructures
  `{ data, ... }` from an array at src/controllers/classRequestController.ts:84
  and :161, so its JSON carries no `data`, and destructures `[a, b, c]` from
  the array the service returns at src/controllers/classOfferController.ts:71
  and src/controllers/classRequestController.ts:49, so its `data` is the first
  card or request alone, and `totalItems` and `totalPages` are its second and
  third elements.
  `ClassRequests.GetUserClassRequests` and `ClassOffers.GetClassOfferById`
  state the services they call, and `Paging.PageRequestOf` states their page
  normalisation.
- `editAvailabilityController` and `sanitizeUploadAvailabilities` are not
  modelled: they are unrouted and unused, and the integer check of the former
  is inverted.
