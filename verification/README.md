# Marketplace transaction lifecycle in Dafny

This project models the state-changing core of a peer-to-peer marketplace backend. Its subject is the lifecycle
**offer → active transaction → past transaction or cancellation**, together with the writers that feed it: making and
revising offers, posting chat messages, and adding or removing favorites.

The database is an immutable record (`Store.Db`):

- Offers, ActiveTransactions, PastTransactions and Messages are maps from primary key to row.
- Listings is reduced to its IsSold flag per ListingID.
- Favorites is a set of (UserID, ListingID) pairs.
- One counter per table stands for its auto-increment key.

Every route is a pure function from the database (plus the request fields) to an `Outcome`. An `Outcome` holds the
HTTP status, the inserted id when the route reports one, and the new database.

The server issues each route's SQL statements one callback after another. A statement is issued only if the previous
one succeeded, and nothing wraps the statements in a transaction. `Gateway.Then` models one such callback. The
`Gateway.Fault` parameter (`NoFault` or `FailAt(k)`) says at which statement, counted from 1, the store reports an
error. So one definition covers both the fully successful run and every partial failure: statements before `k` keep
their effect, and statements from `k` on never run.

Each SQL statement has set semantics (`Gateway.Exec`):

- `DELETE … WHERE` keeps the rows that do not match.
- `INSERT … SELECT` copies the matching row, if there is one.
- `UPDATE … SET` overwrites one column of the matching row. A statement that matches no row changes nothing.

An INSERT whose key is already taken is a store error.

Modules:

- `Store`: tables, rows, and the invariants `WellFormed`, `Resolved`, `OrphanFree`, `PastKept` and `SoldKept`.
- `Gateway`: statements, the fault oracle, the callback chain and statuses.
- `Negotiation`: offers, messages and favorites.
- `Lifecycle`: confirm-sale and cancel-sale.
- `Server`: the request dispatcher and runs of many requests.

## Model

| member | source | states |
|---|---|---|
| Gateway.Exec | backend/server.js:149-733 | Each statement of the core either fails with a key violation or writes exactly one table. An INSERT also moves that table's counter; an UPDATE or DELETE leaves every counter as it was. Every other table is equal. This covers the statements at lines 149, 170-174, 450-454, 487-491, 511, 531, 589, 612, 636-654 and 724-733. A key violation happens exactly when a Favorites pair is already present, when the TransactionID being copied is already in PastTransactions, or when an auto-increment key is already taken. A route then answers 500. |
| Gateway.ExecSemantics | backend/server.js:149-733 | A successful INSERT stores its row under the counter's key, keeps every row and advances the counter. An UPDATE changes only the amount of the matching row, and nothing when no row matches. A DELETE keeps exactly the non-matching rows, unchanged. INSERT … SELECT copies the active row under its own TransactionID, or inserts nothing when no row matches. Marking a listing sold changes only that listing's flag. |
| Gateway.Then | backend/server.js:669-716 | A callback runs its statement only if every earlier one succeeded. A failing statement stops the chain and keeps what the earlier statements wrote. A successful one applies exactly that statement's effect. |
| Negotiation.PostOffer | backend/server.js:146-162 | Answers 201 and stores the offer under a fresh OfferID, keeping every existing offer and every other table. A store error answers 500 and changes nothing. |
| Negotiation.DeclineUndoesPostOffer | backend/server.js:146-162 | In a well-formed database, declining the offer just made restores the Offers table. Only the OfferID counter has moved on. |
| Negotiation.PutOffer | backend/server.js:165-183 | Overwrites only the amount of the named offer: its other fields, all other offers and all other tables stay as they were. An unknown OfferID is a silent no-op that answers 200. |
| Negotiation.AcceptOffer | backend/server.js:446-480 | On success, adds the active transaction built from the request fields under a fresh id, advances the TransactionID counter and removes the OfferID. If the insert fails, nothing changes. If only the delete fails, the new transaction stays, the counter has advanced and the offer remains. Only Offers and ActiveTransactions change. |
| Negotiation.AcceptOfferAddsOneTransaction | backend/server.js:449-479 | In a well-formed database, accepting adds exactly one active transaction (the count grows by one) holding ListingID, SellerID, BuyerID and Amount = OfferAmount, and the OfferID is absent afterwards. It does so whether or not the offer existed. |
| Negotiation.AcceptMessageOffer | backend/server.js:483-504 | Overwrites only the Amount of the named active transaction: its other fields, all other rows and all other tables stay as they were. An unknown TransactionID is a silent no-op that answers 200. |
| Negotiation.DeclineOffer | backend/server.js:507-524 | Answers 200 whenever the store does not fail, whether or not the offer existed. Afterwards the offer is absent and every other offer and table is unchanged. |
| Negotiation.DeclineOfferIdempotent | backend/server.js:510-523 | Declining the same offer twice gives the same database as declining it once. |
| Negotiation.DeclineMessageOffer | backend/server.js:527-544 | Answers 200 whenever the store does not fail, whether or not the message existed. Afterwards the message is absent and nothing else changes. |
| Negotiation.DeclineMessageOfferIdempotent | backend/server.js:530-543 | Declining the same message offer twice gives the same database as declining it once. |
| Negotiation.InsertMessageRoute | backend/server.js:588-604 | Answers 201 with the fresh MessageID and stores the message under it, keeping every other message and table. A store error answers 500 with no id and changes nothing. |
| Negotiation.PostMessage | backend/server.js:586-605 | On 201, the reported id holds a message with exactly the posted transaction, sender, content, offer flag and offer amount. |
| Negotiation.PostDeclineMessage | backend/server.js:608-629 | On 201, the reported id holds a message with exactly the posted transaction, sender, content and offer flag, and a NULL offer amount. |
| Negotiation.PostMessageCanOrphan | backend/server.js:588-604 | The transaction a message names is not checked. Posting to a transaction that is not active succeeds and leaves a message with no live transaction. |
| Negotiation.AddFavorite | backend/server.js:314-325 | Answers 200 and adds exactly the (user, listing) pair. A pair already present, or a store error, answers 500 with Favorites unchanged. No other table changes. |
| Negotiation.RemoveFavoriteUndoesAdd | backend/server.js:314-339 | Removing a (user, listing) pair right after adding it gives back the original database. |
| Negotiation.RemoveFavorite | backend/server.js:328-339 | Answers 200 whenever the store does not fail, and removes exactly the (user, listing) pair, whether or not it was there. No other table changes. |
| Lifecycle.ConfirmSale | backend/server.js:632-717 | Answers 404 exactly when the ListingID lookup finds no active row, and then changes nothing. Answers 200 exactly when the row exists, is not yet in PastTransactions and no statement fails. It never alters an existing past row, never clears a sold flag, and keeps keys below their counters. |
| Lifecycle.ConfirmSaleSucceeds | backend/server.js:635-711 | After a successful confirm: PastTransactions gains exactly the active row, under the same TransactionID. The active row is gone. No message of the transaction remains. The listing read before the delete is sold. No favorite of that listing remains. Every other row is unchanged. |
| Lifecycle.ConfirmSaleStopsAt | backend/server.js:669-706 | When statement k (2..6) fails, the answer is 500. Statements 2..k-1 have taken effect, table by table, and statements k..6 have not: there is no rollback. |
| Lifecycle.ConfirmSaleStuckAfterPartialFailure | backend/server.js:669-692 | After a failure at step 3 or 4, the transaction is both active and past. Every later confirm of it answers 500 and changes nothing. |
| Lifecycle.ConfirmedSaleIsFinal | backend/server.js:657-665 | After a confirmed sale, a second confirm or a cancel of the same transaction never succeeds and changes nothing. |
| Lifecycle.ConfirmSaleKeepsOrphanFree | backend/server.js:677-692 | The messages are deleted before the active row, so however confirm-sale stops, no message is left pointing at a transaction that is no longer active, as long as no other request runs at the same time. |
| Lifecycle.CancelSale | backend/server.js:720-778 | Answers 404 exactly when the ListingID lookup finds no active row, and then changes nothing. Answers 200 exactly when the row exists and no statement fails. It never touches PastTransactions or any sold flag. |
| Lifecycle.CancelSaleSucceeds | backend/server.js:723-775 | After a successful cancel: the transaction's messages and active row are gone and the listing has no favorites. PastTransactions and the sold flags are unchanged, and so is every other row. |
| Lifecycle.CancelSaleStopsAt | backend/server.js:748-769 | When statement k (2..4) fails, the answer is 500. Statements 2..k-1 have taken effect and statements k..4 have not. Only Messages and ActiveTransactions can have changed. |
| Lifecycle.CancelledSaleIsFinal | backend/server.js:736-744 | After a cancelled sale, a confirm or a second cancel of the same transaction never succeeds and changes nothing. |
| Lifecycle.CancelSaleKeepsOrphanFree | backend/server.js:748-763 | However cancel-sale stops, no message is left pointing at a transaction that is no longer active, as long as no other request runs at the same time. |
| Lifecycle.CancelIsConfirmWithoutRecord | backend/server.js:720-778 | A successful cancel leaves the same database as a successful confirm, except that PastTransactions and the sold flags keep their old values. |
| Lifecycle.InterleavedMessageCanOrphan | backend/server.js:669-692 | When a `POST /messages` INSERT for the transaction (line 589) lands between confirm-sale's message delete and its active-row delete, every statement succeeds, the message is stored and its transaction is no longer active. |
| Server.RunKeepsWellFormed | backend/server.js:449-452 | Over any run of requests, with any store errors, every auto-increment key stays below its counter. PastTransactions keys stay below the transaction counter. |
| Server.RunKeepsPast | backend/server.js:635-640 | Over any run of requests, PastTransactions only grows: a row once written is never changed or removed. |
| Server.RunKeepsSold | backend/server.js:650-652 | Over any run of the modelled requests, a sold listing stays sold. None of these requests creates or removes a listing; listing creation is outside the model. |
| Server.FaultFreeRunKeepsResolved | backend/server.js:632-717 | If the store never fails, no transaction is ever both active and past. |
| Server.FaultyRunCanBreakResolved | backend/server.js:677-692 | A single confirm-sale whose message delete fails leaves a transaction both active and past. |

## Left out

- HTTP wiring (Express, CORS, body parsing, `app.listen`) and the MySQL connection setup (backend/server.js:12-31) are plumbing. The JSON bodies of replies are not modelled; only the status is, plus the id that the message routes return.
- The SQL engine is replaced by the set semantics above. The table schema is not part of this model. The model assumes the following:
  - TransactionID is the primary key of PastTransactions, since the copy supplies it explicitly.
  - A (UserID, ListingID) pair is unique in Favorites.
  - Messages.OfferAmount defaults to NULL, since the decline-message INSERT (backend/server.js:612) leaves it out. A NOT NULL column without a default would instead make every such INSERT fail under strict mode.
  - Auto-increment keys come from counters.
  - Foreign-key constraints are not modelled. A store that enforces them turns the affected statement into an error, which `FailAt` covers.
- Server.FaultFreeRunKeepsResolved: assumes the auto-increment counters never reuse an id. Server restarts are not modelled. A storage engine that resets the counter to the largest key plus one at restart could let accept-offer reissue the TransactionID of a confirmed sale. That id would then be both active and past.
- A failed INSERT leaves the auto-increment counter unchanged, although MySQL may use up a value.
- The Timestamp column of Messages is filled by the database clock and is not modelled.
- A request field that is missing from the body and bound as NULL is not modelled. Amounts are unbounded integers because the routes only store and copy them.
- Registration, login and password change (backend/server.js:34-75, 257-311) depend on bcrypt.
- Creating and updating listings (backend/server.js:95-143, 395-443) depends on the Nominatim geocoding call and floating-point coordinates.
- `PUT /users/:id` (backend/server.js:242-254) relies on the driver's object expansion.
- The read-only SELECT/JOIN routes change no state.
- Concurrency between simultaneous requests is not modelled: the model serves one request at a time, and the server does not. All routes share one connection (backend/server.js:17-22) and issue each statement from the previous one's callback, so the statements of concurrent requests can interleave. Properties proved per request therefore hold only in the model:
  - `Lifecycle.ConfirmSaleKeepsOrphanFree` and `Lifecycle.CancelSaleKeepsOrphanFree`: a `POST /messages` for the same transaction whose INSERT (backend/server.js:589) lands between a route's message delete and its active-row delete (backend/server.js:677 and 683 for confirm-sale, 748 and 754 for cancel-sale) leaves an orphaned message. `Lifecycle.InterleavedMessageCanOrphan` exhibits this interleaving for confirm-sale, statement by statement.
  - `Lifecycle.ConfirmedSaleIsFinal`: that two confirms of the same transaction create at most one PastTransactions row is proved only for confirms that run one after the other.
- Negotiation.PostMessage: its contract states the stored row and the returned id. The frame (nothing else changes; a failure changes nothing) is stated once, on `Negotiation.InsertMessageRoute`, which it calls.
- Negotiation.PostDeclineMessage: as for PostMessage, its contract states the stored row and the returned id, and its frame is stated on `Negotiation.InsertMessageRoute`.
- Messages are not guaranteed to belong to a live transaction. The lifecycle routes never create an orphan (`ConfirmSaleKeepsOrphanFree`, `CancelSaleKeepsOrphanFree`), but `POST /messages` does not check its transaction (`PostMessageCanOrphan`).
