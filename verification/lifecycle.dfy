/** The transaction lifecycle: an active transaction is resolved either by
    confirming the sale (it becomes a past transaction and the listing is
    sold) or by cancelling it (it is deleted). Both routes first read the
    transaction's ListingID, then issue their statements one callback after
    another with no transaction boundary: an error stops the chain, answers
    500 and keeps whatever the earlier statements wrote.

    Steps of POST /confirm-sale:
      1 read ListingID   2 copy row to PastTransactions   3 delete its Messages
      4 delete the active row   5 mark the listing sold   6 delete its Favorites
    Steps of POST /cancel-sale:
      1 read ListingID   2 delete its Messages   3 delete the active row
      4 delete the listing's Favorites
 */
module Lifecycle {
  import opened Store
  import opened Gateway

  /** POST /confirm-sale. */
  function ConfirmSale(db: Db, tid: Id, f: Fault): (r: Outcome)
    ensures r.id == None
    ensures r.status == Ok || r.status == NotFound || r.status == ServerError
    ensures r.status == NotFound <==> !Fails(f, 1) && tid !in db.active
    ensures Fails(f, 1) || tid !in db.active ==> r.db == db
    ensures r.status == Ok <==> tid in db.active && tid !in db.past && Passes(f, 1, 6)
    ensures tid in db.past ==> r.db == db
    ensures WellFormed(db) ==> WellFormed(r.db)
    ensures PastKept(db, r.db) && SoldKept(db, r.db)
  {
    if Fails(f, 1) then Outcome(ServerError, None, db)
    else if tid !in db.active then Outcome(NotFound, None, db)
    else
      var lid := db.active[tid].listing;
      var c2 := Then(Start(db), f, 2, CopyActiveToPast(tid));
      var c3 := Then(c2, f, 3, DeleteMessagesOf(tid));
      var c4 := Then(c3, f, 4, DeleteActive(tid));
      var c5 := Then(c4, f, 5, MarkSold(lid));
      var c6 := Then(c5, f, 6, DeleteFavoritesOf(lid));
      Respond(c6, Ok)
  }

  /** POST /cancel-sale. */
  function CancelSale(db: Db, tid: Id, f: Fault): (r: Outcome)
    ensures r.id == None
    ensures r.status == Ok || r.status == NotFound || r.status == ServerError
    ensures r.status == NotFound <==> !Fails(f, 1) && tid !in db.active
    ensures Fails(f, 1) || tid !in db.active ==> r.db == db
    ensures r.status == Ok <==> tid in db.active && Passes(f, 1, 4)
    ensures r.db.past == db.past && r.db.listings == db.listings
    ensures WellFormed(db) ==> WellFormed(r.db)
  {
    if Fails(f, 1) then Outcome(ServerError, None, db)
    else if tid !in db.active then Outcome(NotFound, None, db)
    else
      var lid := db.active[tid].listing;
      var c2 := Then(Start(db), f, 2, DeleteMessagesOf(tid));
      var c3 := Then(c2, f, 3, DeleteActive(tid));
      var c4 := Then(c3, f, 4, DeleteFavoritesOf(lid));
      Respond(c4, Ok)
  }

  /** A confirmed sale: the active row is copied unchanged into
      PastTransactions under the same TransactionID and is then gone; the
      transaction's messages are gone; the listing read in step 1 is sold
      and has no favorites left; every other row of every table is as it
      was. */
  lemma ConfirmSaleSucceeds(db: Db, tid: Id)
    requires tid in db.active && tid !in db.past
    ensures var r := ConfirmSale(db, tid, NoFault);
      var row := db.active[tid];
      && r.status == Ok
      && r.db.past.Keys == db.past.Keys + {tid}
      && r.db.past[tid] == row
      && PastKept(db, r.db)
      && r.db.active.Keys == db.active.Keys - {tid}
      && (forall t :: t in r.db.active ==> r.db.active[t] == db.active[t])
      && !HasMessagesOf(r.db, tid)
      && (forall m :: m in db.messages && db.messages[m].txn != tid ==> m in r.db.messages)
      && (forall m :: m in r.db.messages ==> m in db.messages && r.db.messages[m] == db.messages[m])
      && (row.listing in db.listings ==> IsSold(r.db, row.listing))
      && r.db.listings.Keys == db.listings.Keys
      && (forall l :: l in db.listings && l != row.listing ==> r.db.listings[l] == db.listings[l])
      && !HasFavoritesOf(r.db, row.listing)
      && (forall g :: g in db.favorites && g.listing != row.listing ==> g in r.db.favorites)
      && r.db.favorites <= db.favorites
      && r.db.offers == db.offers
      && r.db.nextOffer == db.nextOffer && r.db.nextTxn == db.nextTxn && r.db.nextMessage == db.nextMessage
  {
  }

  /** A confirm-sale whose statement k (2..6) fails answers 500 with the
      effects of statements 2..k-1 in place and none of k..6: no rollback. */
  lemma ConfirmSaleStopsAt(db: Db, tid: Id, k: nat)
    requires tid in db.active && tid !in db.past && 2 <= k <= 6
    ensures var r := ConfirmSale(db, tid, FailAt(k));
      var row := db.active[tid];
      && r.status == ServerError
      && r.db.past == (if k > 2 then db.past[tid := row] else db.past)
      && r.db.messages == (if k > 3 then MessagesWithout(db.messages, tid) else db.messages)
      && r.db.active == (if k > 4 then db.active - {tid} else db.active)
      && r.db.listings == (if k > 5 then SetSold(db.listings, row.listing) else db.listings)
      && r.db.favorites == db.favorites
      && r.db.offers == db.offers
      && r.db.nextOffer == db.nextOffer && r.db.nextTxn == db.nextTxn && r.db.nextMessage == db.nextMessage
  {
    var f := FailAt(k);
    var row := db.active[tid];
    var d2 := db.(past := db.past[tid := row]);
    var d3 := d2.(messages := MessagesWithout(db.messages, tid));
    var d4 := d3.(active := db.active - {tid});
    var d5 := d4.(listings := SetSold(db.listings, row.listing));
    var c2 := Then(Start(db), f, 2, CopyActiveToPast(tid));
    assert c2 == if k == 2 then Chain(false, db) else Chain(true, d2);
    var c3 := Then(c2, f, 3, DeleteMessagesOf(tid));
    assert k > 2 ==> c3 == if k == 3 then Chain(false, d2) else Chain(true, d3);
    var c4 := Then(c3, f, 4, DeleteActive(tid));
    assert k > 3 ==> c4 == if k == 4 then Chain(false, d3) else Chain(true, d4);
    var c5 := Then(c4, f, 5, MarkSold(row.listing));
    assert k > 4 ==> c5 == if k == 5 then Chain(false, d4) else Chain(true, d5);
    var c6 := Then(c5, f, 6, DeleteFavoritesOf(row.listing));
    assert c6 == Chain(false, if k == 2 then db else if k == 3 then d2 else if k == 4 then d3 else if k == 5 then d4 else d5);
  }

  /** A cancelled sale: the transaction's messages and active row are gone,
      the listing has no favorites left, and PastTransactions and the
      listing's sold flag are untouched. */
  lemma CancelSaleSucceeds(db: Db, tid: Id)
    requires tid in db.active
    ensures var r := CancelSale(db, tid, NoFault);
      var row := db.active[tid];
      && r.status == Ok
      && r.db.active.Keys == db.active.Keys - {tid}
      && (forall t :: t in r.db.active ==> r.db.active[t] == db.active[t])
      && !HasMessagesOf(r.db, tid)
      && (forall m :: m in db.messages && db.messages[m].txn != tid ==> m in r.db.messages)
      && (forall m :: m in r.db.messages ==> m in db.messages && r.db.messages[m] == db.messages[m])
      && !HasFavoritesOf(r.db, row.listing)
      && (forall g :: g in db.favorites && g.listing != row.listing ==> g in r.db.favorites)
      && r.db.favorites <= db.favorites
      && r.db.past == db.past
      && r.db.listings == db.listings
      && r.db.offers == db.offers
      && r.db.nextOffer == db.nextOffer && r.db.nextTxn == db.nextTxn && r.db.nextMessage == db.nextMessage
  {
  }

  /** A cancel-sale whose statement k (2..4) fails answers 500 with the
      effects of statements 2..k-1 in place and none of k..4. */
  lemma CancelSaleStopsAt(db: Db, tid: Id, k: nat)
    requires tid in db.active && 2 <= k <= 4
    ensures var r := CancelSale(db, tid, FailAt(k));
      var row := db.active[tid];
      && r.status == ServerError
      && r.db.messages == (if k > 2 then MessagesWithout(db.messages, tid) else db.messages)
      && r.db.active == (if k > 3 then db.active - {tid} else db.active)
      && r.db.favorites == db.favorites
      && r.db == db.(messages := r.db.messages, active := r.db.active)
  {
  }

  /** Cancel-sale cleans up exactly what confirm-sale cleans up (messages,
      the active row, the listing's favorites) and differs from it only in
      writing no past transaction and leaving the sold flag alone. */
  lemma CancelIsConfirmWithoutRecord(db: Db, tid: Id)
    requires tid in db.active && tid !in db.past
    ensures var confirmed := ConfirmSale(db, tid, NoFault).db;
      CancelSale(db, tid, NoFault).db == confirmed.(past := db.past, listings := db.listings)
  {
    ConfirmSaleSucceeds(db, tid);
    CancelSaleSucceeds(db, tid);
  }

  /** A transaction resolves once: after a confirmed sale, neither a second
      confirm nor a cancel finds it, whatever the store does, and neither
      changes anything. */
  lemma ConfirmedSaleIsFinal(db: Db, tid: Id, f: Fault)
    requires ConfirmSale(db, tid, NoFault).status == Ok
    ensures var d := ConfirmSale(db, tid, NoFault).db;
      && ConfirmSale(d, tid, f).db == d && ConfirmSale(d, tid, f).status != Ok
      && CancelSale(d, tid, f).db == d && CancelSale(d, tid, f).status != Ok
  {
    ConfirmSaleSucceeds(db, tid);
  }

  /** After a cancelled sale, neither a confirm nor a second cancel finds
      the transaction, and neither changes anything. */
  lemma CancelledSaleIsFinal(db: Db, tid: Id, f: Fault)
    requires CancelSale(db, tid, NoFault).status == Ok
    ensures var d := CancelSale(db, tid, NoFault).db;
      && ConfirmSale(d, tid, f).db == d && ConfirmSale(d, tid, f).status != Ok
      && CancelSale(d, tid, f).db == d && CancelSale(d, tid, f).status != Ok
  {
    CancelSaleSucceeds(db, tid);
  }

  /** A confirm-sale that fails at step 3 or 4 leaves the transaction both
      active and past; from then on every confirm-sale of it answers 500
      and changes nothing, because the copy into PastTransactions now hits
      an existing key. */
  lemma ConfirmSaleStuckAfterPartialFailure(db: Db, tid: Id, k: nat, g: Fault)
    requires tid in db.active && tid !in db.past && (k == 3 || k == 4)
    ensures var d := ConfirmSale(db, tid, FailAt(k)).db;
      && tid in d.active && tid in d.past
      && !Resolved(d)
      && ConfirmSale(d, tid, g).status == ServerError
      && ConfirmSale(d, tid, g).db == d
  {
    ConfirmSaleStopsAt(db, tid, k);
  }

  /** Confirm-sale deletes a transaction's messages before the transaction
      itself, so however it stops, no message is left pointing at a
      transaction that is no longer active. */
  lemma ConfirmSaleKeepsOrphanFree(db: Db, tid: Id, f: Fault)
    requires OrphanFree(db)
    ensures OrphanFree(ConfirmSale(db, tid, f).db)
  {
    var r := ConfirmSale(db, tid, f);
    if !Fails(f, 1) && tid in db.active && !(tid in db.past) && f.FailAt? && 2 <= f.step <= 6 {
      ConfirmSaleStopsAt(db, tid, f.step);
    } else if r.status == Ok {
      ConfirmSaleSucceeds(db, tid);
    }
  }

  /** Cancel-sale likewise never leaves an orphaned message. */
  lemma CancelSaleKeepsOrphanFree(db: Db, tid: Id, f: Fault)
    requires OrphanFree(db)
    ensures OrphanFree(CancelSale(db, tid, f).db)
  {
    var r := CancelSale(db, tid, f);
    if !Fails(f, 1) && tid in db.active && f.FailAt? && 2 <= f.step <= 4 {
      CancelSaleStopsAt(db, tid, f.step);
    } else if r.status == Ok {
      CancelSaleSucceeds(db, tid);
    }
  }

  /** The server serves requests over one connection and does not order the
      statements of different requests, so a POST /messages for the same
      transaction can be stored between confirm-sale's message delete
      (step 3) and its active-row delete (step 4). The message is then left
      pointing at a transaction that is no longer active: the orphan-freedom
      of ConfirmSaleKeepsOrphanFree holds only for one request at a time. */
  lemma InterleavedMessageCanOrphan(db: Db, tid: Id, m: Message)
    requires WellFormed(db) && tid in db.active && tid !in db.past && m.txn == tid
    ensures
      var d2 := Exec(db, CopyActiveToPast(tid));
      d2.Some? &&
      var d3 := Exec(d2.value, DeleteMessagesOf(tid));
      d3.Some? &&
      var dm := Exec(d3.value, InsertMessage(m));
      dm.Some? &&
      var d4 := Exec(dm.value, DeleteActive(tid));
      d4.Some? && db.nextMessage in d4.value.messages && d4.value.messages[db.nextMessage] == m
      && tid !in d4.value.active && !OrphanFree(d4.value)
  {
  }
}
