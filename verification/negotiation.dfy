/** The offer and negotiation routes, and the small writers beside them:
    making and revising offers, accepting an offer into an active
    transaction, accepting or declining an offer made in a chat message,
    posting messages, and adding or removing favorites.

    Each route is a chain of one or two statements; `f` says which of them,
    if any, the store fails on.
 */
module Negotiation {
  import opened Store
  import opened Gateway

  /** POST /offers: stores a new offer under a fresh OfferID. */
  function PostOffer(db: Db, listing: Id, seller: Id, buyer: Id, amount: Amount, f: Fault): (r: Outcome)
    ensures r.id == None
    ensures r.status == Created || r.status == ServerError
    ensures r.status == Created <==> !Fails(f, 1) && db.nextOffer !in db.offers
    ensures r.status == ServerError ==> r.db == db
    ensures r.status == Created ==>
      && r.db == db.(offers := r.db.offers, nextOffer := db.nextOffer + 1)
      && r.db.offers.Keys == db.offers.Keys + {db.nextOffer}
      && r.db.offers[db.nextOffer] == Offer(listing, seller, buyer, amount)
      && (forall k :: k in db.offers ==> r.db.offers[k] == db.offers[k])
  {
    Respond(Then(Start(db), f, 1, InsertOffer(Offer(listing, seller, buyer, amount))), Created)
  }

  /** PUT /offers/:offerId: overwrites the amount of one offer; an unknown
      OfferID matches no row and still answers 200. */
  function PutOffer(db: Db, oid: Id, amount: Amount, f: Fault): (r: Outcome)
    ensures r.id == None
    ensures r.status == Ok || r.status == ServerError
    ensures r.status == Ok <==> !Fails(f, 1)
    ensures r.status == ServerError || oid !in db.offers ==> r.db == db
    ensures r.db == db.(offers := r.db.offers)
    ensures r.db.offers.Keys == db.offers.Keys
    ensures forall k :: k in db.offers && k != oid ==> r.db.offers[k] == db.offers[k]
    ensures r.status == Ok && oid in db.offers ==>
      && r.db.offers[oid].amount == amount
      && r.db.offers[oid].listing == db.offers[oid].listing
      && r.db.offers[oid].seller == db.offers[oid].seller
      && r.db.offers[oid].buyer == db.offers[oid].buyer
  {
    Respond(Then(Start(db), f, 1, SetOfferAmount(oid, amount)), Ok)
  }

  /** POST /accept-offer: inserts an active transaction built from the
      request fields (step 1), then deletes the offer (step 2). The offer row
      itself is never read. */
  function AcceptOffer(db: Db, oid: Id, listing: Id, seller: Id, buyer: Id, amount: Amount, f: Fault): (r: Outcome)
    ensures r.id == None
    ensures r.status == Ok || r.status == ServerError
    ensures r.status == Ok <==> Passes(f, 1, 2) && db.nextTxn !in db.active
    ensures Fails(f, 1) || db.nextTxn in db.active ==> r.db == db
    ensures r.status == Ok ==>
      && r.db.active == db.active[db.nextTxn := Txn(listing, seller, buyer, amount)]
      && r.db.offers == db.offers - {oid}
      && r.db.nextTxn == db.nextTxn + 1
    ensures Fails(f, 2) && db.nextTxn !in db.active ==>
      && r.db.active == db.active[db.nextTxn := Txn(listing, seller, buyer, amount)]
      && r.db.offers == db.offers
      && r.db.nextTxn == db.nextTxn + 1
    ensures r.db == db.(offers := r.db.offers, active := r.db.active, nextTxn := r.db.nextTxn)
  {
    var c1 := Then(Start(db), f, 1, InsertActive(Txn(listing, seller, buyer, amount)));
    var c2 := Then(c1, f, 2, DeleteOffer(oid));
    Respond(c2, Ok)
  }

  /** POST /accept-message-offer: overwrites the amount of one active
      transaction; an unknown TransactionID matches no row and answers 200. */
  function AcceptMessageOffer(db: Db, tid: Id, amount: Amount, f: Fault): (r: Outcome)
    ensures r.id == None
    ensures r.status == Ok || r.status == ServerError
    ensures r.status == Ok <==> !Fails(f, 1)
    ensures r.status == ServerError || tid !in db.active ==> r.db == db
    ensures r.db == db.(active := r.db.active)
    ensures r.db.active.Keys == db.active.Keys
    ensures forall k :: k in db.active && k != tid ==> r.db.active[k] == db.active[k]
    ensures r.status == Ok && tid in db.active ==>
      && r.db.active[tid].amount == amount
      && r.db.active[tid].listing == db.active[tid].listing
      && r.db.active[tid].seller == db.active[tid].seller
      && r.db.active[tid].buyer == db.active[tid].buyer
  {
    Respond(Then(Start(db), f, 1, SetActiveAmount(tid, amount)), Ok)
  }

  /** POST /decline-offer: deletes the offer, answering 200 whether or not
      it existed. */
  function DeclineOffer(db: Db, oid: Id, f: Fault): (r: Outcome)
    ensures r.id == None
    ensures r.status == Ok || r.status == ServerError
    ensures r.status == Ok <==> !Fails(f, 1)
    ensures r.status == ServerError ==> r.db == db
    ensures r.status == Ok ==> oid !in r.db.offers
    ensures r.db == db.(offers := r.db.offers)
    ensures forall k :: k in r.db.offers <==> k in db.offers && (k != oid || r.status == ServerError)
    ensures forall k :: k in r.db.offers ==> r.db.offers[k] == db.offers[k]
  {
    Respond(Then(Start(db), f, 1, DeleteOffer(oid)), Ok)
  }

  /** POST /decline-message-offer: deletes the message that carried the
      offer, answering 200 whether or not it existed. */
  function DeclineMessageOffer(db: Db, mid: Id, f: Fault): (r: Outcome)
    ensures r.id == None
    ensures r.status == Ok || r.status == ServerError
    ensures r.status == Ok <==> !Fails(f, 1)
    ensures r.status == ServerError ==> r.db == db
    ensures r.status == Ok ==> mid !in r.db.messages
    ensures r.db == db.(messages := r.db.messages)
    ensures forall k :: k in r.db.messages <==> k in db.messages && (k != mid || r.status == ServerError)
    ensures forall k :: k in r.db.messages ==> r.db.messages[k] == db.messages[k]
  {
    Respond(Then(Start(db), f, 1, DeleteMessage(mid)), Ok)
  }

  /** Inserts a message under a fresh MessageID and reports that id. */
  function InsertMessageRoute(db: Db, m: Message, f: Fault): (r: Outcome)
    ensures r.status == Created || r.status == ServerError
    ensures r.status == Created <==> !Fails(f, 1) && db.nextMessage !in db.messages
    ensures r.status == ServerError ==> r.db == db && r.id == None
    ensures r.status == Created ==>
      && r.id == Some(db.nextMessage)
      && r.db == db.(messages := r.db.messages, nextMessage := db.nextMessage + 1)
      && r.db.messages.Keys == db.messages.Keys + {db.nextMessage}
      && r.db.messages[db.nextMessage] == m
      && (forall k :: k in db.messages ==> r.db.messages[k] == db.messages[k])
  {
    var c := Then(Start(db), f, 1, InsertMessage(m));
    if c.ok then Outcome(Created, Some(db.nextMessage), c.db) else Respond(c, Created)
  }

  /** POST /messages: posts a chat message, possibly carrying an offer. The
      transaction it names is not checked. */
  function PostMessage(db: Db, tid: Id, sender: Id, content: string, isOffer: bool, offerAmount: Option<Amount>, f: Fault): (r: Outcome)
    ensures r.status == Created <==> !Fails(f, 1) && db.nextMessage !in db.messages
    ensures r.status == Created ==>
      && r.id == Some(db.nextMessage)
      && db.nextMessage in r.db.messages
      && r.db.messages[db.nextMessage] == Message(tid, sender, content, isOffer, offerAmount)
  {
    InsertMessageRoute(db, Message(tid, sender, content, isOffer, offerAmount), f)
  }

  /** POST /messages/decline: posts a message that carries no offer amount
      (the column is left NULL). */
  function PostDeclineMessage(db: Db, tid: Id, sender: Id, content: string, isOffer: bool, f: Fault): (r: Outcome)
    ensures r.status == Created <==> !Fails(f, 1) && db.nextMessage !in db.messages
    ensures r.status == Created ==>
      && r.id == Some(db.nextMessage)
      && db.nextMessage in r.db.messages
      && r.db.messages[db.nextMessage] == Message(tid, sender, content, isOffer, None)
  {
    InsertMessageRoute(db, Message(tid, sender, content, isOffer, None), f)
  }

  /** POST /favorites: adds the (user, listing) pair; a pair already present
      is a duplicate key. */
  function AddFavorite(db: Db, user: Id, listing: Id, f: Fault): (r: Outcome)
    ensures r.id == None
    ensures r.status == Ok || r.status == ServerError
    ensures r.status == Ok <==> !Fails(f, 1) && Favorite(user, listing) !in db.favorites
    ensures r.status == ServerError ==> r.db == db
    ensures r.db == db.(favorites := r.db.favorites)
    ensures forall g :: g in r.db.favorites <==> g in db.favorites || (r.status == Ok && g == Favorite(user, listing))
  {
    Respond(Then(Start(db), f, 1, InsertFavorite(Favorite(user, listing))), Ok)
  }

  /** DELETE /favorites: removes the (user, listing) pair, answering 200
      whether or not it was there. */
  function RemoveFavorite(db: Db, user: Id, listing: Id, f: Fault): (r: Outcome)
    ensures r.id == None
    ensures r.status == Ok || r.status == ServerError
    ensures r.status == Ok <==> !Fails(f, 1)
    ensures r.db == db.(favorites := r.db.favorites)
    ensures forall g :: g in r.db.favorites <==> g in db.favorites && (r.status == ServerError || g != Favorite(user, listing))
  {
    Respond(Then(Start(db), f, 1, DeleteFavorite(Favorite(user, listing))), Ok)
  }

  /** Accepting an offer in a well-formed database adds exactly one active
      transaction, under a fresh id, holding the request's fields, and
      consumes the offer id; nothing checks that the offer existed or that
      its row agrees with the request. */
  lemma AcceptOfferAddsOneTransaction(db: Db, oid: Id, listing: Id, seller: Id, buyer: Id, amount: Amount)
    requires WellFormed(db)
    ensures var r := AcceptOffer(db, oid, listing, seller, buyer, amount, NoFault);
      && r.status == Ok
      && |r.db.active| == |db.active| + 1
      && db.nextTxn !in db.active && db.nextTxn !in db.past
      && r.db.active.Keys == db.active.Keys + {db.nextTxn}
      && r.db.active[db.nextTxn] == Txn(listing, seller, buyer, amount)
      && oid !in r.db.offers
      && r.db.past == db.past && r.db.messages == db.messages
      && r.db.listings == db.listings && r.db.favorites == db.favorites
  {
    assert db.nextTxn !in db.active;
  }

  /** Declining the same offer twice leaves the database as declining it
      once would: the second delete matches nothing. */
  lemma DeclineOfferIdempotent(db: Db, oid: Id, f1: Fault, f2: Fault)
    ensures var once := DeclineOffer(db, oid, f1);
      var twice := DeclineOffer(once.db, oid, f2);
      && (once.status == Ok ==> twice.db == once.db)
      && (once.status == Ok || twice.status == Ok ==> twice.db == DeclineOffer(db, oid, NoFault).db)
      && (twice.status == ServerError && once.status == ServerError ==> twice.db == db)
  {
  }

  /** Declining the same message offer twice leaves the database as
      declining it once would. */
  lemma DeclineMessageOfferIdempotent(db: Db, mid: Id, f1: Fault, f2: Fault)
    ensures var once := DeclineMessageOffer(db, mid, f1);
      var twice := DeclineMessageOffer(once.db, mid, f2);
      && (once.status == Ok ==> twice.db == once.db)
      && (once.status == Ok || twice.status == Ok ==> twice.db == DeclineMessageOffer(db, mid, NoFault).db)
      && (twice.status == ServerError && once.status == ServerError ==> twice.db == db)
  {
  }

  /** Posting a message does not check its transaction: a message for a
      transaction that is not live is stored, so messages can outlive (or
      precede) their transaction. */
  lemma PostMessageCanOrphan(db: Db, tid: Id, sender: Id, content: string, isOffer: bool, offerAmount: Option<Amount>)
    requires WellFormed(db) && tid !in db.active
    ensures var r := PostMessage(db, tid, sender, content, isOffer, offerAmount, NoFault);
      r.status == Created && !OrphanFree(r.db)
  {
    var r := PostMessage(db, tid, sender, content, isOffer, offerAmount, NoFault);
    assert db.nextMessage !in db.messages;
    assert r.db.messages[db.nextMessage].txn == tid;
  }

  /** Removing a favorite undoes adding it. */
  lemma RemoveFavoriteUndoesAdd(db: Db, user: Id, listing: Id)
    requires Favorite(user, listing) !in db.favorites
    ensures var added := AddFavorite(db, user, listing, NoFault);
      && added.status == Ok
      && RemoveFavorite(added.db, user, listing, NoFault).db == db
  {
  }

  /** Declining an offer right after making it restores the Offers table;
      only the auto-increment counter has moved on. */
  lemma DeclineUndoesPostOffer(db: Db, listing: Id, seller: Id, buyer: Id, amount: Amount)
    requires WellFormed(db)
    ensures var posted := PostOffer(db, listing, seller, buyer, amount, NoFault);
      && posted.status == Created
      && DeclineOffer(posted.db, db.nextOffer, NoFault).db == db.(nextOffer := db.nextOffer + 1)
  {
    assert db.nextOffer !in db.offers;
  }
}
