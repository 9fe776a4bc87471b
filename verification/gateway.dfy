/** The persistence gateway: what each parameterised SQL statement of the
    lifecycle core does to the tables, how a route chains its statements in
    callbacks, and how it answers.

    A statement either succeeds with a new database or fails. It fails when
    the store reports an error; the `Fault` oracle stands for errors the model
    cannot see (lost connection, constraint outside the model), and a key
    violation on INSERT is an error the model computes itself.
 */
module Gateway {
  import opened Store

  datatype Stmt =
    | InsertOffer(offer: Offer)                   // INSERT INTO Offers ... VALUES
    | SetOfferAmount(oid: Id, amount: Amount)     // UPDATE Offers SET OfferAmount = ? WHERE OfferID = ?
    | DeleteOffer(oid: Id)                        // DELETE FROM Offers WHERE OfferID = ?
    | InsertActive(txn: Txn)                      // INSERT INTO ActiveTransactions ... VALUES
    | SetActiveAmount(tid: Id, amount: Amount)    // UPDATE ActiveTransactions SET Amount = ? WHERE TransactionID = ?
    | DeleteActive(tid: Id)                       // DELETE FROM ActiveTransactions WHERE TransactionID = ?
    | CopyActiveToPast(tid: Id)                   // INSERT INTO PastTransactions ... SELECT ... WHERE TransactionID = ?
    | InsertMessage(msg: Message)                 // INSERT INTO Messages ... VALUES
    | DeleteMessage(mid: Id)                      // DELETE FROM Messages WHERE MessageID = ?
    | DeleteMessagesOf(tid: Id)                   // DELETE FROM Messages WHERE TransactionID = ?
    | MarkSold(lid: Id)                           // UPDATE Listings SET IsSold = TRUE WHERE ListingID = ?
    | InsertFavorite(fav: Favorite)               // INSERT INTO Favorites ... VALUES
    | DeleteFavorite(fav: Favorite)               // DELETE FROM Favorites WHERE UserID = ? AND ListingID = ?
    | DeleteFavoritesOf(lid: Id)                  // DELETE FROM Favorites WHERE ListingID = ?

  /** DELETE ... WHERE TransactionID = tid on Messages: keeps exactly the
      rows of other transactions, unchanged. */
  function MessagesWithout(ms: map<Id, Message>, tid: Id): (r: map<Id, Message>)
    ensures forall m :: m in r <==> m in ms && ms[m].txn != tid
    ensures forall m :: m in r ==> r[m] == ms[m]
  {
    map m | m in ms && ms[m].txn != tid :: ms[m]
  }

  /** DELETE ... WHERE ListingID = lid on Favorites. */
  function FavoritesWithout(fs: set<Favorite>, lid: Id): (r: set<Favorite>)
    ensures forall f :: f in r <==> f in fs && f.listing != lid
  {
    set f | f in fs && f.listing != lid
  }

  /** UPDATE Listings SET IsSold = TRUE WHERE ListingID = lid: a missing
      listing matches no row. */
  function SetSold(ls: map<Id, bool>, lid: Id): (r: map<Id, bool>)
    ensures r.Keys == ls.Keys
    ensures lid in ls ==> r[lid]
    ensures forall l :: l in ls && l != lid ==> r[l] == ls[l]
  {
    if lid in ls then ls[lid := true] else ls
  }

  /** The key a statement inserts under is already taken. */
  predicate KeyViolation(db: Db, s: Stmt) {
    match s
    case InsertOffer(_) => db.nextOffer in db.offers
    case InsertActive(_) => db.nextTxn in db.active
    case CopyActiveToPast(tid) => tid in db.active && tid in db.past
    case InsertMessage(_) => db.nextMessage in db.messages
    case InsertFavorite(fav) => fav in db.favorites
    case _ => false
  }

  /** Executes one statement against the tables; None is the store's error. */
  function Exec(db: Db, s: Stmt): (r: Option<Db>)
    ensures r.None? <==> KeyViolation(db, s)
    // each statement writes one table (and, for an INSERT, its counter); every other table is equal
    ensures r.Some? && s.InsertOffer? ==>
      r.value == db.(offers := r.value.offers, nextOffer := r.value.nextOffer)
    ensures r.Some? && (s.SetOfferAmount? || s.DeleteOffer?) ==> r.value == db.(offers := r.value.offers)
    ensures r.Some? && s.InsertActive? ==>
      r.value == db.(active := r.value.active, nextTxn := r.value.nextTxn)
    ensures r.Some? && (s.SetActiveAmount? || s.DeleteActive?) ==> r.value == db.(active := r.value.active)
    ensures r.Some? && s.CopyActiveToPast? ==> r.value == db.(past := r.value.past)
    ensures r.Some? && s.InsertMessage? ==>
      r.value == db.(messages := r.value.messages, nextMessage := r.value.nextMessage)
    ensures r.Some? && (s.DeleteMessage? || s.DeleteMessagesOf?) ==> r.value == db.(messages := r.value.messages)
    ensures r.Some? && s.MarkSold? ==> r.value == db.(listings := r.value.listings)
    ensures r.Some? && (s.InsertFavorite? || s.DeleteFavorite? || s.DeleteFavoritesOf?) ==>
      r.value == db.(favorites := r.value.favorites)
  {
    if KeyViolation(db, s) then None
    else
      match s
      case InsertOffer(o) =>
        Some(db.(offers := db.offers[db.nextOffer := o], nextOffer := db.nextOffer + 1))
      case SetOfferAmount(oid, a) =>
        Some(if oid in db.offers then db.(offers := db.offers[oid := db.offers[oid].(amount := a)]) else db)
      case DeleteOffer(oid) =>
        Some(db.(offers := db.offers - {oid}))
      case InsertActive(t) =>
        Some(db.(active := db.active[db.nextTxn := t], nextTxn := db.nextTxn + 1))
      case SetActiveAmount(tid, a) =>
        Some(if tid in db.active then db.(active := db.active[tid := db.active[tid].(amount := a)]) else db)
      case DeleteActive(tid) =>
        Some(db.(active := db.active - {tid}))
      case CopyActiveToPast(tid) =>
        // the SELECT matches no row when tid is not active, so nothing is inserted
        Some(if tid in db.active then db.(past := db.past[tid := db.active[tid]]) else db)
      case InsertMessage(m) =>
        Some(db.(messages := db.messages[db.nextMessage := m], nextMessage := db.nextMessage + 1))
      case DeleteMessage(mid) =>
        Some(db.(messages := db.messages - {mid}))
      case DeleteMessagesOf(tid) =>
        Some(db.(messages := MessagesWithout(db.messages, tid)))
      case MarkSold(lid) =>
        Some(db.(listings := SetSold(db.listings, lid)))
      case InsertFavorite(f) =>
        Some(db.(favorites := db.favorites + {f}))
      case DeleteFavorite(f) =>
        Some(db.(favorites := db.favorites - {f}))
      case DeleteFavoritesOf(lid) =>
        Some(db.(favorites := FavoritesWithout(db.favorites, lid)))
  }

  /** What each successful statement does to the one table it writes. */
  lemma ExecSemantics(db: Db, s: Stmt, d: Db)
    requires Exec(db, s) == Some(d)
    // an auto-increment INSERT stores its row under the counter's key, keeps every row and advances the counter
    ensures s.InsertOffer? ==>
      && d.offers.Keys == db.offers.Keys + {db.nextOffer} && d.offers[db.nextOffer] == s.offer
      && d.nextOffer == db.nextOffer + 1
      && forall k :: k in db.offers ==> d.offers[k] == db.offers[k]
    ensures s.InsertActive? ==>
      && d.active.Keys == db.active.Keys + {db.nextTxn} && d.active[db.nextTxn] == s.txn
      && d.nextTxn == db.nextTxn + 1
      && forall k :: k in db.active ==> d.active[k] == db.active[k]
    ensures s.InsertMessage? ==>
      && d.messages.Keys == db.messages.Keys + {db.nextMessage} && d.messages[db.nextMessage] == s.msg
      && d.nextMessage == db.nextMessage + 1
      && forall k :: k in db.messages ==> d.messages[k] == db.messages[k]
    // an UPDATE changes one column of the matching row and nothing when no row matches
    ensures s.SetOfferAmount? ==>
      && d.offers.Keys == db.offers.Keys && d.nextOffer == db.nextOffer
      && forall k :: k in db.offers ==>
           d.offers[k] == if k == s.oid then db.offers[k].(amount := s.amount) else db.offers[k]
    ensures s.SetActiveAmount? ==>
      && d.active.Keys == db.active.Keys && d.nextTxn == db.nextTxn
      && forall k :: k in db.active ==>
           d.active[k] == if k == s.tid then db.active[k].(amount := s.amount) else db.active[k]
    // a DELETE keeps exactly the rows that do not match, unchanged
    ensures s.DeleteOffer? ==>
      && d.offers.Keys == db.offers.Keys - {s.oid} && d.nextOffer == db.nextOffer
      && forall k :: k in d.offers ==> d.offers[k] == db.offers[k]
    ensures s.DeleteActive? ==>
      && d.active.Keys == db.active.Keys - {s.tid} && d.nextTxn == db.nextTxn
      && forall k :: k in d.active ==> d.active[k] == db.active[k]
    ensures s.DeleteMessage? ==>
      && d.messages.Keys == db.messages.Keys - {s.mid} && d.nextMessage == db.nextMessage
      && forall k :: k in d.messages ==> d.messages[k] == db.messages[k]
    ensures s.DeleteMessagesOf? ==>
      && d.nextMessage == db.nextMessage
      && (forall k :: k in d.messages <==> k in db.messages && db.messages[k].txn != s.tid)
      && forall k :: k in d.messages ==> d.messages[k] == db.messages[k]
    ensures s.DeleteFavorite? ==> d.favorites == db.favorites - {s.fav}
    ensures s.DeleteFavoritesOf? ==>
      forall g :: g in d.favorites <==> g in db.favorites && g.listing != s.lid
    // INSERT ... SELECT copies the active row under its own TransactionID, or inserts nothing
    ensures s.CopyActiveToPast? ==>
      && PastKept(db, d)
      && (s.tid in db.active ==> d.past.Keys == db.past.Keys + {s.tid} && d.past[s.tid] == db.active[s.tid])
      && (s.tid !in db.active ==> d == db)
    ensures s.MarkSold? ==>
      && d.listings.Keys == db.listings.Keys
      && (s.lid in db.listings ==> d.listings[s.lid])
      && forall l :: l in db.listings && l != s.lid ==> d.listings[l] == db.listings[l]
    ensures s.InsertFavorite? ==> d.favorites == db.favorites + {s.fav} && s.fav !in db.favorites
  {
  }

  /** Which statement of a route, counted from 1, the store fails on, if any. */
  datatype Fault = NoFault | FailAt(step: nat)

  predicate Fails(f: Fault, k: nat) {
    f == FailAt(k)
  }

  /** The store fails on none of the statements lo..hi. */
  predicate Passes(f: Fault, lo: nat, hi: nat) {
    !(f.FailAt? && lo <= f.step <= hi)
  }

  /** Where a chain of callbacks stands: still running (`ok`) or stopped at
      an error, and the database as the statements issued so far left it. */
  datatype Chain = Chain(ok: bool, db: Db)

  function Start(db: Db): Chain {
    Chain(true, db)
  }

  /** The next callback: statement `s`, issued as step `k`, runs only when
      every earlier one succeeded; an error stops the chain and keeps what
      the earlier statements wrote. */
  function Then(c: Chain, f: Fault, k: nat, s: Stmt): (r: Chain)
    ensures !c.ok ==> r == c
    ensures r.ok <==> c.ok && !Fails(f, k) && !KeyViolation(c.db, s)
    ensures r.ok ==> Exec(c.db, s) == Some(r.db)
    ensures !r.ok ==> r.db == c.db
  {
    if !c.ok || Fails(f, k) then Chain(false, c.db)
    else match Exec(c.db, s)
      case None => Chain(false, c.db)
      case Some(db') => Chain(true, db')
  }

  datatype Status = Ok | Created | NotFound | ServerError {
    function Code(): nat {
      match this
      case Ok => 200
      case Created => 201
      case NotFound => 404
      case ServerError => 500
    }
  }

  /** A route's answer: HTTP status, the inserted id when the route reports
      one, and the database afterwards. */
  datatype Outcome = Outcome(status: Status, id: Option<Id>, db: Db)

  /** Answers `success` when the whole chain ran, and 500 otherwise. */
  function Respond(c: Chain, success: Status): Outcome {
    Outcome(if c.ok then success else ServerError, None, c.db)
  }
}
