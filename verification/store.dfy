/** The marketplace database as an immutable record of tables.

    Every table of the lifecycle core is a map from its primary key to a
    row; the Listings table is reduced to its IsSold flag, and Favorites is
    a set of (UserID, ListingID) pairs. Auto-increment keys are drawn from
    one counter per table.
 */
module Store {

  type Id = nat

  /** Offer and transaction amounts are stored and copied, never computed
      with, so an unbounded integer stands for the column's value. */
  type Amount = int

  datatype Option<T> = None | Some(value: T)

  /** A row of Offers, keyed by OfferID. */
  datatype Offer = Offer(listing: Id, seller: Id, buyer: Id, amount: Amount)

  /** A row of ActiveTransactions or of PastTransactions, keyed by
      TransactionID; both tables have these columns. */
  datatype Txn = Txn(listing: Id, seller: Id, buyer: Id, amount: Amount)

  /** A row of Messages, keyed by MessageID. `offerAmount` is NULL (None)
      when the message carries no offer. */
  datatype Message = Message(txn: Id, sender: Id, content: string, isOffer: bool, offerAmount: Option<Amount>)

  /** A row of Favorites. */
  datatype Favorite = Favorite(user: Id, listing: Id)

  datatype Db = Db(
    offers: map<Id, Offer>,
    active: map<Id, Txn>,
    past: map<Id, Txn>,
    messages: map<Id, Message>,
    listings: map<Id, bool>,  // ListingID -> IsSold
    favorites: set<Favorite>,
    nextOffer: Id,            // next auto-increment OfferID
    nextTxn: Id,              // next auto-increment TransactionID
    nextMessage: Id           // next auto-increment MessageID
  )

  /** Every auto-increment key in use lies below its counter. PastTransactions
      rows carry TransactionIDs, so they lie below the transaction counter. */
  predicate WellFormed(db: Db) {
    && (forall k :: k in db.offers ==> k < db.nextOffer)
    && (forall k :: k in db.active ==> k < db.nextTxn)
    && (forall k :: k in db.past ==> k < db.nextTxn)
    && (forall k :: k in db.messages ==> k < db.nextMessage)
  }

  /** No transaction is both live and completed. */
  predicate Resolved(db: Db) {
    db.active.Keys !! db.past.Keys
  }

  /** Every message belongs to a live transaction. */
  predicate OrphanFree(db: Db) {
    forall m :: m in db.messages ==> db.messages[m].txn in db.active
  }

  predicate HasMessagesOf(db: Db, tid: Id) {
    exists m :: m in db.messages && db.messages[m].txn == tid
  }

  predicate HasFavoritesOf(db: Db, lid: Id) {
    exists f :: f in db.favorites && f.listing == lid
  }

  predicate IsSold(db: Db, lid: Id) {
    lid in db.listings && db.listings[lid]
  }

  /** A past transaction row, once written, is never changed or removed. */
  predicate PastKept(before: Db, after: Db) {
    forall t :: t in before.past ==> t in after.past && after.past[t] == before.past[t]
  }

  /** No listing disappears and no sold flag is cleared. */
  predicate SoldKept(before: Db, after: Db) {
    && after.listings.Keys == before.listings.Keys
    && forall l :: l in before.listings && before.listings[l] ==> IsSold(after, l)
  }
}
