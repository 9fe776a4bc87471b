/** The server as a whole: every state-changing request of the lifecycle
    core, dispatched to its route, and runs of requests one after another.
    The facts proved here hold of every run, whatever the store fails on.
 */
module Server {
  import opened Store
  import opened Gateway
  import Negotiation
  import Lifecycle

  datatype Request =
    | PostOffer(listing: Id, seller: Id, buyer: Id, amount: Amount)
    | PutOffer(oid: Id, amount: Amount)
    | AcceptOffer(oid: Id, listing: Id, seller: Id, buyer: Id, amount: Amount)
    | AcceptMessageOffer(tid: Id, amount: Amount)
    | DeclineOffer(oid: Id)
    | DeclineMessageOffer(mid: Id)
    | PostMessage(tid: Id, sender: Id, content: string, isOffer: bool, offerAmount: Option<Amount>)
    | PostDeclineMessage(tid: Id, sender: Id, content: string, isOffer: bool)
    | AddFavorite(user: Id, listing: Id)
    | RemoveFavorite(user: Id, listing: Id)
    | ConfirmSale(tid: Id)
    | CancelSale(tid: Id)

  /** One request together with what the store does while serving it. */
  datatype Call = Call(req: Request, fault: Fault)

  function Handle(db: Db, req: Request, f: Fault): Outcome {
    match req
    case PostOffer(l, s, b, a) => Negotiation.PostOffer(db, l, s, b, a, f)
    case PutOffer(o, a) => Negotiation.PutOffer(db, o, a, f)
    case AcceptOffer(o, l, s, b, a) => Negotiation.AcceptOffer(db, o, l, s, b, a, f)
    case AcceptMessageOffer(t, a) => Negotiation.AcceptMessageOffer(db, t, a, f)
    case DeclineOffer(o) => Negotiation.DeclineOffer(db, o, f)
    case DeclineMessageOffer(m) => Negotiation.DeclineMessageOffer(db, m, f)
    case PostMessage(t, s, c, i, a) => Negotiation.PostMessage(db, t, s, c, i, a, f)
    case PostDeclineMessage(t, s, c, i) => Negotiation.PostDeclineMessage(db, t, s, c, i, f)
    case AddFavorite(u, l) => Negotiation.AddFavorite(db, u, l, f)
    case RemoveFavorite(u, l) => Negotiation.RemoveFavorite(db, u, l, f)
    case ConfirmSale(t) => Lifecycle.ConfirmSale(db, t, f)
    case CancelSale(t) => Lifecycle.CancelSale(db, t, f)
  }

  /** The database after serving `calls` in order. */
  function Run(db: Db, calls: seq<Call>): Db
    decreases |calls|
  {
    if |calls| == 0 then db
    else Run(Handle(db, calls[0].req, calls[0].fault).db, calls[1..])
  }

  predicate FaultFree(calls: seq<Call>) {
    forall i :: 0 <= i < |calls| ==> calls[i].fault == NoFault
  }

  /** Every single request keeps the auto-increment keys below their
      counters. */
  lemma HandleKeepsWellFormed(db: Db, req: Request, f: Fault)
    requires WellFormed(db)
    ensures WellFormed(Handle(db, req, f).db)
  {
  }

  /** No single request changes or removes a past transaction row or
      clears a sold flag. */
  lemma HandleKeepsPastAndSold(db: Db, req: Request, f: Fault)
    ensures PastKept(db, Handle(db, req, f).db)
    ensures SoldKept(db, Handle(db, req, f).db)
  {
  }

  /** A request served without a store error keeps live and completed
      transactions apart, given well-formed keys. */
  lemma HandleKeepsResolved(db: Db, req: Request)
    requires WellFormed(db) && Resolved(db)
    ensures Resolved(Handle(db, req, NoFault).db)
  {
    match req
    case ConfirmSale(t) =>
      if t in db.active && t !in db.past {
        Lifecycle.ConfirmSaleSucceeds(db, t);
      }
    case AcceptOffer(o, l, s, b, a) =>
      assert db.nextTxn !in db.past;
    case _ =>
  }

  /** Any run keeps auto-increment keys below their counters. */
  lemma {:induction false} RunKeepsWellFormed(db: Db, calls: seq<Call>)
    requires WellFormed(db)
    ensures WellFormed(Run(db, calls))
    decreases |calls|
  {
    if |calls| > 0 {
      HandleKeepsWellFormed(db, calls[0].req, calls[0].fault);
      RunKeepsWellFormed(Handle(db, calls[0].req, calls[0].fault).db, calls[1..]);
    }
  }

  /** PastTransactions is append-only over any run: a row once written is
      never changed or removed. */
  lemma {:induction false} RunKeepsPast(db: Db, calls: seq<Call>)
    ensures PastKept(db, Run(db, calls))
    decreases |calls|
  {
    if |calls| > 0 {
      var d := Handle(db, calls[0].req, calls[0].fault).db;
      HandleKeepsPastAndSold(db, calls[0].req, calls[0].fault);
      RunKeepsPast(d, calls[1..]);
    }
  }

  /** A listing once sold stays sold over any run, and the set of listings
      is unchanged. */
  lemma {:induction false} RunKeepsSold(db: Db, calls: seq<Call>)
    ensures SoldKept(db, Run(db, calls))
    decreases |calls|
  {
    if |calls| > 0 {
      var d := Handle(db, calls[0].req, calls[0].fault).db;
      HandleKeepsPastAndSold(db, calls[0].req, calls[0].fault);
      RunKeepsSold(d, calls[1..]);
    }
  }

  /** When the store never fails, no transaction is ever both active and
      past: each is live, completed or deleted. */
  lemma {:induction false} FaultFreeRunKeepsResolved(db: Db, calls: seq<Call>)
    requires WellFormed(db) && Resolved(db) && FaultFree(calls)
    ensures Resolved(Run(db, calls))
    decreases |calls|
  {
    if |calls| > 0 {
      assert calls[0].fault == NoFault;
      var d := Handle(db, calls[0].req, NoFault).db;
      HandleKeepsWellFormed(db, calls[0].req, NoFault);
      HandleKeepsResolved(db, calls[0].req);
      assert FaultFree(calls[1..]) by {
        forall i | 0 <= i < |calls[1..]| ensures calls[1..][i].fault == NoFault {
          assert calls[1..][i] == calls[i + 1];
        }
      }
      FaultFreeRunKeepsResolved(d, calls[1..]);
    }
  }

  /** With store errors allowed, one confirm-sale failing at step 3 is
      enough to leave a transaction both active and past. */
  lemma FaultyRunCanBreakResolved(db: Db, tid: Id)
    requires tid in db.active && tid !in db.past
    ensures !Resolved(Run(db, [Call(ConfirmSale(tid), FailAt(3))]))
  {
    Lifecycle.ConfirmSaleStopsAt(db, tid, 3);
    var d := Lifecycle.ConfirmSale(db, tid, FailAt(3)).db;
    assert Run(db, [Call(ConfirmSale(tid), FailAt(3))]) == Run(d, []);
    assert tid in d.active && tid in d.past;
  }
}
