/** Opening an order: two transactions around the call that creates the Stripe
    session (app/services/purchase_service.py). */
module Checkouts {
  import opened Basics
  import opened Tables
  import opened Pricing
  import opened Inventory
  import opened Fulfillment

  datatype CheckoutRequest = CheckoutRequest(
    buyer: Buyer,
    insuranceType: string,
    municipality: Option<string>,
    price: int,
    quantity: int)

  /** What creating the session gave: its id, or any exception. */
  datatype StripeReply = Session(id: string) | Failure

  function FreshFrom(purchases: seq<Purchase>, ids: seq<string>, k: nat): Option<string>
    requires k <= |ids|
    decreases |ids| - k
  {
    if k == |ids| then None
    else if FindOrder(purchases, ids[k]).None? then Some(ids[k])
    else FreshFrom(purchases, ids, k + 1)
  }

  function NewOrder(r: CheckoutRequest, publicId: string, now: int): Purchase {
    Purchase(publicId, r.buyer, r.insuranceType, r.municipality, r.quantity, r.price, r.quantity * r.price,
      None, None, PENDING, now, None, None, None)
  }

  /** The first transaction. `ids` are the random ids drawn in turn; while all
      of them are taken the request is still drawing and nothing is written. */
  function Open(s: State, r: CheckoutRequest, today: Date, ids: seq<string>): (State, Result<string, Error>) {
    match ValidateQuantity(s, today, r.quantity, r.price, Demand(r.municipality, r.insuranceType))
    case Err(e) => (s, Err(e))
    case Ok(_) =>
      match FreshFrom(s.purchases, ids, 0)
      case None => (s, Err(Crashed))
      case Some(id) => (s.(purchases := s.purchases + [NewOrder(r, id, s.clock)]), Ok(id))
  }

  /** The transaction after a session was created: its id is stored whatever happened since. */
  function Link(s: State, publicId: string, checkoutId: string): (State, Result<(), Error>) {
    match FindOrder(s.purchases, publicId)
    case None => (s, Err(Crashed))
    case Some(i) =>
      FindOrderExact(s.purchases, publicId);
      if CheckoutTaken(s.purchases, i, Some(checkoutId)) then (s, Err(IntegrityError))
      else (s.(purchases := s.purchases[i := s.purchases[i].(checkoutId := Some(checkoutId))]), Ok(()))
  }

  /** The transaction after the session could not be created. */
  function Abandon(s: State, publicId: string): State {
    match FindOrder(s.purchases, publicId)
    case None => s
    case Some(i) =>
      FindOrderExact(s.purchases, publicId);
      if s.purchases[i].status == PENDING then
        s.(purchases := s.purchases[i := s.purchases[i].(status := FAILED)])
      else s
  }

  predicate Unused(purchases: seq<Purchase>, id: string) {
    forall j | 0 <= j < |purchases| :: purchases[j].publicId != id
  }

  lemma {:induction false} FreshIsFresh(purchases: seq<Purchase>, ids: seq<string>, k: nat)
    requires k <= |ids|
    ensures var id := FreshFrom(purchases, ids, k);
      && (id.Some? ==> id.value in ids && Unused(purchases, id.value))
      && (id.Some? <==> exists m | k <= m < |ids| :: Unused(purchases, ids[m]))
    decreases |ids| - k
  {
    if k < |ids| {
      FindOrderExact(purchases, ids[k]);
      if FindOrder(purchases, ids[k]).Some? {
        FreshIsFresh(purchases, ids, k + 1);
      }
    }
  }

  /** An order is opened exactly when a positive quantity, no more than is for sale at its price, is
      asked for (and a drawn id is free). It has an unused id, the request's own data, an active price
      and a total that multiplies out; no lead is set aside and nothing else changes. */
  lemma OpenExact(s: State, r: CheckoutRequest, today: Date, ids: seq<string>)
    ensures var (after, result) := Open(s, r, today, ids);
      var rows := Query(s, today, Some(r.price), Demand(r.municipality, r.insuranceType));
      && (result.Err? ==> after == s)
      && (result.Ok? <==>
            rows.Ok? && 0 < r.quantity <= |rows.value| && exists k | 0 <= k < |ids| :: Unused(s.purchases, ids[k]))
      && (rows.Err? ==> result == Err(PricingRuleNotFound))
      && (rows.Ok? && !(0 < r.quantity <= |rows.value|) ==> result == Err(InsufficientInventory))
      && (result.Ok? ==>
            && |after.purchases| == |s.purchases| + 1
            && after == s.(purchases := s.purchases + [after.purchases[|s.purchases|]])
            && result.value in ids && (forall j | 0 <= j < |s.purchases| :: s.purchases[j].publicId != result.value)
            && var p := after.purchases[|s.purchases|];
            && p.publicId == result.value && p.status == PENDING && p.createdAt == s.clock
            && p.buyer == r.buyer && p.insuranceType == r.insuranceType && p.municipality == r.municipality
            && p.quantity == r.quantity && p.price == r.price
            && p.checkoutId.None? && p.intent.None? && p.paidAt.None? && p.fulfilledAt.None? && p.emailSentAt.None?
            && p.total == p.quantity * p.price && p.quantity > 0
            && (exists i | 0 <= i < |s.rules| :: s.rules[i].active && s.rules[i].price == p.price)
            && Query(s, today, Some(p.price), Demand(p.municipality, p.insuranceType)).Ok?
            && p.quantity <= |Query(s, today, Some(p.price), Demand(p.municipality, p.insuranceType)).value|)
  {
    FreshIsFresh(s.purchases, ids, 0);
    var active := ActiveList(s.rules);
    ActiveListExact(s.rules);
    WithPriceExact(s.rules, active, r.price);
    var kept := WithPrice(s.rules, active, r.price);
    if kept != [] {
      assert kept[0] in kept;
    }
  }

  /** The second transaction writes one field of the order it opened: the session id, unless another order
      holds it, or the failed status, only while the order is pending; a payment that came first stays. */
  lemma SecondTransaction(s: State, publicId: string, checkoutId: string)
    ensures var row := FindOrder(s.purchases, publicId);
      var linked, abandoned := Link(s, publicId, checkoutId), Abandon(s, publicId);
      && (row.Some? ==> row.value < |s.purchases|)
      && (linked.1.Ok? <==> row.Some? && !CheckoutTaken(s.purchases, row.value, Some(checkoutId)))
      && (linked.1.Err? ==> linked.0 == s)
      && (linked.1.Ok? && row.Some? ==>
            var saved := s.purchases[row.value].(checkoutId := Some(checkoutId));
            linked.0 == s.(purchases := s.purchases[row.value := saved]))
      && (row.Some? && s.purchases[row.value].status == PENDING ==>
            abandoned == s.(purchases := s.purchases[row.value := s.purchases[row.value].(status := FAILED)]))
      && (row.None? || s.purchases[row.value].status != PENDING ==> abandoned == s)
  {
    FindOrderExact(s.purchases, publicId);
  }

  class PurchaseService {
    const db: Database

    constructor (db: Database)
      ensures this.db == db
    {
      this.db := db;
    }

    method CreateCheckout(r: CheckoutRequest, today: Date, ids: seq<string>, stripe: StripeReply)
      returns (result: Result<string, Error>)
      modifies db
      ensures var (placed, id) := Open(old(db.View()), r, today, ids);
        if id.Err? then db.View() == placed && result == Err(id.error)
        else match stripe
          case Failure => db.View() == Abandon(placed, id.value) && result == Err(IntegrationError)
          case Session(checkout) =>
            && db.View() == Link(placed, id.value, checkout).0
            && result == match Link(placed, id.value, checkout).1
                 case Err(e) => Err(e)
                 case Ok(_) => Ok(id.value)
    {
      var valid := ValidateQuantity(db.View(), today, r.quantity, r.price, Demand(r.municipality, r.insuranceType));
      if valid.Err? {
        return Err(valid.error);
      }
      var k := 0;
      while k < |ids| && FindOrder(db.purchases, ids[k]).Some?
        invariant k <= |ids|
        invariant FreshFrom(db.purchases, ids, 0) == FreshFrom(db.purchases, ids, k)
        decreases |ids| - k
      {
        k := k + 1;
      }
      if k == |ids| {
        return Err(Crashed);
      }
      var publicId := ids[k];
      db.purchases := db.purchases + [NewOrder(r, publicId, db.clock)];
      // The order is committed; the network call happens between the transactions.
      match stripe
      case Failure =>
        FindOrderExact(db.purchases, publicId);
        var saved := FindOrder(db.purchases, publicId);
        if saved.Some? && db.purchases[saved.value].status == PENDING {
          db.purchases := db.purchases[saved.value := db.purchases[saved.value].(status := FAILED)];
        }
        return Err(IntegrationError);
      case Session(checkout) =>
        FindOrderExact(db.purchases, publicId);
        var saved := FindOrder(db.purchases, publicId);
        if saved.None? {
          return Err(Crashed);
        }
        if CheckoutTaken(db.purchases, saved.value, Some(checkout)) {
          return Err(IntegrityError);
        }
        db.purchases := db.purchases[saved.value := db.purchases[saved.value].(checkoutId := Some(checkout))];
        return Ok(publicId);
    }
  }
}
