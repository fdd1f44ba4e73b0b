/** Settling a Checkout session: bind it to its order, record the payment, and
    allocate exactly the paid quantity or nothing (app/services/fulfillment_service.py). */
module Fulfillment {
  import opened Basics
  import opened Tables
  import opened Pricing
  import opened Inventory

  const MISMATCH := "payment_details_mismatch"
  const UNAVAILABLE := "post_payment_inventory_unavailable"

  predicate Terminal(status: Status) {
    status == FULFILLED || status == FULFILLMENT_FAILED
  }

  predicate StartsWith(text: Option<string>, prefix: string) {
    text.Some? && prefix <= text.value
  }

  /** Another order already holds this Checkout id: the column is unique. */
  predicate CheckoutTaken(purchases: seq<Purchase>, i: nat, id: Option<string>) {
    exists j | 0 <= j < |purchases| :: j != i && purchases[j].checkoutId == id
  }

  predicate IntentTaken(purchases: seq<Purchase>, i: nat, intent: Option<string>) {
    exists j | 0 <= j < |purchases| :: j != i && purchases[j].intent == intent
  }

  /** The order a session names, if every reference agrees. */
  function Bind(purchases: seq<Purchase>, c: Checkout): (found: Result<nat, Error>)
    ensures found.Ok? ==> found.value < |purchases|
  {
    if c.orderReference.None? then Err(DomainError)
    else
      FindOrderExact(purchases, c.orderReference.value);
      match FindOrder(purchases, c.orderReference.value)
      case None => Err(NotFoundError)
      case Some(i) =>
        var p := purchases[i];
        if !StartsWith(c.id, "cs_") then Err(DomainError)
        else if c.clientReference != Some(p.publicId) then Err(DomainError)
        else if Truthy(p.checkoutId) && p.checkoutId != c.id then Err(DomainError)
        else Ok(i)
  }

  function Allocate(s: State, order: nat, price: int, today: Date, picked: seq<nat>): Result<seq<Allocation>, Error>
    requires forall k | 0 <= k < |picked| :: picked[k] < |s.leads|
  {
    if picked == [] then Ok([])
    else
      var lead := picked[|picked| - 1];
      match Allocate(s, order, price, today, picked[..|picked| - 1])
      case Err(e) => Err(e)
      case Ok(rows) =>
        var rule := ApplicableRule(s.leads[lead].fields.leadDate, today, s.rules, ActiveList(s.rules));
        ActiveListExact(s.rules);
        ApplicableRuleFirst(s.leads[lead].fields.leadDate, today, s.rules, ActiveList(s.rules));
        if rule.None? then Err(RuntimeFailure)
        else
          var until := s.clock + s.rules[rule.value].exclusionDays * DAY;
          if until > MAX_INSTANT then Err(DateOverflow)
          else Ok(rows + [Allocation(order, lead, rule.value, price, s.clock, until)])
  }

  function Failed(s: State, i: nat, paid: Purchase, reason: string): State
    requires i < |s.purchases|
  {
    s.(purchases := s.purchases[i := paid.(status := FULFILLMENT_FAILED)],
       audit := s.audit + [Audit(FulfillmentFailed(paid.publicId, reason, paid.quantity), s.clock)])
  }

  predicate DetailsMatch(c: Checkout, total: int) {
    c.currency == Some("usd") && c.amountTotal == Some(total) && c.mode == Some("payment")
  }

  function DemandOf(p: Purchase): Demand {
    Demand(p.municipality, p.insuranceType)
  }

  lemma SelectedAreRows(s: State, today: Date, quantity: int, price: int, d: Demand, draws: seq<nat>)
    ensures var result := SelectRandom(s, today, quantity, price, d, draws);
      result.Ok? ==>
        && Query(s, today, Some(price), d).Ok?
        && |result.value| == quantity
        && NoDup(result.value)
        && forall x | x in result.value ::
             x in Query(s, today, Some(price), d).value && x < |s.leads| && Sellable(s, today, d, x)
  {
    var ids := WithPrice(s.rules, ActiveList(s.rules), price);
    RowsBelowExact(s, ids, today, d, |s.leads|);
    if Query(s, today, Some(price), d).Ok? {
      RandomSelectionDistinct(Query(s, today, Some(price), d).value, quantity, draws);
    }
  }

  /** What an accepted payment does to the order, once recorded as paid. */
  function Settle(s: State, i: nat, paid: Purchase, c: Checkout, today: Date, draws: seq<nat>)
    : (State, Result<string, Error>)
    requires i < |s.purchases|
  {
    if !DetailsMatch(c, paid.total) then
      (Failed(s, i, paid, MISMATCH), Ok(paid.publicId))
    else
      SelectedAreRows(s, today, paid.quantity, paid.price, DemandOf(paid), draws);
      match SelectRandom(s, today, paid.quantity, paid.price, DemandOf(paid), draws)
      case Err(_) => (Failed(s, i, paid, UNAVAILABLE), Ok(paid.publicId))
      case Ok(picked) =>
        assert forall k | 0 <= k < |picked| :: picked[k] in picked;
        match Allocate(s, i, paid.price, today, picked)
        case Err(e) => (s, Err(e))
        case Ok(rows) =>
          (s.(purchases := s.purchases[i := paid.(status := FULFILLED, fulfilledAt := Some(s.clock))],
              allocations := s.allocations + rows),
           Ok(paid.publicId))
  }

  /** The reasons a payment for order `i` is refused before anything is recorded. */
  function PaymentRefused(s: State, i: nat, c: Checkout): Option<Error>
    requires i < |s.purchases|
  {
    if !StartsWith(c.intent, "pi_") then Some(DomainError)
    else if CheckoutTaken(s.purchases, i, c.id) then Some(IntegrityError)
    else if IntentTaken(s.purchases, i, c.intent) then Some(DomainError)
    else if Truthy(s.purchases[i].intent) && s.purchases[i].intent != c.intent then Some(DomainError)
    else None
  }

  function Paid(s: State, i: nat, c: Checkout): Purchase
    requires i < |s.purchases|
  {
    var p := s.purchases[i];
    p.(checkoutId := c.id, intent := c.intent, status := PAID,
       paidAt := if p.paidAt.Some? then p.paidAt else Some(s.clock))
  }

  /** `payment_succeeded` as one transaction: an error leaves the state as it was. */
  function Pay(s: State, c: Checkout, today: Date, draws: seq<nat>): (State, Result<string, Error>) {
    if c.paymentStatus != Some("paid") then (s, Err(DomainError))
    else
      match Bind(s.purchases, c)
      case Err(e) => (s, Err(e))
      case Ok(i) =>
        var p := s.purchases[i];
        if Terminal(p.status) then
          if CheckoutTaken(s.purchases, i, c.id) then (s, Err(IntegrityError))
          else (s.(purchases := s.purchases[i := p.(checkoutId := c.id)]), Ok(p.publicId))
        else
          match PaymentRefused(s, i, c)
          case Some(e) => (s, Err(e))
          case None => Settle(s, i, Paid(s, i, c), c, today, draws)
  }

  /** `payment_failed` as one transaction. */
  function PayFailed(s: State, c: Checkout): (State, Result<(), Error>) {
    match Bind(s.purchases, c)
    case Err(e) => (s, Err(e))
    case Ok(i) =>
      var p := s.purchases[i];
      if CheckoutTaken(s.purchases, i, c.id) then (s, Err(IntegrityError))
      else
        (s.(purchases := s.purchases[i :=
             p.(checkoutId := c.id, status := if p.status == PENDING then FAILED else p.status)]),
         Ok(()))
  }

  // --- What one payment does ------------------------------------------------

  /** The allocations pair the picked leads with their rules, in order. */
  lemma {:induction false} AllocateExact(s: State, order: nat, price: int, today: Date, picked: seq<nat>)
    requires forall k | 0 <= k < |picked| :: picked[k] < |s.leads|
    requires Allocate(s, order, price, today, picked).Ok?
    ensures var rows := Allocate(s, order, price, today, picked).value;
      && |rows| == |picked|
      && forall k | 0 <= k < |rows| ::
           && rows[k].purchase == order && rows[k].lead == picked[k] && rows[k].pricePaid == price
           && rows[k].purchasedAt == s.clock
           && ApplicableRule(s.leads[picked[k]].fields.leadDate, today, s.rules, ActiveList(s.rules))
                == Some(rows[k].rule)
           && rows[k].rule < |s.rules|
           && rows[k].excludedUntil == s.clock + s.rules[rows[k].rule].exclusionDays * DAY
           && rows[k].excludedUntil <= MAX_INSTANT
  {
    if picked != [] {
      AllocateExact(s, order, price, today, picked[..|picked| - 1]);
      var lead := picked[|picked| - 1];
      ActiveListExact(s.rules);
      ApplicableRuleFirst(s.leads[lead].fields.leadDate, today, s.rules, ActiveList(s.rules));
    }
  }

  /** The exclusion window of the rule pricing this lead would end after the last representable instant. */
  predicate WindowOverflows(s: State, today: Date, lead: nat)
    requires lead < |s.leads|
  {
    var rule := ApplicableRule(s.leads[lead].fields.leadDate, today, s.rules, ActiveList(s.rules));
    rule.Some? && rule.value < |s.rules| && s.clock + s.rules[rule.value].exclusionDays * DAY > MAX_INSTANT
  }

  lemma OverflowFrontOrLast(s: State, today: Date, picked: seq<nat>)
    requires picked != [] && forall k | 0 <= k < |picked| :: picked[k] < |s.leads|
    ensures var n := |picked| - 1;
      (exists k | 0 <= k < |picked| :: WindowOverflows(s, today, picked[k]))
      <==> WindowOverflows(s, today, picked[n]) || exists k | 0 <= k < n :: WindowOverflows(s, today, picked[..n][k])
  {
    var n := |picked| - 1;
    if k :| 0 <= k < n && WindowOverflows(s, today, picked[k]) {
      assert WindowOverflows(s, today, picked[..n][k]);
    }
  }

  lemma {:induction false} AllocateFails(s: State, order: nat, price: int, today: Date, picked: seq<nat>)
    requires forall k | 0 <= k < |picked| :: picked[k] < |s.leads|
    requires forall k | 0 <= k < |picked| ::
      ApplicableRule(s.leads[picked[k]].fields.leadDate, today, s.rules, ActiveList(s.rules)).Some?
    ensures var result := Allocate(s, order, price, today, picked);
      && (result.Err? ==> result.error == DateOverflow)
      && (result.Err? <==> exists k | 0 <= k < |picked| :: WindowOverflows(s, today, picked[k]))
  {
    if picked != [] {
      var n := |picked| - 1;
      AllocateFails(s, order, price, today, picked[..n]);
      ActiveListExact(s.rules);
      ApplicableRuleFirst(s.leads[picked[n]].fields.leadDate, today, s.rules, ActiveList(s.rules));
      OverflowFrontOrLast(s, today, picked);
    }
  }

  /** A payment that names order `i` and passes every check up to the inventory. */
  ghost predicate PaymentAccepted(s: State, i: nat, c: Checkout) {
    && c.paymentStatus == Some("paid")
    && Bind(s.purchases, c) == Ok(i)
    && s.purchases[i].status != FULFILLED && s.purchases[i].status != FULFILLMENT_FAILED
    && PaymentRefused(s, i, c).None?
    && c.currency == Some("usd") && c.amountTotal == Some(s.purchases[i].total) && c.mode == Some("payment")
  }

  /** Once the payment checks pass, the order is fulfilled exactly when enough eligible leads exist
      and no picked lead's exclusion window overflows; the missing-rule error is never raised. */
  lemma {:induction false} FulfilledExactly(s: State, i: nat, c: Checkout, today: Date, draws: seq<nat>)
    requires Configured(s.rules) && PaymentAccepted(s, i, c)
    ensures var p := s.purchases[i];
      var rows := Query(s, today, Some(p.price), Demand(p.municipality, p.insuranceType));
      var enough := rows.Ok? && p.quantity <= |rows.value| && p.quantity >= 0;
      var picked := if rows.Ok? then RandomSelection(rows.value, p.quantity, draws) else [];
      var (after, result) := Pay(s, c, today, draws);
      && (forall k | 0 <= k < |picked| :: picked[k] < |s.leads|)
      && (result.Err? <==> enough && exists k | 0 <= k < |picked| :: WindowOverflows(s, today, picked[k]))
      && (result.Err? ==> result.error == DateOverflow && after == s)
      && |after.purchases| == |s.purchases|
      && (result.Ok? ==> after.purchases[i].status == if enough then FULFILLED else FULFILLMENT_FAILED)
      && (result.Ok? && !enough ==> after.allocations == s.allocations)
  {
    var p := s.purchases[i];
    var d := DemandOf(p);
    assert DemandOf(Paid(s, i, c)) == d;
    var rows := Query(s, today, Some(p.price), d);
    var ids := WithPrice(s.rules, ActiveList(s.rules), p.price);
    RowsBelowExact(s, ids, today, d, |s.leads|);
    if rows.Ok? {
      var picked := RandomSelection(rows.value, p.quantity, draws);
      RandomSelectionLength(rows.value, p.quantity, draws);
      RandomSelectionDistinct(rows.value, p.quantity, draws);
      forall k | 0 <= k < |picked|
        ensures picked[k] < |s.leads|
        ensures ApplicableRule(s.leads[picked[k]].fields.leadDate, today, s.rules, ActiveList(s.rules)).Some?
      {
        assert picked[k] in picked && picked[k] in rows.value;
        TierOfLead(s, today, d, picked[k], p.price);
      }
      AllocateFails(s, i, p.price, today, picked);
    }
  }

  /** The rows whose exclusion window would end in time. */
  function Fitting(s: State, today: Date, rows: seq<nat>): seq<nat>
    requires forall k | 0 <= k < |rows| :: rows[k] < |s.leads|
  {
    if rows == [] then []
    else
      var n := |rows| - 1;
      Fitting(s, today, rows[..n]) + if WindowOverflows(s, today, rows[n]) then [] else [rows[n]]
  }

  lemma {:induction false} FittingExact(s: State, today: Date, rows: seq<nat>)
    requires NoDup(rows) && forall k | 0 <= k < |rows| :: rows[k] < |s.leads|
    ensures NoDup(Fitting(s, today, rows))
    ensures forall r: nat | r < |s.leads| ::
      r in Fitting(s, today, rows) <==> r in rows && !WindowOverflows(s, today, r)
    ensures forall r | r in Fitting(s, today, rows) :: r in rows
  {
    if rows != [] {
      var n := |rows| - 1;
      FittingExact(s, today, rows[..n]);
      assert rows == rows[..n] + [rows[n]];
      assert rows[n] !in rows[..n];
    }
  }

  lemma DrawnRows(s: State, p: Purchase, today: Date, draws: seq<nat>)
    requires EnoughFor(s, p, today)
    ensures var rows := Query(s, today, Some(p.price), DemandOf(p)).value;
      var picked := RandomSelection(rows, p.quantity, draws);
      && NoDup(rows) && (forall r | r in rows :: r < |s.leads|)
      && NoDup(picked) && |picked| == p.quantity && (forall r | r in picked :: r in rows)
  {
    var rows := Query(s, today, Some(p.price), DemandOf(p)).value;
    RowsBelowExact(s, WithPrice(s.rules, ActiveList(s.rules), p.price), today, DemandOf(p), |s.leads|);
    RandomSelectionDistinct(rows, p.quantity, draws);
    RandomSelectionLength(rows, p.quantity, draws);
  }

  /** With enough inventory a payment is taken exactly when every lead it draws fits. */
  lemma PaidWhenDrawnFit(s: State, i: nat, c: Checkout, today: Date, draws: seq<nat>)
    requires Configured(s.rules) && PaymentAccepted(s, i, c) && EnoughFor(s, s.purchases[i], today)
    ensures var p := s.purchases[i];
      var rows := Query(s, today, Some(p.price), DemandOf(p)).value;
      var picked := RandomSelection(rows, p.quantity, draws);
      && NoDup(rows) && (forall r | r in rows :: r < |s.leads|)
      && NoDup(picked) && |picked| == p.quantity && (forall r | r in picked :: r in rows)
      && (Pay(s, c, today, draws).1.Ok? <==> forall r | r in picked :: !WindowOverflows(s, today, r))
  {
    DrawnRows(s, s.purchases[i], today, draws);
    FulfilledExactly(s, i, c, today, draws);
  }

  /** A tier none of whose rows fits always raises, and the payment is rolled back. */
  lemma NoneFits(s: State, i: nat, c: Checkout, today: Date, draws: seq<nat>)
    requires Configured(s.rules) && PaymentAccepted(s, i, c) && EnoughFor(s, s.purchases[i], today)
    requires forall r | r in Query(s, today, Some(s.purchases[i].price), DemandOf(s.purchases[i])).value ::
      r < |s.leads| && WindowOverflows(s, today, r)
    ensures Pay(s, c, today, draws) == (s, Err(DateOverflow))
  {
    var p := s.purchases[i];
    var picked := RandomSelection(Query(s, today, Some(p.price), DemandOf(p)).value, p.quantity, draws);
    PaidWhenDrawnFit(s, i, c, today, draws);
    FulfilledExactly(s, i, c, today, draws);
    assert picked[0] in picked;
  }

  ghost predicate EnoughFor(s: State, p: Purchase, today: Date) {
    var rows := Query(s, today, Some(p.price), DemandOf(p));
    0 < p.quantity && rows.Ok? && p.quantity <= |rows.value|
  }

  /** Any `quantity` distinct rows can be drawn. */
  lemma DrawnAtWill(s: State, i: nat, c: Checkout, today: Date, wanted: seq<nat>) returns (draws: seq<nat>)
    requires Configured(s.rules) && PaymentAccepted(s, i, c) && EnoughFor(s, s.purchases[i], today)
    requires NoDup(wanted) && |wanted| == s.purchases[i].quantity
    requires var p := s.purchases[i];
      forall r | r in wanted :: r in Query(s, today, Some(p.price), DemandOf(p)).value
    ensures forall r | r in wanted :: r < |s.leads|
    ensures Pay(s, c, today, draws).1.Ok? <==> forall r | r in wanted :: !WindowOverflows(s, today, r)
  {
    var p := s.purchases[i];
    PaidWhenDrawnFit(s, i, c, today, []);
    draws := RandomSelectionComplete(Query(s, today, Some(p.price), DemandOf(p)).value, wanted);
    PaidWhenDrawnFit(s, i, c, today, draws);
  }

  /** `r` and enough other rows. */
  function Including(rows: seq<nat>, k: nat, quantity: nat): seq<nat>
    requires k < |rows| && 0 < quantity <= |rows|
  {
    [rows[k]] + RemoveAt(rows, k)[..quantity - 1]
  }

  lemma IncludingDistinct(rows: seq<nat>, k: nat, quantity: nat)
    requires NoDup(rows) && k < |rows| && 0 < quantity <= |rows|
    ensures var wanted := Including(rows, k, quantity);
      NoDup(wanted) && |wanted| == quantity && rows[k] in wanted && forall r | r in wanted :: r in rows
  {
    RemoveAtExact(rows, k);
    var rest := RemoveAt(rows, k);
    assert forall r | r in rest[..quantity - 1] :: r in rest;
    ConsDistinct(rows[k], rest[..quantity - 1]);
  }

  /** Whatever is drawn: an accepted payment with enough inventory fulfils the order exactly when no eligible
      row's window overflows; it can fulfil it for some draws exactly when enough rows fit. */
  lemma {:induction false} FulfilledForAnyDraw(s: State, i: nat, c: Checkout, today: Date)
    requires Configured(s.rules) && PaymentAccepted(s, i, c) && EnoughFor(s, s.purchases[i], today)
    ensures var p := s.purchases[i];
      var rows := Query(s, today, Some(p.price), DemandOf(p)).value;
      && (forall r | r in rows :: r < |s.leads|)
      && (forall k | 0 <= k < |rows| :: rows[k] < |s.leads|)
      && ((forall draws :: Pay(s, c, today, draws).1.Ok?) <==> forall r | r in rows :: !WindowOverflows(s, today, r))
      && ((exists draws :: Pay(s, c, today, draws).1.Ok?) <==> p.quantity <= |Fitting(s, today, rows)|)
  {
    var p := s.purchases[i];
    var rows := Query(s, today, Some(p.price), DemandOf(p)).value;
    DrawnRows(s, p, today, []);
    assert forall k | 0 <= k < |rows| :: rows[k] in rows;
    AlwaysPaid(s, i, c, today);
    SometimesPaid(s, i, c, today);
  }

  lemma AlwaysPaid(s: State, i: nat, c: Checkout, today: Date)
    requires Configured(s.rules) && PaymentAccepted(s, i, c) && EnoughFor(s, s.purchases[i], today)
    requires var p := s.purchases[i];
      forall r | r in Query(s, today, Some(p.price), DemandOf(p)).value :: r < |s.leads|
    ensures var p := s.purchases[i];
      (forall draws :: Pay(s, c, today, draws).1.Ok?) <==>
      forall r | r in Query(s, today, Some(p.price), DemandOf(p)).value :: !WindowOverflows(s, today, r)
  {
    var p := s.purchases[i];
    var rows := Query(s, today, Some(p.price), DemandOf(p)).value;
    PaidWhenDrawnFit(s, i, c, today, []);
    if r :| r in rows && WindowOverflows(s, today, r) {
      var k :| 0 <= k < |rows| && rows[k] == r;
      IncludingDistinct(rows, k, p.quantity);
      var draws := DrawnAtWill(s, i, c, today, Including(rows, k, p.quantity));
      assert Pay(s, c, today, draws).1.Err?;
    } else {
      forall draws ensures Pay(s, c, today, draws).1.Ok? {
        PaidWhenDrawnFit(s, i, c, today, draws);
      }
    }
  }

  lemma SometimesPaid(s: State, i: nat, c: Checkout, today: Date)
    requires Configured(s.rules) && PaymentAccepted(s, i, c) && EnoughFor(s, s.purchases[i], today)
    requires var p := s.purchases[i];
      var rows := Query(s, today, Some(p.price), DemandOf(p)).value;
      NoDup(rows) && forall k | 0 <= k < |rows| :: rows[k] < |s.leads|
    ensures var p := s.purchases[i];
      var rows := Query(s, today, Some(p.price), DemandOf(p)).value;
      (exists draws :: Pay(s, c, today, draws).1.Ok?) <==> p.quantity <= |Fitting(s, today, rows)|
  {
    var p := s.purchases[i];
    var rows := Query(s, today, Some(p.price), DemandOf(p)).value;
    var fitting := Fitting(s, today, rows);
    FittingExact(s, today, rows);
    if p.quantity <= |fitting| {
      assert forall r | r in fitting[..p.quantity] :: r in fitting && r < |s.leads|;
      var draws := DrawnAtWill(s, i, c, today, fitting[..p.quantity]);
      assert Pay(s, c, today, draws).1.Ok?;
    }
    if draws :| Pay(s, c, today, draws).1.Ok? {
      PaidWhenDrawnFit(s, i, c, today, draws);
      SublistSize(RandomSelection(rows, p.quantity, draws), fitting);
    }
  }

  /** A fulfilling payment appends the rows of the leads it drew. */
  lemma FulfilledRows(s: State, i: nat, c: Checkout, today: Date, draws: seq<nat>) returns (picked: seq<nat>)
    requires PaymentAccepted(s, i, c)
    requires Pay(s, c, today, draws).0.purchases[i].status == FULFILLED
    ensures var p := s.purchases[i];
      var d := DemandOf(p);
      && SelectRandom(s, today, p.quantity, p.price, d, draws) == Ok(picked)
      && Query(s, today, Some(p.price), d).Ok?
      && |picked| == p.quantity
      && NoDup(picked)
      && (forall k | 0 <= k < |picked| :: picked[k] < |s.leads| && Sellable(s, today, d, picked[k])
            && picked[k] in Query(s, today, Some(p.price), d).value)
      && Allocate(s, i, p.price, today, picked).Ok?
      && Pay(s, c, today, draws).0.allocations == s.allocations + Allocate(s, i, p.price, today, picked).value
  {
    var p := s.purchases[i];
    var d := DemandOf(p);
    assert DemandOf(Paid(s, i, c)) == d;
    SelectedAreRows(s, today, p.quantity, p.price, d, draws);
    picked := SelectRandom(s, today, p.quantity, p.price, d, draws).value;
    assert forall k | 0 <= k < |picked| :: picked[k] in picked;
  }

  /** Each lead allocated by a fulfilling payment was in the paid tier, and the rule recorded
      for it is the one active rule covering its age, at the price paid. */
  lemma {:induction false} AllocationsCoherent(s: State, i: nat, c: Checkout, today: Date, draws: seq<nat>)
    requires Configured(s.rules) && PaymentAccepted(s, i, c)
    requires Pay(s, c, today, draws).0.purchases[i].status == FULFILLED
    ensures var p := s.purchases[i];
      var after := Pay(s, c, today, draws).0;
      && |after.allocations| == |s.allocations| + p.quantity
      && after.allocations[..|s.allocations|] == s.allocations
      && forall a | |s.allocations| <= a < |after.allocations| ::
           var row := after.allocations[a];
           && row.purchase == i && row.lead < |s.leads| && row.rule < |s.rules|
           && Sellable(s, today, Demand(p.municipality, p.insuranceType), row.lead)
           && (forall r: nat | r < |s.rules| ::
                 Covers(s.rules[r], AgeDays(s.leads[row.lead].fields.leadDate, today)) <==> r == row.rule)
           && s.rules[row.rule].price == row.pricePaid == p.price
           && row.purchasedAt == s.clock
           && row.excludedUntil == s.clock + s.rules[row.rule].exclusionDays * 86_400_000_000
  {
    var p := s.purchases[i];
    var d := DemandOf(p);
    var picked := FulfilledRows(s, i, c, today, draws);
    AllocateExact(s, i, p.price, today, picked);
    var after := Pay(s, c, today, draws).0;
    var rows := Allocate(s, i, p.price, today, picked).value;
    assert after.allocations == s.allocations + rows;
    forall a | |s.allocations| <= a < |after.allocations|
      ensures var row := after.allocations[a];
        && row.lead < |s.leads| && row.rule < |s.rules|
        && (forall r: nat | r < |s.rules| ::
              Covers(s.rules[r], AgeDays(s.leads[row.lead].fields.leadDate, today)) <==> r == row.rule)
        && s.rules[row.rule].price == p.price
    {
      var k := a - |s.allocations|;
      assert after.allocations[a] == rows[k];
      CoherentRow(s, today, d, picked[k], p.price, rows[k].rule);
    }
  }

  lemma CoherentRow(s: State, today: Date, d: Demand, lead: nat, price: int, rule: nat)
    requires Configured(s.rules) && lead < |s.leads| && Sellable(s, today, d, lead)
    requires Query(s, today, Some(price), d).Ok? && lead in Query(s, today, Some(price), d).value
    requires ApplicableRule(s.leads[lead].fields.leadDate, today, s.rules, ActiveList(s.rules)) == Some(rule)
    ensures rule < |s.rules| && s.rules[rule].price == price
    ensures forall r: nat | r < |s.rules| ::
      Covers(s.rules[r], AgeDays(s.leads[lead].fields.leadDate, today)) <==> r == rule
  {
    var age := AgeDays(s.leads[lead].fields.leadDate, today);
    TierOfLead(s, today, d, lead, price);
    ActiveListExact(s.rules);
    ApplicableRuleFirst(s.leads[lead].fields.leadDate, today, s.rules, ActiveList(s.rules));
    assert CoveredOnce(s.rules, age);
    forall r: nat | r < |s.rules| ensures Covers(s.rules[r], age) <==> r == rule {
      CoveredOnceAt(s.rules, age, rule, r);
    }
  }

  /** A session names order `i` exactly when its metadata and client reference are the order's public id, its own
      id is a Checkout id, and the order has no other session. */
  lemma BindExactly(purchases: seq<Purchase>, c: Checkout, i: nat)
    requires forall a, b | 0 <= a < b < |purchases| :: purchases[a].publicId != purchases[b].publicId
    ensures Bind(purchases, c) == Ok(i) <==>
      && i < |purchases|
      && c.orderReference == Some(purchases[i].publicId) && c.clientReference == Some(purchases[i].publicId)
      && c.id.Some? && "cs_" <= c.id.value
      && (purchases[i].checkoutId.None? || purchases[i].checkoutId == Some("") || purchases[i].checkoutId == c.id)
    ensures Bind(purchases, c).Err? ==>
      Bind(purchases, c).error
        == if c.orderReference.Some?
             && forall j | 0 <= j < |purchases| :: purchases[j].publicId != c.orderReference.value
           then NotFoundError else DomainError
  {
    if c.orderReference.Some? {
      FindOrderExact(purchases, c.orderReference.value);
    }
  }

  /** Exactly when the payment of a bound session is refused before anything is recorded. */
  lemma PaymentRefusedExactly(s: State, c: Checkout, today: Date, draws: seq<nat>)
    ensures var result := Pay(s, c, today, draws).1;
      var refused := result.Err? && (result.error == DomainError || result.error == IntegrityError);
      && (c.paymentStatus != Some("paid") ==> result == Err(DomainError))
      && (c.paymentStatus == Some("paid") && Bind(s.purchases, c).Err? ==> result == Err(Bind(s.purchases, c).error))
      && (c.paymentStatus == Some("paid") && Bind(s.purchases, c).Ok? ==>
            var i := Bind(s.purchases, c).value;
            var p := s.purchases[i];
            var otherSession := exists j | 0 <= j < |s.purchases| :: j != i && s.purchases[j].checkoutId == c.id;
            var otherIntent := exists j | 0 <= j < |s.purchases| :: j != i && s.purchases[j].intent == c.intent;
            if p.status == FULFILLED || p.status == FULFILLMENT_FAILED then
              result == if otherSession then Err(IntegrityError) else Ok(p.publicId)
            else
              refused <==>
                || c.intent.None? || !("pi_" <= c.intent.value) || otherSession || otherIntent
                || (p.intent.Some? && p.intent.value != "" && p.intent != c.intent))
  {
    if Bind(s.purchases, c).Ok? {
      var i := Bind(s.purchases, c).value;
      var p := s.purchases[i];
      SettleErrors(s, i, Paid(s, i, c), c, today, draws);
    }
  }

  lemma SettleErrors(s: State, i: nat, paid: Purchase, c: Checkout, today: Date, draws: seq<nat>)
    requires i < |s.purchases|
    ensures var result := Settle(s, i, paid, c, today, draws).1;
      result.Err? ==> result.error == RuntimeFailure || result.error == DateOverflow
  {
    var d := DemandOf(paid);
    SelectedAreRows(s, today, paid.quantity, paid.price, d, draws);
    var picked := SelectRandom(s, today, paid.quantity, paid.price, d, draws);
    if picked.Ok? {
      assert forall k | 0 <= k < |picked.value| :: picked.value[k] in picked.value;
      AllocateErrors(s, i, paid.price, today, picked.value);
    }
  }

  lemma {:induction false} AllocateErrors(s: State, order: nat, price: int, today: Date, picked: seq<nat>)
    requires forall k | 0 <= k < |picked| :: picked[k] < |s.leads|
    ensures var rows := Allocate(s, order, price, today, picked);
      rows.Err? ==> rows.error == RuntimeFailure || rows.error == DateOverflow
  {
    if picked != [] {
      AllocateErrors(s, order, price, today, picked[..|picked| - 1]);
    }
  }

  /** What an accepted payment writes: on a settled order only its session id; otherwise the intent and
      payment time, one of the two settled states, and either a fulfilment time or an audited reason, which is a
      mismatch exactly when the currency, the amount or the mode differs. No other order changes, and an
      error changes nothing. */
  lemma PaymentRecorded(s: State, c: Checkout, today: Date, draws: seq<nat>)
    ensures var (after, result) := Pay(s, c, today, draws);
      && (result.Err? ==> after == s)
      && (result.Ok? ==>
            && Bind(s.purchases, c).Ok? && |after.purchases| == |s.purchases|
            && var i := Bind(s.purchases, c).value;
            var p, q := s.purchases[i], after.purchases[i];
            var asCharged := c.currency == Some("usd") && c.amountTotal == Some(p.total) && c.mode == Some("payment");
            && result.value == p.publicId
            && (forall j | 0 <= j < |s.purchases| && j != i :: after.purchases[j] == s.purchases[j])
            && if p.status == FULFILLED || p.status == FULFILLMENT_FAILED then
                 after == s.(purchases := after.purchases) && q == p.(checkoutId := c.id)
               else
                 && (q.status == FULFILLED || q.status == FULFILLMENT_FAILED)
                 && q == p.(checkoutId := c.id, intent := c.intent, status := q.status,
                            paidAt := if p.paidAt.Some? then p.paidAt else Some(s.clock),
                            fulfilledAt := if q.status == FULFILLED then Some(s.clock) else p.fulfilledAt)
                 && (!asCharged ==> q.status == FULFILLMENT_FAILED)
                 && if q.status == FULFILLED then
                      after == s.(purchases := after.purchases, allocations := after.allocations)
                    else
                      var reason := if asCharged then "post_payment_inventory_unavailable"
                        else "payment_details_mismatch";
                      after == s.(purchases := after.purchases,
                        audit := s.audit + [Audit(FulfillmentFailed(p.publicId, reason, p.quantity), s.clock)]))
  {
  }

  /** A failed or expired session closes its order only while it is pending; it never touches a
      settled order, a lead or the audit log, and an error changes nothing at all. */
  lemma PaymentFailedExactly(s: State, c: Checkout)
    ensures var (after, result) := PayFailed(s, c);
      && (result.Err? ==> after == s)
      && (result.Ok? <==> Bind(s.purchases, c).Ok? && !CheckoutTaken(s.purchases, Bind(s.purchases, c).value, c.id))
      && after == s.(purchases := after.purchases) && |after.purchases| == |s.purchases|
      && forall j | 0 <= j < |s.purchases| ::
           var p, q := s.purchases[j], after.purchases[j];
           var named := result.Ok? && Bind(s.purchases, c) == Ok(j);
           && q == p.(checkoutId := q.checkoutId, status := q.status)
           && (q.status != p.status <==> named && p.status == PENDING)
           && (q.status != p.status ==> q.status == FAILED)
           && q.checkoutId == if named then c.id else p.checkoutId
  {
  }

  // --- The service ---------------------------------------------------------

  /** Inventory reads look only at rules, leads, allocations and the clock. */
  lemma {:induction false} RowsFrame(s: State, t: State, ids: seq<nat>, today: Date, d: Demand, n: nat)
    requires s.rules == t.rules && s.leads == t.leads && s.allocations == t.allocations && s.clock == t.clock
    requires InTable(s.rules, ids) && n <= |s.leads|
    ensures RowsBelow(s, ids, today, d, n) == RowsBelow(t, ids, today, d, n)
  {
    if n > 0 {
      RowsFrame(s, t, ids, today, d, n - 1);
    }
  }

  lemma SelectFrame(s: State, t: State, today: Date, quantity: int, price: int, d: Demand, draws: seq<nat>)
    requires s.rules == t.rules && s.leads == t.leads && s.allocations == t.allocations && s.clock == t.clock
    ensures SelectRandom(s, today, quantity, price, d, draws) == SelectRandom(t, today, quantity, price, d, draws)
  {
    RowsFrame(s, t, WithPrice(s.rules, ActiveList(s.rules), price), today, d, |s.leads|);
  }

  class FulfillmentService {
    const db: Database

    constructor (db: Database)
      ensures this.db == db
    {
      this.db := db;
    }

    /** Names the order and stores the session id on it; uniqueness is only checked at the flush. */
    method FindAndBind(c: Checkout) returns (found: Result<nat, Error>)
      modifies db
      ensures found == Bind(old(db.purchases), c)
      ensures db.View() == match found
        case Err(_) => old(db.View())
        case Ok(i) => old(db.View()).(
          purchases := old(db.purchases)[i := old(db.purchases)[i].(checkoutId := c.id)])
    {
      if c.orderReference.None? {
        return Err(DomainError);
      }
      var row := FindOrder(db.purchases, c.orderReference.value);
      FindOrderExact(db.purchases, c.orderReference.value);
      if row.None? {
        return Err(NotFoundError);
      }
      var i := row.value;
      if !StartsWith(c.id, "cs_") {
        return Err(DomainError);
      }
      if c.clientReference != Some(db.purchases[i].publicId) {
        return Err(DomainError);
      }
      if Truthy(db.purchases[i].checkoutId) && db.purchases[i].checkoutId != c.id {
        return Err(DomainError);
      }
      db.purchases := db.purchases[i := db.purchases[i].(checkoutId := c.id)];
      return Ok(i);
    }

    method Fail(i: nat, reason: string)
      requires i < |db.purchases|
      modifies db
      ensures db.View() == Failed(old(db.View()), i, old(db.purchases)[i], reason)
    {
      db.purchases := db.purchases[i := db.purchases[i].(status := FULFILLMENT_FAILED)];
      db.Record(FulfillmentFailed(db.purchases[i].publicId, reason, db.purchases[i].quantity));
    }

    method PaymentSucceeded(c: Checkout, today: Date, draws: seq<nat>) returns (result: Result<string, Error>)
      modifies db
      ensures (db.View(), result) == Pay(old(db.View()), c, today, draws)
    {
      if c.paymentStatus != Some("paid") {
        return Err(DomainError);
      }
      var saved := db.View();
      var bound := FindAndBind(c);
      if bound.Err? {
        return Err(bound.error);
      }
      var i := bound.value;
      // The flush of the bound session id fails if another order holds it.
      var taken := CheckoutTaken(saved.purchases, i, c.id);
      if Terminal(db.purchases[i].status) {
        if taken {
          db.Rollback(saved);
          return Err(IntegrityError);
        }
        return Ok(db.purchases[i].publicId);
      }
      if !StartsWith(c.intent, "pi_") {
        db.Rollback(saved);
        return Err(DomainError);
      }
      if taken {
        db.Rollback(saved);
        return Err(IntegrityError);
      }
      var duplicate := IntentTaken(db.purchases, i, c.intent);
      assert forall j | 0 <= j < |db.purchases| && j != i :: db.purchases[j] == saved.purchases[j];
      if duplicate || (Truthy(db.purchases[i].intent) && db.purchases[i].intent != c.intent) {
        db.Rollback(saved);
        return Err(DomainError);
      }
      db.purchases := db.purchases[i := db.purchases[i].(intent := c.intent)];
      if db.purchases[i].paidAt.None? {
        db.purchases := db.purchases[i := db.purchases[i].(paidAt := Some(db.clock))];
      }
      db.purchases := db.purchases[i := db.purchases[i].(status := PAID)];
      assert db.purchases == saved.purchases[i := Paid(saved, i, c)];
      result := SettlePaid(saved, i, c, today, draws);
    }

    /** The rest of the transaction, after the order has been marked paid. */
    method SettlePaid(saved: State, i: nat, c: Checkout, today: Date, draws: seq<nat>)
      returns (result: Result<string, Error>)
      requires i < |saved.purchases|
      requires db.View() == saved.(purchases := saved.purchases[i := Paid(saved, i, c)])
      modifies db
      ensures (db.View(), result) == Settle(saved, i, Paid(saved, i, c), c, today, draws)
    {
      var purchase := db.purchases[i];
      if !DetailsMatch(c, purchase.total) {
        Fail(i, MISMATCH);
        assert db.purchases == Failed(saved, i, Paid(saved, i, c), "").purchases;
        return Ok(purchase.publicId);
      }
      SelectFrame(saved, db.View(), today, purchase.quantity, purchase.price, DemandOf(purchase), draws);
      SelectedAreRows(saved, today, purchase.quantity, purchase.price, DemandOf(purchase), draws);
      var leads := SelectRandom(db.View(), today, purchase.quantity, purchase.price, DemandOf(purchase), draws);
      if leads.Err? {
        Fail(i, UNAVAILABLE);
        assert db.purchases == Failed(saved, i, Paid(saved, i, c), "").purchases;
        return Ok(purchase.publicId);
      }
      var picked := leads.value;
      assert forall k | 0 <= k < |picked| :: picked[k] in picked;
      var failure := AllocateLeads(saved, i, purchase, today, picked);
      if failure.Some? {
        db.Rollback(saved);
        return Err(failure.value);
      }
      db.purchases := db.purchases[i := db.purchases[i].(status := FULFILLED)];
      db.purchases := db.purchases[i := db.purchases[i].(fulfilledAt := Some(db.clock))];
      assert db.purchases == saved.purchases[i := purchase.(status := FULFILLED, fulfilledAt := Some(saved.clock))];
      return Ok(purchase.publicId);
    }

    /** The allocation loop: one row per picked lead, or the error that aborts the transaction. */
    method AllocateLeads(ghost saved: State, i: nat, purchase: Purchase, today: Date, picked: seq<nat>)
      returns (failure: Option<Error>)
      requires forall k | 0 <= k < |picked| :: picked[k] < |db.leads|
      requires db.rules == saved.rules && db.leads == saved.leads && db.clock == saved.clock
      requires db.allocations == saved.allocations
      modifies db`allocations
      ensures match Allocate(saved, i, purchase.price, today, picked)
        case Err(e) => failure == Some(e)
        case Ok(rows) => failure == None && db.allocations == saved.allocations + rows
    {
      var active := ActiveList(db.rules);
      ActiveListExact(db.rules);
      var k := 0;
      while k < |picked|
        invariant k <= |picked|
        invariant Allocate(saved, i, purchase.price, today, picked[..k]).Ok?
        invariant db.allocations == saved.allocations + Allocate(saved, i, purchase.price, today, picked[..k]).value
      {
        assert picked[..k + 1][..k] == picked[..k];
        var rule := ApplicableRule(db.leads[picked[k]].fields.leadDate, today, db.rules, active);
        ApplicableRuleFirst(db.leads[picked[k]].fields.leadDate, today, db.rules, active);
        if rule.None? {
          AllocateStops(saved, i, purchase.price, today, picked, k + 1);
          return Some(RuntimeFailure);
        }
        var until := db.clock + db.rules[rule.value].exclusionDays * DAY;
        if until > MAX_INSTANT {
          AllocateStops(saved, i, purchase.price, today, picked, k + 1);
          return Some(DateOverflow);
        }
        db.allocations := db.allocations + [Allocation(i, picked[k], rule.value, purchase.price, db.clock, until)];
        k := k + 1;
      }
      assert picked[..k] == picked;
      return None;
    }

    method PaymentFailed(c: Checkout) returns (result: Result<(), Error>)
      modifies db
      ensures (db.View(), result) == PayFailed(old(db.View()), c)
    {
      var saved := db.View();
      var bound := FindAndBind(c);
      if bound.Err? {
        return Err(bound.error);
      }
      var i := bound.value;
      if CheckoutTaken(saved.purchases, i, c.id) {
        db.Rollback(saved);
        return Err(IntegrityError);
      }
      if db.purchases[i].status == PENDING {
        db.purchases := db.purchases[i := db.purchases[i].(status := FAILED)];
      }
      assert db.purchases == PayFailed(saved, c).0.purchases;
      return Ok(());
    }
  }

  /** A lead that stops the loop stops the whole allocation. */
  lemma {:induction false} AllocateStops(s: State, order: nat, price: int, today: Date, picked: seq<nat>, k: nat)
    requires k <= |picked| && forall j | 0 <= j < |picked| :: picked[j] < |s.leads|
    requires Allocate(s, order, price, today, picked[..k]).Err?
    ensures Allocate(s, order, price, today, picked) == Allocate(s, order, price, today, picked[..k])
    decreases |picked|
  {
    if k == |picked| {
      assert picked[..k] == picked;
    } else {
      assert picked[..|picked| - 1][..k] == picked[..k];
      AllocateStops(s, order, price, today, picked[..|picked| - 1], k);
    }
  }
}
