/** The whole backend as one state machine. Each step is one committed transaction (or a lost
    one); a run is any interleaving of steps of any number of requests, webhooks, syncs and sweeps. */
module Marketplace {
  import opened Basics
  import opened Tables
  import opened Pricing
  import opened Inventory
  import opened Fulfillment
  import opened Checkouts
  import opened Email
  import opened Reconciliation
  import SheetParser
  import Sync

  datatype Step =
    | Tick(elapsed: nat)
    | CreateRule(data: Rule)
    | EditRule(id: nat, patch: Patch)
    | ReplaceRules(items: seq<Item>)
    | BeginSync(manual: bool)
    | CountRows(run: nat, rows: nat)
    | ImportSnapshot(run: nat, parsed: SheetParser.ParseResult)
    | AbortSync(run: nat, error: Error)
    | OpenOrder(request: CheckoutRequest, today: Date, ids: seq<string>)
    | LinkCheckout(order: string, checkoutId: string)
    | AbandonOrder(order: string)
    | SettlePayment(session: Checkout, today: Date, draws: seq<nat>)
    | FailPayment(session: Checkout)
    | DeliverMail(order: string, resend: Option<string>, reply: MailReply)
    | RecordAttempt(order: string, delay: nat)

  /** The state after one step; a rejected or rolled back transaction changes nothing. */
  function Next(s: State, step: Step): State {
    match step
    case Tick(elapsed) => Wait(s, elapsed)
    case CreateRule(data) =>
      (match Create(s.rules, data)
       case Err(_) => s
       case Ok(rules) => s.(rules := rules, audit := s.audit + [Audit(RuleCreated(|s.rules|), s.clock)]))
    case EditRule(id, patch) =>
      (match Update(s.rules, id, patch)
       case Err(_) => s
       case Ok(rules) => s.(rules := rules, audit := s.audit + [Audit(RuleUpdated(id), s.clock)]))
    case ReplaceRules(items) =>
      (match UpdateBatch(s.rules, items)
       case Err(_) => s
       case Ok(rules) => s.(rules := rules, audit := s.audit + RuleEvents(|s.rules|, items, s.clock)))
    case BeginSync(manual) => Sync.StartRun(s, manual)
    case CountRows(run, rows) => if run < |s.runs| then Sync.Receive(s, run, rows) else s
    case ImportSnapshot(run, parsed) =>
      if run < |s.runs| then
        (match Sync.FinishRun(s, run, parsed)
         case Err(_) => s
         case Ok(after) => after)
      else s
    case AbortSync(run, error) => if run < |s.runs| then Sync.FailRun(s, run, error) else s
    case OpenOrder(request, today, ids) => Open(s, request, today, ids).0
    case LinkCheckout(order, checkoutId) => Link(s, order, checkoutId).0
    case AbandonOrder(order) => Abandon(s, order)
    case SettlePayment(session, today, draws) => Pay(s, session, today, draws).0
    case FailPayment(session) => PayFailed(s, session).0
    case DeliverMail(order, resend, reply) => Deliver(s, order, resend, reply).0
    case RecordAttempt(order, delay) =>
      FindOrderExact(s.purchases, order);
      match FindOrder(s.purchases, order)
      case None => s
      case Some(i) => Enter(s, i, delay).0
  }

  function Run(s: State, steps: seq<Step>): State {
    if steps == [] then s
    else Next(Run(s, steps[..|steps| - 1]), steps[|steps| - 1])
  }

  /** The empty database. */
  function Genesis(clock: int): State {
    State(clock, [], [], [], [], [], [], [])
  }

  // --- The invariant --------------------------------------------------------------

  ghost predicate OrderValid(p: Purchase) {
    && p.quantity > 0 && p.price > 0 && p.total == p.quantity * p.price
    && p.status != PAID
    && (p.intent.Some? ==> StartsWith(p.intent, "pi_"))
  }

  ghost predicate OrdersInv(ps: seq<Purchase>) {
    && DistinctOrders(ps)
    && (forall i | 0 <= i < |ps| :: OrderValid(ps[i]))
    && (forall i, j | 0 <= i < j < |ps| && ps[i].intent.Some? :: ps[i].intent != ps[j].intent)
    && (forall i, j | 0 <= i < j < |ps| && ps[i].checkoutId.Some? :: ps[i].checkoutId != ps[j].checkoutId)
  }

  /** Row references hold and every window starts in the past. */
  ghost predicate RowsValid(s: State) {
    forall a | 0 <= a < |s.allocations| ::
      var row := s.allocations[a];
      && row.purchase < |s.purchases| && row.lead < |s.leads| && row.rule < |s.rules|
      && row.purchasedAt <= row.excludedUntil && row.purchasedAt <= s.clock
  }

  /** A lead's exclusion windows follow one another without overlap. */
  ghost predicate WindowsDisjoint(allocations: seq<Allocation>) {
    forall a, b | 0 <= a < b < |allocations| && allocations[a].lead == allocations[b].lead ::
      allocations[a].excludedUntil <= allocations[b].purchasedAt
  }

  ghost predicate LeadsOncePerOrder(allocations: seq<Allocation>) {
    forall a, b | 0 <= a < b < |allocations| && allocations[a].purchase == allocations[b].purchase ::
      allocations[a].lead != allocations[b].lead
  }

  function CountFor(allocations: seq<Allocation>, i: nat): nat {
    if allocations == [] then 0
    else
      var n := |allocations| - 1;
      CountFor(allocations[..n], i) + if allocations[n].purchase == i then 1 else 0
  }

  function SumFor(allocations: seq<Allocation>, i: nat): int {
    if allocations == [] then 0
    else
      var n := |allocations| - 1;
      SumFor(allocations[..n], i) + if allocations[n].purchase == i then allocations[n].pricePaid else 0
  }

  function SumPaid(allocations: seq<Allocation>): int {
    if allocations == [] then 0
    else SumPaid(allocations[..|allocations| - 1]) + allocations[|allocations| - 1].pricePaid
  }

  /** `totals()["revenue_cents"]`: the totals of the fulfilled orders. */
  function Revenue(ps: seq<Purchase>): int {
    if ps == [] then 0
    else
      var n := |ps| - 1;
      Revenue(ps[..n]) + if ps[n].status == FULFILLED then ps[n].total else 0
  }

  /** A fulfilled order has exactly the leads it asked for, at its price; any other has none. */
  ghost predicate AllOrNothing(s: State) {
    && (forall i | 0 <= i < |s.purchases| ::
          CountFor(s.allocations, i) == if s.purchases[i].status == FULFILLED then s.purchases[i].quantity else 0)
    && (forall a | 0 <= a < |s.allocations| && s.allocations[a].purchase < |s.purchases| ::
          s.allocations[a].pricePaid == s.purchases[s.allocations[a].purchase].price)
  }

  ghost predicate AllocationsInv(s: State) {
    && RowsValid(s)
    && WindowsDisjoint(s.allocations)
    && LeadsOncePerOrder(s.allocations)
    && AllOrNothing(s)
    && Revenue(s.purchases) == SumPaid(s.allocations)
  }

  ghost predicate AttemptsPast(s: State) {
    forall a | 0 <= a < |s.audit| && s.audit[a].event.ReconciliationAttempted? :: s.audit[a].at <= s.clock
  }

  ghost predicate Inv(s: State) {
    && Configured(s.rules)
    && Sync.DistinctLeads(s.leads)
    && OrdersInv(s.purchases)
    && AllocationsInv(s)
    && MailInv(s)
    && AttemptsSpaced(s.audit)
    && AttemptsPast(s)
  }

  // --- How orders may change --------------------------------------------------------

  /** Only a pending order becomes failed, and the two settled states are final. */
  predicate Allowed(before: Status, after: Status) {
    before == after || (before == PENDING && after == FAILED) || (!Terminal(before) && Terminal(after))
  }

  /** One order changes, within its lifecycle; its identity and amounts do not. */
  ghost predicate OrderChange(ps: seq<Purchase>, qs: seq<Purchase>, i: nat) {
    && i < |ps| && |qs| == |ps|
    && (forall j | 0 <= j < |ps| && j != i :: qs[j] == ps[j])
    && var p, q := ps[i], qs[i];
    && q == p.(checkoutId := q.checkoutId, intent := q.intent, status := q.status, paidAt := q.paidAt,
               fulfilledAt := q.fulfilledAt, emailSentAt := q.emailSentAt)
    && (q.checkoutId == p.checkoutId || !CheckoutTaken(ps, i, q.checkoutId))
    && (q.intent == p.intent || (!Truthy(p.intent) && StartsWith(q.intent, "pi_") && !IntentTaken(ps, i, q.intent)))
    && Allowed(p.status, q.status) && (p.status != PAID ==> q.status != PAID)
    && (p.emailSentAt.Some? ==> q.emailSentAt.Some?)
    && (p.paidAt.Some? ==> q.paidAt == p.paidAt)
  }

  lemma OrderChangeKeeps(ps: seq<Purchase>, qs: seq<Purchase>, i: nat)
    requires OrdersInv(ps) && OrderChange(ps, qs, i)
    ensures OrdersInv(qs)
  {
    assert OrderValid(ps[i]);
    assert Truthy(ps[i].intent) || ps[i].intent.None? by {
      if ps[i].intent.Some? {
        assert "pi_" <= ps[i].intent.value;
      }
    }
    forall j | 0 <= j < |qs| ensures OrderValid(qs[j]) {
      assert OrderValid(ps[j]);
    }
  }

  /** New entries that say nothing about mail or attempts. */
  ghost predicate Quiet(audit: seq<Audit>, after: seq<Audit>) {
    && |audit| <= |after| && after[..|audit|] == audit
    && forall a | |audit| <= a < |after| ::
         after[a].event.RuleCreated? || after[a].event.RuleUpdated? || after[a].event.FulfillmentFailed?
         || after[a].event.SyncInvoked?
  }

  lemma QuietKeepsAudit(audit: seq<Audit>, after: seq<Audit>)
    requires Quiet(audit, after) && SentOnce(audit) && AttemptsSpaced(audit)
    ensures SentOnce(after) && AttemptsSpaced(after)
    ensures forall order :: WasSent(after, order) <==> WasSent(audit, order)
  {
    assert forall a | 0 <= a < |audit| :: after[a] == audit[a];
    forall order ensures WasSent(after, order) <==> WasSent(audit, order) {
      WasSentGrows(audit, after, order);
    }
  }

  lemma QuietKeepsMail(s: State, t: State)
    requires MailInv(s) && Quiet(s.audit, t.audit) && AttemptsSpaced(s.audit)
    requires t.outbox == s.outbox
    requires |s.purchases| <= |t.purchases|
    requires forall i | 0 <= i < |s.purchases| ::
      && t.purchases[i].publicId == s.purchases[i].publicId
      && t.purchases[i].emailSentAt == s.purchases[i].emailSentAt
      && (s.purchases[i].status == FULFILLED ==> t.purchases[i].status == FULFILLED)
    requires forall i | |s.purchases| <= i < |t.purchases| ::
      && t.purchases[i].emailSentAt.None?
      && forall j | 0 <= j < |s.purchases| :: s.purchases[j].publicId != t.purchases[i].publicId
    ensures MailInv(t) && AttemptsSpaced(t.audit)
  {
    QuietKeepsAudit(s.audit, t.audit);
    forall order | IsOrder(s.purchases, order) ensures IsOrder(t.purchases, order) {
      var i :| 0 <= i < |s.purchases| && s.purchases[i].publicId == order && s.purchases[i].status == FULFILLED;
      assert t.purchases[i].publicId == order;
    }
    forall i | |s.purchases| <= i < |t.purchases| ensures !WasSent(t.audit, t.purchases[i].publicId) {
      assert !IsOrder(s.purchases, t.purchases[i].publicId);
    }
    forall a, order | 0 <= a < |t.audit| && SentEvent(t.audit[a].event, order) ensures IsOrder(t.purchases, order) {
      assert t.audit[..|s.audit|][a] == t.audit[a];
      assert SentEvent(s.audit[a].event, order);
    }
  }

  // --- Allocations --------------------------------------------------------------------

  lemma {:induction false} CountForNone(rows: seq<Allocation>, i: nat)
    requires forall k | 0 <= k < |rows| :: rows[k].purchase != i
    ensures CountFor(rows, i) == 0
  {
    if rows != [] {
      CountForNone(rows[..|rows| - 1], i);
    }
  }

  lemma {:induction false} CountForSome(rows: seq<Allocation>, i: nat)
    ensures CountFor(rows, i) == 0 ==> forall k | 0 <= k < |rows| :: rows[k].purchase != i
  {
    if rows != [] {
      CountForSome(rows[..|rows| - 1], i);
    }
  }

  lemma {:induction false} CountForAppend(allocations: seq<Allocation>, rows: seq<Allocation>, i: nat, owner: nat)
    requires forall k | 0 <= k < |rows| :: rows[k].purchase == owner
    ensures CountFor(allocations + rows, i) == CountFor(allocations, i) + if i == owner then |rows| else 0
  {
    if rows == [] {
      assert allocations + rows == allocations;
    } else {
      var n := |rows| - 1;
      assert (allocations + rows)[..|allocations| + n] == allocations + rows[..n];
      CountForAppend(allocations, rows[..n], i, owner);
    }
  }

  lemma {:induction false} SumPaidAppend(allocations: seq<Allocation>, rows: seq<Allocation>, price: int)
    requires forall k | 0 <= k < |rows| :: rows[k].pricePaid == price
    ensures SumPaid(allocations + rows) == SumPaid(allocations) + |rows| * price
  {
    if rows == [] {
      assert allocations + rows == allocations;
    } else {
      var n := |rows| - 1;
      assert (allocations + rows)[..|allocations| + n] == allocations + rows[..n];
      SumPaidAppend(allocations, rows[..n], price);
      assert |rows| * price == n * price + price;
    }
  }

  lemma {:induction false} RevenueUpdate(ps: seq<Purchase>, i: nat, q: Purchase)
    requires i < |ps| && q.total == ps[i].total
    ensures Revenue(ps[i := q]) == Revenue(ps)
      + (if q.status == FULFILLED then q.total else 0) - (if ps[i].status == FULFILLED then ps[i].total else 0)
  {
    var n := |ps| - 1;
    if i < n {
      assert ps[i := q][..n] == ps[..n][i := q];
      RevenueUpdate(ps[..n], i, q);
    } else {
      assert ps[i := q][..n] == ps[..n];
    }
  }

  /** The order's paid prices add up to what it was charged. */
  lemma {:induction false} SumForCount(allocations: seq<Allocation>, i: nat, price: int)
    requires forall a | 0 <= a < |allocations| && allocations[a].purchase == i :: allocations[a].pricePaid == price
    ensures SumFor(allocations, i) == CountFor(allocations, i) * price
  {
    if allocations != [] {
      var n := |allocations| - 1;
      SumForCount(allocations[..n], i, price);
      assert (CountFor(allocations[..n], i) + 1) * price == CountFor(allocations[..n], i) * price + price;
    }
  }

  /** Rows a payment of order `i` may add now. */
  ghost predicate NewRows(s: State, i: nat, rows: seq<Allocation>)
    requires i < |s.purchases|
  {
    && |rows| == s.purchases[i].quantity
    && (forall k | 0 <= k < |rows| ::
          && rows[k].purchase == i && rows[k].lead < |s.leads| && rows[k].rule < |s.rules|
          && rows[k].pricePaid == s.purchases[i].price
          && rows[k].purchasedAt == s.clock && rows[k].excludedUntil >= s.clock
          && !Excluded(s.allocations, rows[k].lead, s.clock))
    && (forall k, m | 0 <= k < m < |rows| :: rows[k].lead != rows[m].lead)
  }

  /** The order settles with its leads, or changes without touching any allocation. */
  ghost predicate PaymentEffect(s: State, t: State, i: nat) {
    && OrderChange(s.purchases, t.purchases, i)
    && t == s.(purchases := t.purchases, allocations := t.allocations, audit := t.audit)
    && t.purchases[i].emailSentAt == s.purchases[i].emailSentAt
    && Quiet(s.audit, t.audit)
    && if t.allocations == s.allocations then
         t.purchases[i].status == FULFILLED <==> s.purchases[i].status == FULFILLED
       else
         && !Terminal(s.purchases[i].status) && t.purchases[i].status == FULFILLED
         && |s.allocations| <= |t.allocations| && t.allocations[..|s.allocations|] == s.allocations
         && NewRows(s, i, t.allocations[|s.allocations|..])
  }

  lemma PayEffect(s: State, c: Checkout, today: Date, draws: seq<nat>)
    requires Configured(s.rules) && OrdersInv(s.purchases)
    ensures var t := Pay(s, c, today, draws).0;
      t == s || (Bind(s.purchases, c).Ok? && PaymentEffect(s, t, Bind(s.purchases, c).value))
  {
    var t := Pay(s, c, today, draws).0;
    if t != s {
      var i := Bind(s.purchases, c).value;
      PayChange(s, c, today, draws);
      if t.allocations != s.allocations {
        SettledRows(s, i, c, today, draws);
      }
    }
  }

  lemma PayChange(s: State, c: Checkout, today: Date, draws: seq<nat>)
    requires Pay(s, c, today, draws).0 != s && OrdersInv(s.purchases)
    ensures var t := Pay(s, c, today, draws).0;
      && Bind(s.purchases, c).Ok?
      && var i := Bind(s.purchases, c).value;
      && OrderChange(s.purchases, t.purchases, i)
      && t == s.(purchases := t.purchases, allocations := t.allocations, audit := t.audit)
      && t.purchases[i].emailSentAt == s.purchases[i].emailSentAt
      && Quiet(s.audit, t.audit)
      && ((t.allocations == s.allocations
           && (t.purchases[i].status == FULFILLED <==> s.purchases[i].status == FULFILLED))
          || (PaymentAccepted(s, i, c) && t.purchases[i].status == FULFILLED))
  {
    var i := Bind(s.purchases, c).value;
    if !Terminal(s.purchases[i].status) {
      SettleChange(s, i, c, today, draws);
    }
  }

  lemma SettleChange(s: State, i: nat, c: Checkout, today: Date, draws: seq<nat>)
    requires i < |s.purchases| && PaymentRefused(s, i, c).None? && !Terminal(s.purchases[i].status)
    requires Settle(s, i, Paid(s, i, c), c, today, draws).0 != s
    ensures var t := Settle(s, i, Paid(s, i, c), c, today, draws).0;
      && t == s.(purchases := t.purchases, allocations := t.allocations, audit := t.audit)
      && (exists status, at :: Terminal(status)
            && t.purchases == s.purchases[i := Paid(s, i, c).(status := status, fulfilledAt := at)]
            && (status == FULFILLED ==> DetailsMatch(c, s.purchases[i].total))
            && (status != FULFILLED ==> t.allocations == s.allocations))
      && Quiet(s.audit, t.audit)
  {
    var t := Settle(s, i, Paid(s, i, c), c, today, draws).0;
    var q := t.purchases[i];
    assert t.purchases == s.purchases[i := Paid(s, i, c).(status := q.status, fulfilledAt := q.fulfilledAt)];
  }

  lemma SettledRows(s: State, i: nat, c: Checkout, today: Date, draws: seq<nat>)
    requires Configured(s.rules) && PaymentAccepted(s, i, c)
    requires Pay(s, c, today, draws).0.purchases[i].status == FULFILLED
    ensures var t := Pay(s, c, today, draws).0;
      && |s.allocations| <= |t.allocations| && t.allocations[..|s.allocations|] == s.allocations
      && NewRows(s, i, t.allocations[|s.allocations|..])
  {
    AllocationsCoherent(s, i, c, today, draws);
    var t := Pay(s, c, today, draws).0;
    var rows := t.allocations[|s.allocations|..];
    var p := s.purchases[i];
    var picked := FulfilledRows(s, i, c, today, draws);
    AllocateExact(s, i, p.price, today, picked);
    assert rows == Allocate(s, i, p.price, today, picked).value;
    forall k | 0 <= k < |rows|
      ensures rows[k].lead < |s.leads| && rows[k].rule < |s.rules| && rows[k].excludedUntil >= s.clock
      ensures rows[k].lead == picked[k] && !Excluded(s.allocations, rows[k].lead, s.clock)
    {
      assert rows[k] == t.allocations[|s.allocations| + k];
      assert WellFormed(s.rules[rows[k].rule]);
    }
  }

  lemma PaymentKeepsAllocations(s: State, t: State, i: nat)
    requires AllocationsInv(s) && OrdersInv(s.purchases) && PaymentEffect(s, t, i)
    ensures AllocationsInv(t)
  {
    if t.allocations == s.allocations {
      SettlementsKept(s, t);
    } else {
      var rows := t.allocations[|s.allocations|..];
      assert t.allocations == s.allocations + rows;
      NewRowsKeepWindows(s, rows, i);
      NewRowsKeepLeads(s, rows, i);
      NewRowsComplete(s, t, i);
      NewRowsBalance(s, t, i);
      NewRowsValid(s, t, i);
    }
  }

  lemma NewRowsValid(s: State, t: State, i: nat)
    requires RowsValid(s) && PaymentEffect(s, t, i) && t.allocations != s.allocations
    ensures RowsValid(t)
  {
    var n := |s.allocations|;
    var rows := t.allocations[n..];
    forall a | 0 <= a < |t.allocations|
      ensures t.allocations[a] == if a < n then s.allocations[a] else rows[a - n]
    {
      assert a < n ==> t.allocations[..n][a] == t.allocations[a];
    }
  }

  /** The settled order now has exactly its quantity, and every other order what it had. */
  lemma NewRowsComplete(s: State, t: State, i: nat)
    requires RowsValid(s) && AllOrNothing(s) && PaymentEffect(s, t, i) && t.allocations != s.allocations
    ensures AllOrNothing(t)
  {
    var n := |s.allocations|;
    var rows := t.allocations[n..];
    assert t.allocations == s.allocations + rows;
    forall j | 0 <= j < |t.purchases|
      ensures CountFor(t.allocations, j) == if t.purchases[j].status == FULFILLED then t.purchases[j].quantity else 0
    {
      CountForAppend(s.allocations, rows, j, i);
    }
    forall a | 0 <= a < |t.allocations| && t.allocations[a].purchase < |t.purchases|
      ensures t.allocations[a].pricePaid == t.purchases[t.allocations[a].purchase].price
    {
      assert t.allocations[a] == if a < n then s.allocations[a] else rows[a - n];
    }
  }

  lemma NewRowsBalance(s: State, t: State, i: nat)
    requires OrdersInv(s.purchases) && PaymentEffect(s, t, i) && t.allocations != s.allocations
    requires Revenue(s.purchases) == SumPaid(s.allocations)
    ensures Revenue(t.purchases) == SumPaid(t.allocations)
  {
    var rows := t.allocations[|s.allocations|..];
    assert t.allocations == s.allocations + rows;
    assert t.purchases == s.purchases[i := t.purchases[i]];
    assert OrderValid(s.purchases[i]);
    RevenueUpdate(s.purchases, i, t.purchases[i]);
    SumPaidAppend(s.allocations, rows, s.purchases[i].price);
  }

  lemma NewRowsKeepWindows(s: State, rows: seq<Allocation>, i: nat)
    requires WindowsDisjoint(s.allocations) && i < |s.purchases| && NewRows(s, i, rows)
    ensures WindowsDisjoint(s.allocations + rows)
  {
    var n := |s.allocations|;
    var all := s.allocations + rows;
    forall a, b | 0 <= a < b < |all|
      ensures all[a].lead == all[b].lead ==> all[a].excludedUntil <= all[b].purchasedAt
    {
      if a < n <= b {
        assert all[b] == rows[b - n] && all[a] == s.allocations[a];
        assert !Excluded(s.allocations, all[b].lead, s.clock);
      } else if n <= a {
        assert all[b] == rows[b - n] && all[a] == rows[a - n];
      }
    }
  }

  lemma NewRowsKeepLeads(s: State, rows: seq<Allocation>, i: nat)
    requires LeadsOncePerOrder(s.allocations) && AllOrNothing(s)
    requires i < |s.purchases| && s.purchases[i].status != FULFILLED && NewRows(s, i, rows)
    ensures LeadsOncePerOrder(s.allocations + rows)
  {
    var n := |s.allocations|;
    var all := s.allocations + rows;
    CountForSome(s.allocations, i);
    forall a, b | 0 <= a < b < |all|
      ensures all[a].purchase == all[b].purchase ==> all[a].lead != all[b].lead
    {
      if a < n <= b {
        assert all[b] == rows[b - n] && all[a] == s.allocations[a];
      } else if n <= a {
        assert all[b] == rows[b - n] && all[a] == rows[a - n];
      }
    }
  }

  /** Steps that leave the allocations alone and no order's settlement changed. */
  lemma SettlementsKept(s: State, t: State)
    requires AllocationsInv(s) && t.allocations == s.allocations && s.clock <= t.clock
    requires |s.leads| <= |t.leads| && |s.rules| <= |t.rules| && |t.purchases| == |s.purchases|
    requires forall i | 0 <= i < |s.purchases| ::
      && t.purchases[i].quantity == s.purchases[i].quantity && t.purchases[i].price == s.purchases[i].price
      && t.purchases[i].total == s.purchases[i].total
      && (t.purchases[i].status == FULFILLED <==> s.purchases[i].status == FULFILLED)
    ensures AllocationsInv(t)
  {
    RevenueSame(s.purchases, t.purchases);
  }

  lemma {:induction false} RevenueSame(ps: seq<Purchase>, qs: seq<Purchase>)
    requires |ps| == |qs|
    requires forall i | 0 <= i < |ps| ::
      qs[i].total == ps[i].total && (qs[i].status == FULFILLED <==> ps[i].status == FULFILLED)
    ensures Revenue(ps) == Revenue(qs)
  {
    if ps != [] {
      RevenueSame(ps[..|ps| - 1], qs[..|qs| - 1]);
    }
  }

  // --- What any step keeps -------------------------------------------------------------

  /** An order's later life: its identity and amounts are fixed, its status only moves forward, and a
      payment intent, payment time or delivery stamp once set stays. */
  predicate OrderEvolves(p: Purchase, q: Purchase) {
    && q.publicId == p.publicId && q.buyer == p.buyer && q.insuranceType == p.insuranceType
    && q.municipality == p.municipality && q.quantity == p.quantity && q.price == p.price
    && q.total == p.total && q.createdAt == p.createdAt
    && Allowed(p.status, q.status)
    && (Truthy(p.intent) ==> q.intent == p.intent)
    && (p.paidAt.Some? ==> q.paidAt == p.paidAt)
    && (p.emailSentAt.Some? ==> q.emailSentAt.Some?)
  }

  /** What never goes back: time, rows, settled orders, the audit log and the provider's log. */
  ghost predicate Evolves(s: State, t: State) {
    && s.clock <= t.clock
    && |s.rules| <= |t.rules|
    && |s.leads| <= |t.leads|
    && (forall i | 0 <= i < |s.leads| :: t.leads[i].fields.externalId == s.leads[i].fields.externalId)
    && |s.purchases| <= |t.purchases|
    && (forall i | 0 <= i < |s.purchases| :: OrderEvolves(s.purchases[i], t.purchases[i]))
    && s.allocations <= t.allocations
    && (forall a | |s.allocations| <= a < |t.allocations| && t.allocations[a].purchase < |s.purchases| ::
          !Terminal(s.purchases[t.allocations[a].purchase].status))
    && s.audit <= t.audit
    && s.outbox <= t.outbox
  }

  lemma EvolvesReflexive(s: State)
    ensures Evolves(s, s)
  {
  }

  lemma EvolvesTransitive(s: State, t: State, u: State)
    requires Evolves(s, t) && Evolves(t, u)
    ensures Evolves(s, u)
  {
    forall i | 0 <= i < |s.purchases| ensures OrderEvolves(s.purchases[i], u.purchases[i]) {
      assert OrderEvolves(s.purchases[i], t.purchases[i]) && OrderEvolves(t.purchases[i], u.purchases[i]);
    }
    forall a | |s.allocations| <= a < |u.allocations| && u.allocations[a].purchase < |s.purchases|
      ensures !Terminal(s.purchases[u.allocations[a].purchase].status)
    {
      if a < |t.allocations| {
        assert u.allocations[a] == t.allocations[a];
      } else {
        assert OrderEvolves(s.purchases[u.allocations[a].purchase], t.purchases[u.allocations[a].purchase]);
      }
    }
  }

  lemma RuleStep(s: State, t: State)
    requires Inv(s) && Configured(t.rules) && |s.rules| <= |t.rules|
    requires t == s.(rules := t.rules, audit := t.audit) && Quiet(s.audit, t.audit)
    ensures Inv(t) && Evolves(s, t)
  {
    SettlementsKept(s, t);
    QuietKeepsMail(s, t);
    QuietKeepsAudit(s.audit, t.audit);
    QuietKeepsPast(s, t);
  }

  lemma QuietKeepsPast(s: State, t: State)
    requires AttemptsPast(s) && Quiet(s.audit, t.audit) && s.clock <= t.clock
    ensures AttemptsPast(t)
  {
    assert forall a | 0 <= a < |s.audit| :: t.audit[..|s.audit|][a] == t.audit[a];
  }

  lemma SyncStep(s: State, t: State)
    requires Inv(s) && Sync.DistinctLeads(t.leads) && |s.leads| <= |t.leads|
    requires forall i | 0 <= i < |s.leads| :: t.leads[i].fields.externalId == s.leads[i].fields.externalId
    requires t == s.(leads := t.leads, runs := t.runs, audit := t.audit) && Quiet(s.audit, t.audit)
    ensures Inv(t) && Evolves(s, t)
  {
    SettlementsKept(s, t);
    QuietKeepsMail(s, t);
    QuietKeepsAudit(s.audit, t.audit);
    QuietKeepsPast(s, t);
  }

  lemma ImportStep(s: State, run: nat, parsed: SheetParser.ParseResult)
    requires Inv(s) && run < |s.runs| && Sync.FinishRun(s, run, parsed).Ok?
    ensures var t := Sync.FinishRun(s, run, parsed).value;
      Inv(t) && Evolves(s, t)
  {
    var t := Sync.FinishRun(s, run, parsed).value;
    if parsed.rejected == [] {
      Sync.CleanSnapshotAgrees(s.leads, parsed, s.clock);
    } else {
      Sync.PartialSnapshotOnlyAdds(s.leads, parsed, s.clock);
    }
    SyncStep(s, t);
  }

  /** A step on one order that does not settle it. */
  lemma OrderStep(s: State, t: State, i: nat)
    requires Inv(s) && OrderChange(s.purchases, t.purchases, i)
    requires t == s.(purchases := t.purchases)
    requires t.purchases[i].status == FULFILLED <==> s.purchases[i].status == FULFILLED
    requires t.purchases[i].emailSentAt == s.purchases[i].emailSentAt
    ensures Inv(t) && Evolves(s, t)
  {
    OrderChangeKeeps(s.purchases, t.purchases, i);
    SettlementsKept(s, t);
    QuietKeepsMail(s, t);
    OrderChangeEvolves(s.purchases, t.purchases, i);
  }

  lemma OrderChangeEvolves(ps: seq<Purchase>, qs: seq<Purchase>, i: nat)
    requires OrdersInv(ps) && OrderChange(ps, qs, i)
    ensures forall j | 0 <= j < |ps| :: OrderEvolves(ps[j], qs[j])
  {
  }

  lemma PaymentStep(s: State, t: State, i: nat)
    requires Inv(s) && PaymentEffect(s, t, i)
    ensures Inv(t) && Evolves(s, t)
  {
    PaymentEvolves(s, t, i);
    PaymentKeepsLedger(s, t, i);
  }

  lemma PaymentEvolves(s: State, t: State, i: nat)
    requires OrdersInv(s.purchases) && PaymentEffect(s, t, i)
    ensures Evolves(s, t)
  {
    OrderChangeEvolves(s.purchases, t.purchases, i);
    if t.allocations != s.allocations {
      var n := |s.allocations|;
      forall a | n <= a < |t.allocations| ensures t.allocations[a].purchase == i {
        assert t.allocations[a] == t.allocations[n..][a - n];
      }
    }
  }

  lemma PaymentKeepsLedger(s: State, t: State, i: nat)
    requires Inv(s) && PaymentEffect(s, t, i)
    ensures Inv(t)
  {
    OrderChangeKeeps(s.purchases, t.purchases, i);
    PaymentKeepsAllocations(s, t, i);
    PaymentKeepsMail(s, t, i);
    QuietKeepsPast(s, t);
  }

  lemma PaymentKeepsMail(s: State, t: State, i: nat)
    requires MailInv(s) && AttemptsSpaced(s.audit) && PaymentEffect(s, t, i)
    ensures MailInv(t) && AttemptsSpaced(t.audit)
  {
    QuietKeepsMail(s, t);
  }

  lemma OpenStep(s: State, r: CheckoutRequest, today: Date, ids: seq<string>)
    requires Inv(s)
    ensures Inv(Open(s, r, today, ids).0) && Evolves(s, Open(s, r, today, ids).0)
  {
    var (t, result) := Open(s, r, today, ids);
    EvolvesReflexive(s);
    if result.Ok? {
      OpenKeepsOrders(s, r, today, ids);
      QuietKeepsMail(s, t);
      OpenKeepsAllocations(s, t);
    } else {
      OpenExact(s, r, today, ids);
    }
  }

  lemma OpenKeepsOrders(s: State, r: CheckoutRequest, today: Date, ids: seq<string>)
    requires Configured(s.rules) && OrdersInv(s.purchases) && Open(s, r, today, ids).1.Ok?
    ensures var t := Open(s, r, today, ids).0;
      var n := |s.purchases|;
      && OrdersInv(t.purchases)
      && |t.purchases| == n + 1
      && t == s.(purchases := s.purchases + [t.purchases[n]])
      && t.purchases[n].status == PENDING && t.purchases[n].emailSentAt.None?
      && forall j | 0 <= j < n :: s.purchases[j].publicId != t.purchases[n].publicId
  {
    var t := Open(s, r, today, ids).0;
    OpenExact(s, r, today, ids);
    var p := t.purchases[|s.purchases|];
    var rule :| 0 <= rule < |s.rules| && s.rules[rule].active && s.rules[rule].price == p.price;
    assert WellFormed(s.rules[rule]) && OrderValid(p);
    forall i | 0 <= i < |t.purchases| ensures OrderValid(t.purchases[i]) {
      assert i < |s.purchases| ==> OrderValid(s.purchases[i]);
    }
  }

  lemma OpenKeepsAllocations(s: State, t: State)
    requires AllocationsInv(s) && |t.purchases| == |s.purchases| + 1
    requires t == s.(purchases := s.purchases + [t.purchases[|s.purchases|]])
    requires t.purchases[|s.purchases|].status == PENDING
    ensures AllocationsInv(t)
  {
    CountForNone(s.allocations, |s.purchases|);
    assert t.purchases[..|s.purchases|] == s.purchases;
  }

  lemma DeliverStep(s: State, order: string, resend: Option<string>, reply: MailReply)
    requires Inv(s)
    ensures var t := Deliver(s, order, resend, reply).0;
      Inv(t) && Evolves(s, t)
  {
    var t := Deliver(s, order, resend, reply).0;
    EvolvesReflexive(s);
    if t != s {
      DeliverKeepsMail(s, order, resend, reply);
      DeliverKeepsOrders(s, order, resend, reply);
      DeliverKeepsAttempts(s, order, resend, reply);
      SettlementsKept(s, t);
    }
  }

  lemma DeliverKeepsOrders(s: State, order: string, resend: Option<string>, reply: MailReply)
    requires OrdersInv(s.purchases) && Deliver(s, order, resend, reply).0 != s
    ensures var t := Deliver(s, order, resend, reply).0;
      && OrdersInv(t.purchases)
      && |t.purchases| == |s.purchases|
      && (forall i | 0 <= i < |s.purchases| :: OrderEvolves(s.purchases[i], t.purchases[i])
            && t.purchases[i].status == s.purchases[i].status)
      && t == s.(purchases := t.purchases, audit := t.audit, outbox := t.outbox)
  {
    var t := Deliver(s, order, resend, reply).0;
    DeliverShape(s, order, resend, reply);
    var i := FindOrder(s.purchases, order).value;
    assert OrderChange(s.purchases, t.purchases, i);
    OrderChangeKeeps(s.purchases, t.purchases, i);
    OrderChangeEvolves(s.purchases, t.purchases, i);
  }

  lemma DeliverKeepsAttempts(s: State, order: string, resend: Option<string>, reply: MailReply)
    requires AttemptsSpaced(s.audit) && AttemptsPast(s) && Deliver(s, order, resend, reply).0 != s
    ensures var t := Deliver(s, order, resend, reply).0;
      AttemptsSpaced(t.audit) && AttemptsPast(t) && s.audit <= t.audit && s.outbox <= t.outbox
  {
    var t := Deliver(s, order, resend, reply).0;
    DeliverShape(s, order, resend, reply);
    assert forall a | 0 <= a < |s.audit| :: t.audit[..|s.audit|][a] == t.audit[a];
  }

  lemma AttemptStep(s: State, i: nat, delay: nat)
    requires Inv(s) && i < |s.purchases| && Enter(s, i, delay).0 != s
    ensures Inv(Enter(s, i, delay).0) && Evolves(s, Enter(s, i, delay).0)
  {
    var t := Enter(s, i, delay).0;
    EnterKeepsSpacing(s, i, delay);
    SettlementsKept(s, t);
    AttemptKeepsMail(s, t, ReconciliationAttempted(s.purchases[i].publicId));
  }

  lemma AttemptKeepsMail(s: State, t: State, e: Event)
    requires MailInv(s) && AttemptsPast(s) && e.ReconciliationAttempted? && s.clock <= t.clock
    requires t == s.(clock := t.clock, audit := s.audit + [Audit(e, t.clock)])
    ensures MailInv(t) && AttemptsPast(t)
  {
    forall order ensures WasSent(t.audit, order) <==> WasSent(s.audit, order) {
      WasSentGrows(s.audit, t.audit, order);
    }
  }

  lemma TickStep(s: State, elapsed: nat)
    requires Inv(s)
    ensures Inv(Wait(s, elapsed)) && Evolves(s, Wait(s, elapsed))
  {
    SettlementsKept(s, Wait(s, elapsed));
  }

  lemma RulesGrow(s: State, items: seq<Item>)
    requires UpdateBatch(s.rules, items).Ok?
    ensures Quiet(s.audit, s.audit + RuleEvents(|s.rules|, items, s.clock))
  {
    RuleEventsQuiet(|s.rules|, items, s.clock);
    var more := RuleEvents(|s.rules|, items, s.clock);
    assert forall a | |s.audit| <= a < |s.audit + more| :: (s.audit + more)[a] == more[a - |s.audit|];
  }

  predicate RuleEventsOnly(more: seq<Audit>) {
    forall a | 0 <= a < |more| :: more[a].event.RuleCreated? || more[a].event.RuleUpdated?
  }

  lemma {:induction false} RuleEventsQuiet(n: nat, items: seq<Item>, at: int)
    ensures RuleEventsOnly(RuleEvents(n, items, at))
  {
    if items != [] {
      var k := |items| - 1;
      RuleEventsQuiet(n, items[..k], at);
      var row := Slot(n, items, k);
      var last := Audit(if items[k].id.Some? then RuleUpdated(row) else RuleCreated(row), at);
      assert RuleEvents(n, items, at) == RuleEvents(n, items[..k], at) + [last];
    }
  }

  lemma CreateStep(s: State, data: Rule)
    requires Inv(s) && Create(s.rules, data).Ok?
    ensures var t := Next(s, CreateRule(data));
      Inv(t) && Evolves(s, t)
  {
    EditsLeaveAPartition(s.rules, data, 0, Patch(None, None, None, None, None, None), []);
    RuleStep(s, s.(rules := s.rules + [data], audit := s.audit + [Audit(RuleCreated(|s.rules|), s.clock)]));
  }

  lemma EditStep(s: State, id: nat, patch: Patch)
    requires Inv(s) && Update(s.rules, id, patch).Ok?
    ensures var t := Next(s, EditRule(id, patch));
      Inv(t) && Evolves(s, t)
  {
    EditsLeaveAPartition(s.rules, Rule(0, None, 1, 0, 0, false), id, patch, []);
    RuleStep(s, s.(rules := Update(s.rules, id, patch).value, audit := s.audit + [Audit(RuleUpdated(id), s.clock)]));
  }

  lemma ReplaceStep(s: State, items: seq<Item>)
    requires Inv(s) && UpdateBatch(s.rules, items).Ok?
    ensures var t := Next(s, ReplaceRules(items));
      Inv(t) && Evolves(s, t)
  {
    UpdateBatchExact(s.rules, items);
    RulesGrow(s, items);
    var rules := UpdateBatch(s.rules, items).value;
    RuleStep(s, s.(rules := rules, audit := s.audit + RuleEvents(|s.rules|, items, s.clock)));
  }

  lemma SyncSteps(s: State, step: Step)
    requires Inv(s) && (step.BeginSync? || step.CountRows? || step.AbortSync? || step.ImportSnapshot?)
    requires Next(s, step) != s
    ensures Inv(Next(s, step)) && Evolves(s, Next(s, step))
  {
    if step.ImportSnapshot? {
      ImportStep(s, step.run, step.parsed);
    } else {
      SyncStep(s, Next(s, step));
    }
  }

  lemma LinkStep(s: State, order: string, checkoutId: string)
    requires Inv(s) && Link(s, order, checkoutId).0 != s
    ensures Inv(Link(s, order, checkoutId).0) && Evolves(s, Link(s, order, checkoutId).0)
  {
    FindOrderExact(s.purchases, order);
    OrderStep(s, Link(s, order, checkoutId).0, FindOrder(s.purchases, order).value);
  }

  lemma AbandonStep(s: State, order: string)
    requires Inv(s) && Abandon(s, order) != s
    ensures Inv(Abandon(s, order)) && Evolves(s, Abandon(s, order))
  {
    FindOrderExact(s.purchases, order);
    OrderStep(s, Abandon(s, order), FindOrder(s.purchases, order).value);
  }

  lemma FailStep(s: State, c: Checkout)
    requires Inv(s) && PayFailed(s, c).0 != s
    ensures Inv(PayFailed(s, c).0) && Evolves(s, PayFailed(s, c).0)
  {
    OrderStep(s, PayFailed(s, c).0, Bind(s.purchases, c).value);
  }

  lemma PayStep(s: State, c: Checkout, today: Date, draws: seq<nat>)
    requires Inv(s) && Pay(s, c, today, draws).0 != s
    ensures Inv(Pay(s, c, today, draws).0) && Evolves(s, Pay(s, c, today, draws).0)
  {
    PayEffect(s, c, today, draws);
    PaymentStep(s, Pay(s, c, today, draws).0, Bind(s.purchases, c).value);
  }

  lemma CheckoutSteps(s: State, step: Step)
    requires Inv(s) && (step.OpenOrder? || step.LinkCheckout? || step.AbandonOrder?) && Next(s, step) != s
    ensures Inv(Next(s, step)) && Evolves(s, Next(s, step))
  {
    match step
    case OpenOrder(request, today, ids) => OpenStep(s, request, today, ids);
    case LinkCheckout(order, checkoutId) => LinkStep(s, order, checkoutId);
    case AbandonOrder(order) => AbandonStep(s, order);
  }

  lemma SettlementSteps(s: State, step: Step)
    requires Inv(s) && (step.SettlePayment? || step.FailPayment?) && Next(s, step) != s
    ensures Inv(Next(s, step)) && Evolves(s, Next(s, step))
  {
    match step
    case SettlePayment(session, today, draws) => PayStep(s, session, today, draws);
    case FailPayment(session) => FailStep(s, session);
  }

  lemma DeliverySteps(s: State, step: Step)
    requires Inv(s) && (step.DeliverMail? || step.RecordAttempt?) && Next(s, step) != s
    ensures Inv(Next(s, step)) && Evolves(s, Next(s, step))
  {
    match step
    case DeliverMail(order, resend, reply) => DeliverStep(s, order, resend, reply);
    case RecordAttempt(order, delay) =>
      FindOrderExact(s.purchases, order);
      AttemptStep(s, FindOrder(s.purchases, order).value, delay);
  }

  lemma RuleSteps(s: State, step: Step)
    requires Inv(s) && (step.CreateRule? || step.EditRule? || step.ReplaceRules?) && Next(s, step) != s
    ensures Inv(Next(s, step)) && Evolves(s, Next(s, step))
  {
    match step
    case CreateRule(data) => CreateStep(s, data);
    case EditRule(id, patch) => EditStep(s, id, patch);
    case ReplaceRules(items) => ReplaceStep(s, items);
  }

  /** Every step keeps the invariant and moves the state only forward. */
  lemma {:induction false} StepKeeps(s: State, step: Step)
    requires Inv(s)
    ensures Inv(Next(s, step)) && Evolves(s, Next(s, step))
  {
    if Next(s, step) == s {
      EvolvesReflexive(s);
    } else if step.Tick? {
      TickStep(s, step.elapsed);
    } else if step.CreateRule? || step.EditRule? || step.ReplaceRules? {
      RuleSteps(s, step);
    } else if step.BeginSync? || step.CountRows? || step.AbortSync? || step.ImportSnapshot? {
      SyncSteps(s, step);
    } else if step.OpenOrder? || step.LinkCheckout? || step.AbandonOrder? {
      CheckoutSteps(s, step);
    } else if step.SettlePayment? || step.FailPayment? {
      SettlementSteps(s, step);
    } else {
      DeliverySteps(s, step);
    }
  }

  lemma {:induction false} RunKeeps(s: State, steps: seq<Step>)
    requires Inv(s)
    ensures Inv(Run(s, steps)) && Evolves(s, Run(s, steps))
  {
    if steps == [] {
      EvolvesReflexive(s);
    } else {
      var n := |steps| - 1;
      RunKeeps(s, steps[..n]);
      StepKeeps(Run(s, steps[..n]), steps[n]);
      EvolvesTransitive(s, Run(s, steps[..n]), Run(s, steps));
    }
  }

  lemma {:induction false} Reachable(clock: int, steps: seq<Step>)
    ensures Inv(Run(Genesis(clock), steps))
  {
    RunKeeps(Genesis(clock), steps);
  }
}
