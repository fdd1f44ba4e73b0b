/** What the marketplace promises over whole runs. */
module Guarantees {
  import opened Basics
  import opened Tables
  import opened Pricing
  import opened Inventory
  import opened Fulfillment
  import opened Checkouts
  import opened Email
  import opened Webhook
  import opened Reconciliation
  import opened Marketplace
  import Text
  import SheetParser
  import Sync

  // --- Leads are sold to one order at a time --------------------------------------

  predicate Within(row: Allocation, at: int) {
    row.purchasedAt <= at < row.excludedUntil
  }

  /** At every instant at most one allocation's exclusion window holds a given lead. */
  ghost predicate SoldToOne(rows: seq<Allocation>) {
    forall a, b, at | 0 <= a < |rows| && 0 <= b < |rows| && rows[a].lead == rows[b].lead
        && Within(rows[a], at) && Within(rows[b], at) :: a == b
  }

  lemma ApartInTime(rows: seq<Allocation>)
    requires WindowsDisjoint(rows)
    ensures SoldToOne(rows)
  {
  }

  /** In every run no lead is ever in the exclusion windows of two allocations at once. */
  lemma {:induction false} ExclusiveAtEveryInstant(clock: int, steps: seq<Step>)
    ensures SoldToOne(Run(Genesis(clock), steps).allocations)
  {
    Reachable(clock, steps);
    ApartInTime(Run(Genesis(clock), steps).allocations);
  }

  // --- All or nothing, and conservation --------------------------------------------

  /** In every committed state a fulfilled order has exactly its quantity of distinct leads, whose paid
      prices add up to its total; every other order has none; and the revenue of the fulfilled orders is
      what was paid over all allocations. */
  lemma {:induction false} OrdersBalance(clock: int, steps: seq<Step>)
    ensures var s := Run(Genesis(clock), steps);
      && (forall i | 0 <= i < |s.purchases| ::
            var p := s.purchases[i];
            && p.status != PAID
            && CountFor(s.allocations, i) == (if p.status == FULFILLED then p.quantity else 0)
            && SumFor(s.allocations, i) == if p.status == FULFILLED then p.total else 0)
      && (forall a, b | 0 <= a < b < |s.allocations| && s.allocations[a].purchase == s.allocations[b].purchase ::
            s.allocations[a].lead != s.allocations[b].lead)
      && (forall a | 0 <= a < |s.allocations| :: s.allocations[a].purchase < |s.purchases|)
      && Revenue(s.purchases) == SumPaid(s.allocations)
  {
    Reachable(clock, steps);
    var s := Run(Genesis(clock), steps);
    forall i | 0 <= i < |s.purchases|
      ensures s.purchases[i].status != PAID
      ensures SumFor(s.allocations, i) == if s.purchases[i].status == FULFILLED then s.purchases[i].total else 0
    {
      assert OrderValid(s.purchases[i]);
      SumForCount(s.allocations, i, s.purchases[i].price);
      assert 0 * s.purchases[i].price == 0;
    }
    assert LeadsOncePerOrder(s.allocations);
  }

  // --- The life of an order ----------------------------------------------------------

  /** What may become of an order: settled states and payment intents stay, only pending orders become
      failed, a settled order gains no lead, and no other order ever has its intent. */
  ghost predicate LaterLife(s: State, t: State, i: nat)
    requires i < |s.purchases| && i < |t.purchases|
  {
    var p, q := s.purchases[i], t.purchases[i];
    var settled := p.status == FULFILLED || p.status == FULFILLMENT_FAILED;
    && q.status != PAID
    && (settled ==> q.status == p.status)
    && (q.status == FAILED ==> p.status == PENDING || p.status == FAILED)
    && (q.status == PENDING ==> p.status == PENDING)
    && (settled ==>
          forall a | 0 <= a < |t.allocations| && t.allocations[a].purchase == i ::
            a < |s.allocations| && t.allocations[a] == s.allocations[a])
    && (p.intent.Some? ==> q.intent == p.intent)
    && forall j | 0 <= j < |t.purchases| && j != i && p.intent.Some? :: t.purchases[j].intent != p.intent
  }

  lemma {:induction false} EvolvedLife(s: State, t: State, i: nat)
    requires OrdersInv(s.purchases) && OrdersInv(t.purchases) && Evolves(s, t) && i < |s.purchases|
    requires forall a | 0 <= a < |t.allocations| :: t.allocations[a].purchase < |t.purchases|
    ensures LaterLife(s, t, i)
  {
    assert OrderEvolves(s.purchases[i], t.purchases[i]);
    assert OrderValid(s.purchases[i]) && OrderValid(t.purchases[i]);
    assert s.purchases[i].intent.Some? ==> "pi_" <= s.purchases[i].intent.value;
    forall a | 0 <= a < |t.allocations| && t.allocations[a].purchase == i && Terminal(s.purchases[i].status)
      ensures a < |s.allocations| && t.allocations[a] == s.allocations[a]
    {
      assert a < |s.allocations|;
    }
  }

  /** From any state a run can reach, whatever happens next, every order lives by `LaterLife`. */
  lemma {:induction false} OrderLifecycle(s: State, steps: seq<Step>, i: nat)
    requires Inv(s) && i < |s.purchases|
    ensures i < |Run(s, steps).purchases| && LaterLife(s, Run(s, steps), i)
  {
    RunKeeps(s, steps);
    EvolvedLife(s, Run(s, steps), i);
  }

  /** A session that pays for an order: paid, naming it on every reference, in dollars for its exact total. */
  predicate PaysFor(session: Checkout, p: Purchase) {
    && session.paymentStatus == Some("paid")
    && session.currency == Some("usd") && session.amountTotal == Some(p.total) && session.mode == Some("payment")
    && session.orderReference == Some(p.publicId) && session.clientReference == Some(p.publicId)
    && p.intent.Some? && session.intent == p.intent
  }

  ghost predicate PaidDuring(steps: seq<Step>, p: Purchase) {
    exists k | 0 <= k < |steps| :: steps[k].SettlePayment? && PaysFor(steps[k].session, p)
  }

  lemma {:induction false} SettledOnlyByPayment(s: State, step: Step, i: nat)
    requires Inv(s) && i < |Next(s, step).purchases| && Next(s, step).purchases[i].status == FULFILLED
    requires i < |s.purchases| ==> s.purchases[i].status != FULFILLED
    ensures step.SettlePayment? && PaysFor(step.session, Next(s, step).purchases[i])
  {
    if step.SettlePayment? {
      PaymentSettles(s, step.session, step.today, step.draws, i);
    } else {
      StatusUnsettled(s, step, i);
    }
  }

  lemma StatusUnsettled(s: State, step: Step, i: nat)
    requires !step.SettlePayment? && i < |Next(s, step).purchases|
    ensures Next(s, step).purchases[i].status == FULFILLED ==> i < |s.purchases| && s.purchases[i].status == FULFILLED
  {
    match step
    case OpenOrder(request, today, ids) => OpenExact(s, request, today, ids);
    case LinkCheckout(order, _) => FindOrderExact(s.purchases, order);
    case AbandonOrder(order) => FindOrderExact(s.purchases, order);
    case FailPayment(session) => PaymentFailedExactly(s, session);
    case DeliverMail(order, _, _) => FindOrderExact(s.purchases, order);
    case _ =>
  }

  lemma PaymentSettles(s: State, c: Checkout, today: Date, draws: seq<nat>, i: nat)
    requires Inv(s) && i < |Pay(s, c, today, draws).0.purchases|
    requires i < |s.purchases| ==> s.purchases[i].status != FULFILLED
    ensures var q := Pay(s, c, today, draws).0.purchases[i];
      q.status == FULFILLED ==> PaysFor(c, q)
  {
    PayEffect(s, c, today, draws);
    var t := Pay(s, c, today, draws).0;
    if t.purchases[i].status == FULFILLED {
      PayChange(s, c, today, draws);
      FindOrderExact(s.purchases, c.orderReference.value);
    }
  }

  /** In every run, an order is fulfilled only if some step of it settled a paid session that names the
      order on every reference, for its exact total, under the intent the order now holds. */
  lemma {:induction false} FulfilledOnlyWhenPaid(clock: int, steps: seq<Step>, i: nat)
    requires i < |Run(Genesis(clock), steps).purchases|
    requires Run(Genesis(clock), steps).purchases[i].status == FULFILLED
    ensures PaidDuring(steps, Run(Genesis(clock), steps).purchases[i])
  {
    var n := |steps| - 1;
    if steps == [] {
    } else {
      Reachable(clock, steps[..n]);
      var before := Run(Genesis(clock), steps[..n]);
      if i < |before.purchases| && before.purchases[i].status == FULFILLED {
        FulfilledOnlyWhenPaid(clock, steps[..n], i);
        StepKeeps(before, steps[n]);
        assert OrderEvolves(before.purchases[i], Next(before, steps[n]).purchases[i]);
        PaidStays(steps, before.purchases[i], Next(before, steps[n]).purchases[i]);
      } else {
        SettledOnlyByPayment(before, steps[n], i);
      }
    }
  }

  lemma PaidStays(steps: seq<Step>, p: Purchase, q: Purchase)
    requires steps != [] && PaidDuring(steps[..|steps| - 1], p) && OrderEvolves(p, q)
    requires OrderValid(p)
    ensures PaidDuring(steps, q)
  {
    var n := |steps| - 1;
    var k :| 0 <= k < n && steps[..n][k].SettlePayment? && PaysFor(steps[..n][k].session, p);
    assert "pi_" <= p.intent.value;
    assert steps[k].SettlePayment? && PaysFor(steps[k].session, q);
  }

  /** Stripe gives no session an empty id. */
  predicate NamedSessions(steps: seq<Step>) {
    forall k | 0 <= k < |steps| && steps[k].LinkCheckout? :: steps[k].checkoutId != ""
  }

  lemma SessionStays(s: State, step: Step, i: nat)
    requires Inv(s) && i < |s.purchases| && Truthy(s.purchases[i].checkoutId)
    requires step.LinkCheckout? ==> step.checkoutId != ""
    ensures i < |Next(s, step).purchases| && Truthy(Next(s, step).purchases[i].checkoutId)
  {
    if step.SettlePayment? {
      BoundSessionStays(s, step.session, step.today, step.draws, i);
    } else if step.OpenOrder? || step.LinkCheckout? || step.AbandonOrder? {
      LinkedSessionStays(s, step, i);
    } else {
      OtherSessionStays(s, step, i);
    }
  }

  lemma LinkedSessionStays(s: State, step: Step, i: nat)
    requires i < |s.purchases| && Truthy(s.purchases[i].checkoutId)
    requires step.OpenOrder? || (step.LinkCheckout? && step.checkoutId != "") || step.AbandonOrder?
    ensures i < |Next(s, step).purchases| && Truthy(Next(s, step).purchases[i].checkoutId)
  {
    match step
    case OpenOrder(request, today, ids) => OpenExact(s, request, today, ids);
    case LinkCheckout(order, checkoutId) => SecondTransaction(s, order, checkoutId);
    case AbandonOrder(order) => SecondTransaction(s, order, "");
  }

  lemma OtherSessionStays(s: State, step: Step, i: nat)
    requires i < |s.purchases| && Truthy(s.purchases[i].checkoutId)
    requires !step.SettlePayment? && !step.OpenOrder? && !step.LinkCheckout? && !step.AbandonOrder?
    ensures i < |Next(s, step).purchases| && Truthy(Next(s, step).purchases[i].checkoutId)
  {
    match step
    case FailPayment(session) => PaymentFailedExactly(s, session);
    case DeliverMail(order, resend, reply) =>
      if Deliver(s, order, resend, reply).0 != s {
        DeliverShape(s, order, resend, reply);
      }
    case RecordAttempt(order, delay) => FindOrderExact(s.purchases, order);
    case _ =>
  }

  lemma BoundSessionStays(s: State, c: Checkout, today: Date, draws: seq<nat>, i: nat)
    requires i < |s.purchases| && Truthy(s.purchases[i].checkoutId)
    ensures var t := Pay(s, c, today, draws).0;
      i < |t.purchases| && Truthy(t.purchases[i].checkoutId)
  {
    PaymentRecorded(s, c, today, draws);
    if Bind(s.purchases, c).Ok? {
      assert "cs_" <= c.id.value;
    }
  }

  lemma {:induction false} SessionKept(s: State, steps: seq<Step>, i: nat)
    requires Inv(s) && i < |s.purchases| && Truthy(s.purchases[i].checkoutId) && NamedSessions(steps)
    ensures i < |Run(s, steps).purchases| && Truthy(Run(s, steps).purchases[i].checkoutId)
  {
    if steps != [] {
      var n := |steps| - 1;
      assert forall k | 0 <= k < n :: steps[..n][k] == steps[k];
      SessionKept(s, steps[..n], i);
      RunKeeps(s, steps[..n]);
      SessionStays(Run(s, steps[..n]), steps[n], i);
    }
  }

  /** A session of a settled order that has one: it is the stored session, or it is refused. */
  lemma SettledReplay(u: State, i: nat, c: Checkout, today: Date, draws: seq<nat>)
    requires DistinctOrders(u.purchases) && i < |u.purchases| && c.orderReference == Some(u.purchases[i].publicId)
    requires Terminal(u.purchases[i].status) && Truthy(u.purchases[i].checkoutId)
    ensures Pay(u, c, today, draws).0 == u
  {
    FindOrderExact(u.purchases, u.purchases[i].publicId);
    assert FindOrder(u.purchases, u.purchases[i].publicId) == Some(i);
    var p := u.purchases[i];
    if p.checkoutId == c.id {
      assert u.purchases[i := p.(checkoutId := c.id)] == u.purchases;
    }
  }

  /** Once a payment has been taken, delivering its session again changes nothing at all, whatever ran in
      between and however late the event comes. */
  lemma {:induction false} PaymentReplay(
    s: State, c: Checkout, today: Date, draws: seq<nat>, steps: seq<Step>, later: Date, redraws: seq<nat>)
    requires Inv(s) && Pay(s, c, today, draws).1.Ok? && NamedSessions(steps)
    ensures var u := Run(Pay(s, c, today, draws).0, steps);
      Pay(u, c, later, redraws).0 == u
  {
    var t := Pay(s, c, today, draws).0;
    if t != s {
      PayStep(s, c, today, draws);
    }
    var i := TakenSession(s, c, today, draws);
    ReplayAfter(t, i, c, steps, later, redraws);
  }

  lemma ReplayAfter(t: State, i: nat, c: Checkout, steps: seq<Step>, later: Date, redraws: seq<nat>)
    requires Inv(t) && i < |t.purchases| && NamedSessions(steps)
    requires c.orderReference == Some(t.purchases[i].publicId)
    requires Terminal(t.purchases[i].status) && Truthy(t.purchases[i].checkoutId)
    ensures Pay(Run(t, steps), c, later, redraws).0 == Run(t, steps)
  {
    RunKeeps(t, steps);
    SessionKept(t, steps, i);
    assert OrderEvolves(t.purchases[i], Run(t, steps).purchases[i]);
    SettledReplay(Run(t, steps), i, c, later, redraws);
  }

  lemma TakenSession(s: State, c: Checkout, today: Date, draws: seq<nat>) returns (i: nat)
    requires Pay(s, c, today, draws).1.Ok?
    ensures var t := Pay(s, c, today, draws).0;
      && i < |t.purchases|
      && c.orderReference == Some(t.purchases[i].publicId)
      && Terminal(t.purchases[i].status) && Truthy(t.purchases[i].checkoutId)
  {
    i := Bind(s.purchases, c).value;
    PaymentRecorded(s, c, today, draws);
    FindOrderExact(s.purchases, c.orderReference.value);
    assert "cs_" <= c.id.value;
  }

  // --- Pricing -------------------------------------------------------------------------

  /** In every run the rules, once there are any, give each age exactly one active rule. */
  lemma {:induction false} AlwaysConfigured(clock: int, steps: seq<Step>)
    ensures var rules := Run(Genesis(clock), steps).rules;
      rules == [] || (AllWellFormed(rules) && Partition(rules))
  {
    Reachable(clock, steps);
  }

  /** In every run a payment finds a rule for each lead it allocates. */
  lemma {:induction false} NoPaymentMissesItsRule(
    clock: int, steps: seq<Step>, c: Checkout, today: Date, draws: seq<nat>)
    ensures Pay(Run(Genesis(clock), steps), c, today, draws).1 != Err(RuntimeFailure)
  {
    Reachable(clock, steps);
    var s := Run(Genesis(clock), steps);
    if Bind(s.purchases, c).Ok? && PaymentAccepted(s, Bind(s.purchases, c).value, c) {
      FulfilledExactly(s, Bind(s.purchases, c).value, c, today, draws);
    }
  }

  /** Which rule covers which age, and that later rules are inactive. */
  ghost predicate SameCoverage(rules: seq<Rule>, after: seq<Rule>) {
    && |rules| <= |after|
    && (forall i, age: nat | 0 <= i < |rules| :: Covers(after[i], age) <==> Covers(rules[i], age))
    && (forall i | |rules| <= i < |after| :: !after[i].active)
    && (DistinctPrices(rules) ==> DistinctPrices(after))
  }

  /** Without a whole-configuration edit no run changes which rule covers any age, nor makes two
      active rules share a price. */
  lemma {:induction false} OnlyBatchesMoveAges(s: State, steps: seq<Step>)
    requires Inv(s) && s.rules != [] && forall k | 0 <= k < |steps| :: !steps[k].ReplaceRules?
    ensures SameCoverage(s.rules, Run(s, steps).rules)
  {
    if steps != [] {
      var n := |steps| - 1;
      assert forall k | 0 <= k < n :: steps[..n][k] == steps[k];
      OnlyBatchesMoveAges(s, steps[..n]);
      RunKeeps(s, steps[..n]);
      var before := Run(s, steps[..n]);
      SingleEditKeepsAges(before, steps[n]);
      CoverageTransitive(s.rules, before.rules, Next(before, steps[n]).rules);
    }
  }

  lemma CoverageTransitive(a: seq<Rule>, b: seq<Rule>, c: seq<Rule>)
    requires SameCoverage(a, b) && SameCoverage(b, c) && AllWellFormed(c) && AllWellFormed(b)
    ensures SameCoverage(a, c)
  {
    forall i | |a| <= i < |c| ensures !c[i].active {
      if i < |b| {
        assert WellFormed(c[i]);
        assert Covers(c[i], c[i].minAge) <==> Covers(b[i], c[i].minAge);
      }
    }
  }

  lemma SingleEditKeepsAges(s: State, step: Step)
    requires Inv(s) && s.rules != [] && !step.ReplaceRules?
    ensures SameCoverage(s.rules, Next(s, step).rules) && AllWellFormed(Next(s, step).rules)
  {
    if step.CreateRule? || step.EditRule? {
      EditKeepsAges(s, step);
    } else {
      RulesUntouched(s, step);
    }
  }

  lemma EditKeepsAges(s: State, step: Step)
    requires Configured(s.rules) && s.rules != [] && (step.CreateRule? || step.EditRule?)
    ensures SameCoverage(s.rules, Next(s, step).rules) && AllWellFormed(Next(s, step).rules)
  {
    if step.CreateRule? {
      if Create(s.rules, step.data).Ok? {
        CreateIsRigid(s.rules, step.data);
        ValidateRangesExact(s.rules + [step.data]);
      }
    } else if Update(s.rules, step.id, step.patch).Ok? {
      UpdateIsRigid(s.rules, step.id, step.patch);
      ValidateRangesExact(Update(s.rules, step.id, step.patch).value);
    }
  }

  lemma RulesUntouched(s: State, step: Step)
    requires !step.CreateRule? && !step.EditRule? && !step.ReplaceRules?
    ensures Next(s, step).rules == s.rules
  {
  }

  // --- Mail ------------------------------------------------------------------------------

  /** An administrator's resend of this order that the provider accepts. */
  predicate Unblocks(step: Step, order: string) {
    step.DeliverMail? && step.order == order && Truthy(step.resend) && step.reply.Accepted?
  }

  /** The block stands, and the provider was asked about this order only by administrators. */
  ghost predicate StaysBlocked(s: State, t: State, order: string) {
    && Blocked(t.audit, order)
    && s.outbox <= t.outbox
    && forall k | |s.outbox| <= k < |t.outbox| :: t.outbox[k].order == order ==> t.outbox[k].byAdmin
  }

  predicate NoMailEntry(e: Event) {
    !e.EmailBlocked? && !e.EmailSent? && !e.EmailResent?
  }

  ghost predicate NoMail(s: State, t: State) {
    && t.outbox == s.outbox
    && s.audit <= t.audit
    && forall a | |s.audit| <= a < |t.audit| :: NoMailEntry(t.audit[a].event)
  }

  lemma NoMailKeepsBlock(s: State, t: State, order: string)
    requires NoMail(s, t) && Blocked(s.audit, order)
    ensures StaysBlocked(s, t, order)
  {
    var more := t.audit[|s.audit|..];
    assert t.audit == s.audit + more;
    forall a | 0 <= a < |more| ensures !MailEvent(more[a].event, order) {
      assert more[a] == t.audit[|s.audit| + a];
    }
    LatestMailAppend(s.audit, more, order);
  }

  lemma DeliverKeepsBlock(s: State, target: string, resend: Option<string>, reply: MailReply, order: string)
    requires Blocked(s.audit, order) && !(target == order && Truthy(resend) && reply.Accepted?)
    ensures StaysBlocked(s, Deliver(s, target, resend, reply).0, order)
  {
    DeliverEffect(s, target, resend, reply, order);
  }

  lemma PaymentSendsNoMail(s: State, session: Checkout, today: Date, draws: seq<nat>)
    requires Configured(s.rules) && OrdersInv(s.purchases)
    ensures NoMail(s, Pay(s, session, today, draws).0)
  {
    PayEffect(s, session, today, draws);
  }

  lemma EditSendsNoMail(s: State, step: Step)
    requires step.CreateRule? || step.EditRule? || step.ReplaceRules?
    ensures NoMail(s, Next(s, step))
  {
    if step.ReplaceRules? && UpdateBatch(s.rules, step.items).Ok? {
      RulesGrow(s, step.items);
    }
  }

  lemma OtherSendsNoMail(s: State, step: Step)
    requires !step.CreateRule? && !step.EditRule? && !step.ReplaceRules?
    requires !step.DeliverMail? && !step.SettlePayment?
    ensures NoMail(s, Next(s, step))
  {
  }

  lemma StepKeepsBlock(s: State, step: Step, order: string)
    requires Inv(s) && Blocked(s.audit, order) && !Unblocks(step, order)
    ensures StaysBlocked(s, Next(s, step), order)
  {
    if step.DeliverMail? {
      DeliverKeepsBlock(s, step.order, step.resend, step.reply, order);
    } else {
      if step.SettlePayment? {
        PaymentSendsNoMail(s, step.session, step.today, step.draws);
      } else if step.CreateRule? || step.EditRule? || step.ReplaceRules? {
        EditSendsNoMail(s, step);
      } else {
        OtherSendsNoMail(s, step);
      }
      NoMailKeepsBlock(s, Next(s, step), order);
    }
  }

  lemma StaysBlockedTransitive(s: State, t: State, u: State, order: string)
    requires StaysBlocked(s, t, order) && StaysBlocked(t, u, order)
    ensures StaysBlocked(s, u, order)
  {
    assert forall k | |s.outbox| <= k < |t.outbox| :: u.outbox[k] == t.outbox[k];
  }

  /** While the newest of an order's blocked, sent and resent entries is a block, no webhook, refresh
      or sweep reaches the provider for it; only an accepted admin resend lifts the block. */
  lemma {:induction false} BlockHolds(s: State, steps: seq<Step>, order: string)
    requires Inv(s) && Blocked(s.audit, order)
    requires forall k | 0 <= k < |steps| :: !Unblocks(steps[k], order)
    ensures StaysBlocked(s, Run(s, steps), order)
  {
    if steps != [] {
      var n := |steps| - 1;
      assert forall k | 0 <= k < n :: steps[..n][k] == steps[k];
      BlockHolds(s, steps[..n], order);
      RunKeeps(s, steps[..n]);
      var before := Run(s, steps[..n]);
      StepKeepsBlock(before, steps[n], order);
      StaysBlockedTransitive(s, before, Run(s, steps), order);
    }
  }

  /** A provider that deduplicates by key delivers at most one automatic message per order, and at most one for each
      order and admin key. */
  ghost predicate DeliveredOnce(outbox: seq<Send>) {
    forall j, k | 0 <= j < |outbox| && 0 <= k < |outbox| && SameRequest(outbox[j], outbox[k])
        && Delivered(outbox, j) && Delivered(outbox, k) :: j == k
  }

  predicate SameRequest(a: Send, b: Send) {
    a.order == b.order && a.byAdmin == b.byAdmin && (a.byAdmin ==> a.resend == b.resend)
  }

  lemma KeysDeliverOnce(outbox: seq<Send>)
    requires KeysByKind(outbox)
    ensures DeliveredOnce(outbox)
  {
    forall j, k | 0 <= j < |outbox| && 0 <= k < |outbox| && SameRequest(outbox[j], outbox[k])
        && Delivered(outbox, j) && Delivered(outbox, k)
      ensures j == k
    {
      if outbox[j].byAdmin {
        AdminMailAtMostOnce(outbox, j, k);
      } else {
        AutomaticMailAtMostOnce(outbox, j, k);
      }
    }
  }

  /** In every run: delivery stamps match the log, no sent entry repeats, mail goes to fulfilled
      orders only, and automatic mail is delivered at most once, retries, lost answers and crashes
      before commit included. */
  lemma {:induction false} MailAtMostOnce(clock: int, steps: seq<Step>)
    ensures var s := Run(Genesis(clock), steps);
      StampsMatchLog(s) && SentOnce(s.audit) && MailForFulfilled(s) && DeliveredOnce(s.outbox)
  {
    Reachable(clock, steps);
    KeysDeliverOnce(Run(Genesis(clock), steps).outbox);
  }

  // --- Reconciliation ----------------------------------------------------------------------

  /** Whatever mix of callers and sweeps ran, a window of length T holds at most floor(T / 15 s) + 1
      recorded attempts of one order. */
  lemma {:induction false} AttemptsBounded(clock: int, steps: seq<Step>, order: string, from: int, to: int)
    requires from <= to
    ensures AttemptsWithin(Run(Genesis(clock), steps).audit, order, from, to) <= (to - from) / 15_000_000 + 1
  {
    Reachable(clock, steps);
    CooldownBound(Run(Genesis(clock), steps).audit, order, from, to);
  }

  // --- Requests are runs of steps -------------------------------------------------------------

  lemma {:induction false} RunConcat(s: State, a: seq<Step>, b: seq<Step>)
    ensures Run(s, a + b) == Run(Run(s, a), b)
  {
    if b == [] {
      assert a + b == a;
    } else {
      var n := |b| - 1;
      assert (a + b)[..|a| + n] == a + b[..n];
      RunConcat(s, a, b[..n]);
    }
  }

  lemma RunOne(s: State, step: Step)
    ensures Run(s, [step]) == Next(s, step)
  {
    assert Run(s, []) == s;
    assert [step][..0] == [];
  }

  /** The transactions of one webhook delivery. */
  function ProcessSteps(
    s: State, kind: EventKind, session: Option<Checkout>, today: Date, draws: seq<nat>, reply: MailReply): seq<Step>
  {
    if kind == Unsupported || session.None? || !Truthy(session.value.orderReference) then []
    else if kind == SessionCompleted || kind == AsyncPaymentSucceeded then
      if session.value.paymentStatus != Some("paid") then []
      else PaidSteps(s, session.value, today, draws, reply)
    else [FailPayment(session.value)]
  }

  function PaidSteps(s: State, c: Checkout, today: Date, draws: seq<nat>, reply: MailReply): seq<Step> {
    match Pay(s, c, today, draws).1
    case Err(_) => [SettlePayment(c, today, draws)]
    case Ok(order) => [SettlePayment(c, today, draws)] + [DeliverMail(order, None, reply)]
  }

  lemma PaidIsRun(s: State, c: Checkout, today: Date, draws: seq<nat>, reply: MailReply)
    ensures var (paid, outcome) := Pay(s, c, today, draws);
      Run(s, PaidSteps(s, c, today, draws, reply)) == match outcome
        case Err(_) => paid
        case Ok(order) => Deliver(paid, order, None, reply).0
  {
    var (paid, outcome) := Pay(s, c, today, draws);
    RunOne(s, SettlePayment(c, today, draws));
    if outcome.Ok? {
      var mail := DeliverMail(outcome.value, None, reply);
      RunOne(paid, mail);
      RunConcat(s, [SettlePayment(c, today, draws)], [mail]);
    }
  }

  /** Handling a webhook is a run of steps, so it may be interleaved with any other. */
  lemma {:induction false} ProcessIsRun(
    s: State, kind: EventKind, session: Option<Checkout>, today: Date, draws: seq<nat>, reply: MailReply)
    ensures Run(s, ProcessSteps(s, kind, session, today, draws, reply))
      == Process(s, kind, session, today, draws, reply).0
  {
    if session.Some? {
      PaidIsRun(s, session.value, today, draws, reply);
      RunOne(s, FailPayment(session.value));
    }
  }

  /** The transactions of a refresh after its attempt is recorded. */
  function SessionSteps(c: Checkout, m: Meets): seq<Step> {
    if c.status == Some("complete") && c.paymentStatus == Some("paid") then [SettlePayment(c, m.today, m.draws)]
    else if c.status == Some("expired") then [FailPayment(c)]
    else []
  }

  function GateSteps(s: State, order: string, gate: Gate, m: Meets): seq<Step>
    requires gate.Attempt?
  {
    if gate.status != FULFILLED && Truthy(gate.checkoutId) then
      if m.stripe.None? || !RefersTo(m.stripe.value, gate.checkoutId, order) then []
      else
        SessionSteps(m.stripe.value, m)
        + if ApplySession(s, m.stripe.value, m.today, m.draws).1.Err? then [] else [DeliverMail(order, None, m.mail)]
    else [DeliverMail(order, None, m.mail)]
  }

  function RefreshSteps(s: State, order: string, m: Meets): seq<Step> {
    FindOrderExact(s.purchases, order);
    match FindOrder(s.purchases, order)
    case None => []
    case Some(i) =>
      var (entered, gate) := Enter(s, i, m.delay);
      if m.busy || gate.Err? || !gate.value.Attempt? then []
      else [RecordAttempt(order, m.delay)] + GateSteps(entered, order, gate.value, m)
  }

  lemma SessionIsRun(s: State, c: Checkout, m: Meets)
    ensures Run(s, SessionSteps(c, m)) == ApplySession(s, c, m.today, m.draws).0
  {
    if SessionSteps(c, m) != [] {
      RunOne(s, SessionSteps(c, m)[0]);
    }
  }

  lemma GateIsRun(s: State, order: string, gate: Gate, m: Meets)
    requires gate.Attempt?
    ensures Run(s, GateSteps(s, order, gate, m)) == AfterGate(s, order, gate, m).0
  {
    var mail := DeliverMail(order, None, m.mail);
    if gate.status != FULFILLED && Truthy(gate.checkoutId) {
      if m.stripe.Some? && RefersTo(m.stripe.value, gate.checkoutId, order) {
        SessionIsRun(s, m.stripe.value, m);
        var (applied, outcome) := ApplySession(s, m.stripe.value, m.today, m.draws);
        RunOne(applied, mail);
        RunConcat(s, SessionSteps(m.stripe.value, m), if outcome.Err? then [] else [mail]);
      }
    } else {
      RunOne(s, mail);
    }
  }

  /** A refresh is a run of steps, so it may be interleaved with any other. */
  lemma {:induction false} RefreshIsRun(s: State, order: string, m: Meets)
    ensures Run(s, RefreshSteps(s, order, m)) == Refresh(s, order, m).0
  {
    FindOrderExact(s.purchases, order);
    var row := FindOrder(s.purchases, order);
    if row.Some? {
      var (entered, gate) := Enter(s, row.value, m.delay);
      if !m.busy && gate.Ok? && gate.value.Attempt? {
        RunOne(s, RecordAttempt(order, m.delay));
        GateIsRun(entered, order, gate.value, m);
        RunConcat(s, [RecordAttempt(order, m.delay)], GateSteps(entered, order, gate.value, m));
      }
    }
  }

  /** A refresh that finds its session paid does what the webhook it missed would have done. */
  lemma {:induction false} RefreshIsWebhook(s: State, i: nat, m: Meets, kind: EventKind)
    requires DistinctOrders(s.purchases) && i < |s.purchases| && s.purchases[i].publicId != "" && !m.busy
    requires Enter(s, i, m.delay).1.Ok? && Enter(s, i, m.delay).1.value.Attempt?
    requires s.purchases[i].status != FULFILLED && Truthy(s.purchases[i].checkoutId)
    requires m.stripe.Some? && RefersTo(m.stripe.value, s.purchases[i].checkoutId, s.purchases[i].publicId)
    requires m.stripe.value.status == Some("complete") && m.stripe.value.paymentStatus == Some("paid")
    requires kind == SessionCompleted || kind == AsyncPaymentSucceeded
    ensures Refresh(s, s.purchases[i].publicId, m).0
      == Process(Enter(s, i, m.delay).0, kind, m.stripe, m.today, m.draws, m.mail).0
  {
    var order := s.purchases[i].publicId;
    FindOrderExact(s.purchases, order);
    assert FindOrder(s.purchases, order) == Some(i);
    PaidNamesOrder(Enter(s, i, m.delay).0, m.stripe.value, m.today, m.draws);
  }

  lemma PaidNamesOrder(s: State, c: Checkout, today: Date, draws: seq<nat>)
    ensures Pay(s, c, today, draws).1.Ok? ==> c.orderReference == Some(Pay(s, c, today, draws).1.value)
  {
    if c.orderReference.Some? {
      FindOrderExact(s.purchases, c.orderReference.value);
    }
  }

  /** The transactions of one synchronization. */
  function SyncTransactions(s: State, lib: SheetParser.Library, manual: bool, fetch: Sync.Fetch): seq<Step> {
    [BeginSync(manual)]
    + match fetch
      case Busy => [AbortSync(|s.runs|, SheetSyncError)]
      case Unreadable(e) => [AbortSync(|s.runs|, e)]
      case Values(values) =>
        match SheetParser.ValuesToRows(values)
        case Err(e) => [AbortSync(|s.runs|, e)]
        case Ok(rows) => [CountRows(|s.runs|, |rows|)] + [ParsedStep(|s.runs|, SheetParser.ParseRows(lib, rows))]
  }

  function ParsedStep(run: nat, parsed: Result<SheetParser.ParseResult, Error>): Step {
    match parsed
    case Err(e) => AbortSync(run, e)
    case Ok(snapshot) => ImportSnapshot(run, snapshot)
  }

  lemma RunThree(s: State, a: Step, b: Step, c: Step)
    ensures Run(s, [a] + [b]) == Next(Next(s, a), b)
    ensures Run(s, [a] + ([b] + [c])) == Next(Next(Next(s, a), b), c)
  {
    RunOne(s, a);
    RunOne(Next(s, a), b);
    RunOne(Next(Next(s, a), b), c);
    RunConcat(s, [a], [b]);
    RunConcat(Next(s, a), [b], [c]);
    RunConcat(s, [a], [b] + [c]);
  }

  lemma ImportIsStep(s: State, run: nat, parsed: Result<SheetParser.ParseResult, Error>)
    requires run < |s.runs| && (parsed.Ok? ==> Sync.Apply(s.leads, parsed.value, s.clock).Ok?)
    ensures Next(s, ParsedStep(run, parsed)) == Sync.Import(s, run, parsed).0
  {
  }

  lemma CountedIsSteps(s: State, manual: bool, rows: nat)
    ensures Next(Next(s, BeginSync(manual)), CountRows(|s.runs|, rows))
      == Sync.Receive(Sync.StartRun(s, manual), |s.runs|, rows)
  {
  }

  lemma ReadSyncIsRun(s: State, lib: SheetParser.Library, manual: bool, values: seq<seq<Text.Cell>>)
    requires SheetParser.ValuesToRows(values).Ok?
    ensures Run(s, SyncTransactions(s, lib, manual, Sync.Values(values)))
      == Sync.Sync(s, lib, manual, Sync.Values(values)).0
  {
    var r := |s.runs|;
    var rows := SheetParser.ValuesToRows(values).value;
    var parsed := SheetParser.ParseRows(lib, rows);
    var last := ParsedStep(r, parsed);
    var counted := Sync.Receive(Sync.StartRun(s, manual), r, |rows|);
    assert parsed.Ok? ==> Sync.Apply(s.leads, parsed.value, s.clock).Ok? by {
      if parsed.Ok? {
        Sync.ParsedApplies(s.leads, lib, rows, s.clock);
      }
    }
    calc {
      Run(s, SyncTransactions(s, lib, manual, Sync.Values(values)));
      Run(s, [BeginSync(manual)] + ([CountRows(r, |rows|)] + [last]));
      { RunThree(s, BeginSync(manual), CountRows(r, |rows|), last); CountedIsSteps(s, manual, |rows|); }
      Next(counted, last);
      { ImportIsStep(counted, r, parsed); }
      Sync.Import(counted, r, parsed).0;
      Sync.Sync(s, lib, manual, Sync.Values(values)).0;
    }
  }

  lemma AbortedSyncIsRun(s: State, manual: bool, e: Error)
    ensures Run(s, [BeginSync(manual)] + [AbortSync(|s.runs|, e)])
      == Sync.FailRun(Sync.StartRun(s, manual), |s.runs|, e)
  {
    RunThree(s, BeginSync(manual), AbortSync(|s.runs|, e), AbortSync(|s.runs|, e));
    AbortedIsSteps(s, manual, e);
  }

  lemma AbortedIsSteps(s: State, manual: bool, e: Error)
    ensures Next(Next(s, BeginSync(manual)), AbortSync(|s.runs|, e))
      == Sync.FailRun(Sync.StartRun(s, manual), |s.runs|, e)
  {
  }

  /** A synchronization is a run of steps, so it may be interleaved with any other. */
  lemma {:induction false} SyncIsRun(s: State, lib: SheetParser.Library, manual: bool, fetch: Sync.Fetch)
    ensures Run(s, SyncTransactions(s, lib, manual, fetch)) == Sync.Sync(s, lib, manual, fetch).0
  {
    match fetch
    case Busy => AbortedSyncIsRun(s, manual, SheetSyncError);
    case Unreadable(e) => AbortedSyncIsRun(s, manual, e);
    case Values(values) =>
      match SheetParser.ValuesToRows(values)
      case Err(e) => AbortedSyncIsRun(s, manual, e);
      case Ok(_) => ReadSyncIsRun(s, lib, manual, values);
  }

  lemma {:induction false} SweepKeeps(s: State, orders: seq<string>, meets: seq<Meets>)
    requires Inv(s) && |orders| == |meets|
    ensures Inv(Sweep(s, orders, meets)) && Evolves(s, Sweep(s, orders, meets))
  {
    EvolvesReflexive(s);
    if orders != [] {
      var n := |orders| - 1;
      SweepKeeps(s, orders[..n], meets[..n]);
      var before := Sweep(s, orders[..n], meets[..n]);
      var waited := Wait(before, meets[n].wait);
      TickStep(before, meets[n].wait);
      RefreshIsRun(waited, orders[n], meets[n]);
      RunKeeps(waited, RefreshSteps(waited, orders[n], meets[n]));
      EvolvesTransitive(s, before, waited);
      EvolvesTransitive(s, waited, Sweep(s, orders, meets));
    }
  }
}
