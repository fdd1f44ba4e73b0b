/** Concrete states in which the code does less than one might expect of it. */
module Witnesses {
  import opened Basics
  import opened Tables
  import opened Pricing
  import opened Inventory
  import opened Fulfillment
  import opened Email
  import opened Reconciliation
  import opened Marketplace
  import opened Guarantees
  import opened Fairness

  const PRICE := 100

  /** One tier for every age. */
  function OneRule(exclusionDays: nat): Rule {
    Rule(0, None, PRICE, exclusionDays, 0, true)
  }

  const ONE_LEAD := Lead(
    Record("L", 1, "N", "1", None, None, None, LIFE_INSURANCE, None, None, None, None), true, None, 0)

  /** An order for one lead, without a session yet. */
  function OneLeadOrder(publicId: string, status: Status): Purchase {
    Purchase(publicId, Buyer("B", "b", None), LIFE_INSURANCE, None, 1, PRICE, PRICE, None, None, status, 0,
      None, None, None)
  }

  /** A paid session that names the order on every reference, for its exact total. */
  function PaidSession(publicId: string): Checkout {
    Checkout(Some("cs_"), Some(publicId), Some(publicId), Some("complete"), Some("paid"), Some("pi_"), Some("usd"),
      Some(PRICE), Some("payment"))
  }

  /** One rule, one unsold lead, and orders without sessions. */
  ghost predicate Shop(s: State, exclusionDays: nat) {
    && s.rules == [OneRule(exclusionDays)] && s.leads == [ONE_LEAD] && s.allocations == []
    && DistinctOrders(s.purchases)
    && forall i | 0 <= i < |s.purchases| :: s.purchases[i].checkoutId.None? && s.purchases[i].intent.None?
  }

  lemma ShopAccepts(s: State, exclusionDays: nat, i: nat)
    requires Shop(s, exclusionDays) && i < |s.purchases| && !Terminal(s.purchases[i].status)
    requires s.purchases[i] == OneLeadOrder(s.purchases[i].publicId, s.purchases[i].status)
    ensures PaymentAccepted(s, i, PaidSession(s.purchases[i].publicId))
  {
    FindOrderExact(s.purchases, s.purchases[i].publicId);
    assert FindOrder(s.purchases, s.purchases[i].publicId) == Some(i);
  }

  lemma ShopConfigured(s: State, exclusionDays: nat)
    requires Shop(s, exclusionDays)
    ensures Configured(s.rules)
    ensures ApplicableRule(1, 1, s.rules, ActiveList(s.rules)) == Some(0)
  {
    SingleRuleCovers(OneRule(exclusionDays));
    ApplicableRuleUnique(1, 1, s.rules, 0);
  }

  lemma ShopSells(s: State, exclusionDays: nat)
    requires Shop(s, exclusionDays)
    ensures Configured(s.rules)
    ensures ApplicableRule(1, 1, s.rules, ActiveList(s.rules)) == Some(0)
    ensures var rows := Query(s, 1, Some(PRICE), Demand(None, LIFE_INSURANCE));
      rows.Ok? && 0 in rows.value && |rows.value| == 1
  {
    var d := Demand(None, LIFE_INSURANCE);
    ShopConfigured(s, exclusionDays);
    assert Sellable(s, 1, d, 0);
    TierOfLead(s, 1, d, 0, PRICE);
    RowsBelowExact(s, WithPrice(s.rules, ActiveList(s.rules), PRICE), 1, d, 1);
    NoDupSize(Query(s, 1, Some(PRICE), d).value, {0});
  }

  // --- A window past the last instant ------------------------------------------------

  const ENDLESS := 4_000_000

  function OverflowState(): State {
    State(0, [OneRule(ENDLESS)], [ONE_LEAD], [OneLeadOrder("A", PENDING)], [], [], [], [])
  }

  lemma OverflowStateHolds()
    ensures Inv(OverflowState()) && Shop(OverflowState(), ENDLESS)
  {
    SingleRuleCovers(OneRule(ENDLESS));
  }

  /** A paid order with an eligible lead that its payment does not fulfil: the rule's exclusion window ends after
      the last representable instant, so the payment raises and is rolled back whatever is drawn. */
  lemma PaymentMayOverflow(draws: seq<nat>)
    ensures var s := OverflowState();
      && Inv(s)
      && PaymentAccepted(s, 0, PaidSession("A"))
      && EnoughFor(s, s.purchases[0], 1)
      && Pay(s, PaidSession("A"), 1, draws) == (s, Err(DateOverflow))
  {
    var s := OverflowState();
    OverflowStateHolds();
    ShopSells(s, ENDLESS);
    ShopAccepts(s, ENDLESS, 0);
    assert DemandOf(s.purchases[0]) == Demand(None, LIFE_INSURANCE);
    assert WindowOverflows(s, 1, 0);
    NoneFits(s, 0, PaidSession("A"), 1, draws);
  }

  // --- A late payment ------------------------------------------------------------------

  const WAITING := 19
  const FAILED_ORDER := 20

  function Name(i: nat): string
    requires i <= FAILED_ORDER
  {
    [('A' as int + i) as char]
  }

  /** Nineteen orders never attempted, one attempted a cooldown ago, and one that failed. */
  function LateState(): State {
    var orders := seq(21, i requires 0 <= i < 21 =>
      OneLeadOrder(Name(i), if i == FAILED_ORDER then FAILED else PENDING));
    State(RETRY, [OneRule(0)], [ONE_LEAD], orders, [], [Audit(ReconciliationAttempted(Name(WAITING)), 0)], [], [])
  }

  function Attempts(ids: seq<nat>): seq<Step>
    requires forall k | 0 <= k < |ids| :: ids[k] <= FAILED_ORDER
  {
    seq(|ids|, k requires 0 <= k < |ids| => RecordAttempt(Name(ids[k]), 0))
  }

  /** The orders the first query returns, and the second. */
  function FirstIds(): seq<nat> {
    seq(10, k requires 0 <= k < 10 => k)
  }

  function SecondIds(): seq<nat> {
    seq(10, k requires 0 <= k < 10 => if k < 9 then 10 + k else FAILED_ORDER)
  }

  const LATE := SettlePayment(PaidSession(Name(FAILED_ORDER)), 1, [])

  /** Two uncontended sweeps; between them the failed order is paid, and nothing else happens. */
  function LateFirings(): seq<Firing> {
    [Firing(FirstIds(), Attempts(FirstIds()) + [LATE]), Firing(SecondIds(), Attempts(SecondIds()))]
  }

  /** What no step of this run changes. */
  ghost predicate Calm(t: State) {
    && t.clock == RETRY && |t.purchases| == 21
    && (forall i | 0 <= i < FAILED_ORDER :: t.purchases[i] == LateState().purchases[i])
    && t.purchases[FAILED_ORDER].publicId == Name(FAILED_ORDER) && t.purchases[FAILED_ORDER].createdAt == 0
    && t.purchases[FAILED_ORDER].emailSentAt.None?
    && forall a | 0 <= a < |t.audit| :: !t.audit[a].event.EmailBlocked?
  }

  predicate Plain(step: Step) {
    step == LATE || (step.RecordAttempt? && step.delay == 0)
  }

  lemma CalmNext(t: State, step: Step)
    requires Calm(t) && Plain(step)
    ensures Calm(Next(t, step))
  {
    if step.RecordAttempt? {
      CalmAttempt(t, step.order);
    } else {
      CalmPayment(t);
    }
  }

  lemma CalmAttempt(t: State, order: string)
    requires Calm(t)
    ensures Calm(Next(t, RecordAttempt(order, 0)))
  {
    FindOrderExact(t.purchases, order);
    if FindOrder(t.purchases, order).Some? {
      GateExact(t, FindOrder(t.purchases, order).value, 0);
    }
  }

  lemma CalmPayment(t: State)
    requires Calm(t)
    ensures Calm(Pay(t, PaidSession(Name(FAILED_ORDER)), 1, []).0)
  {
    PaymentRecorded(t, LATE.session, LATE.today, LATE.draws);
    FindOrderExact(t.purchases, Name(FAILED_ORDER));
    forall i | 0 <= i < FAILED_ORDER ensures t.purchases[i].publicId != Name(FAILED_ORDER) {
      assert t.purchases[i] == LateState().purchases[i];
    }
  }

  lemma {:induction false} CalmRun(steps: seq<Step>)
    requires forall k | 0 <= k < |steps| :: Plain(steps[k])
    ensures Calm(Run(LateState(), steps))
  {
    if steps != [] {
      var n := |steps| - 1;
      assert forall k | 0 <= k < n :: steps[..n][k] == steps[k];
      CalmRun(steps[..n]);
      CalmNext(Run(LateState(), steps[..n]), steps[n]);
    }
  }

  lemma {:induction false} NeverBlocked(audit: seq<Audit>, order: string)
    requires forall a | 0 <= a < |audit| :: !audit[a].event.EmailBlocked?
    ensures !Blocked(audit, order)
  {
    if audit != [] && !MailEvent(audit[|audit| - 1].event, order) {
      NeverBlocked(audit[..|audit| - 1], order);
    }
  }

  lemma CalmCandidate(t: State, i: nat)
    requires Calm(t) && i <= FAILED_ORDER
    ensures Candidate(t, i) <==>
      i < FAILED_ORDER || t.purchases[i].status == PENDING || t.purchases[i].status == PAID
      || t.purchases[i].status == FULFILLED
  {
    NeverBlocked(t.audit, t.purchases[i].publicId);
    assert i < FAILED_ORDER ==> t.purchases[i] == LateState().purchases[i];
  }

  lemma {:induction false} NoRevenue(ps: seq<Purchase>)
    requires forall i | 0 <= i < |ps| :: ps[i].status != FULFILLED
    ensures Revenue(ps) == 0
  {
    if ps != [] {
      NoRevenue(ps[..|ps| - 1]);
    }
  }

  lemma LateOrdersHold()
    ensures OrdersInv(LateState().purchases) && Calm(LateState()) && Revenue(LateState().purchases) == 0
  {
    var orders := LateState().purchases;
    NoRevenue(orders);
    forall i, j | 0 <= i < j < 21 ensures orders[i].publicId != orders[j].publicId {
      assert orders[i].publicId[0] != orders[j].publicId[0];
    }
  }

  lemma LateStateHolds()
    ensures Inv(LateState()) && Shop(LateState(), 0) && Calm(LateState())
  {
    LateOrdersHold();
    SingleRuleCovers(OneRule(0));
  }

  /** Attempts change nothing but the log. */
  lemma {:induction false} AttemptsOnly(s: State, ids: seq<nat>, n: nat)
    requires n <= |ids| && forall k | 0 <= k < |ids| :: ids[k] <= FAILED_ORDER
    ensures var t := Run(s, Attempts(ids)[..n]);
      t == s.(audit := t.audit)
  {
    if n > 0 {
      var steps := Attempts(ids)[..n];
      assert steps[..n - 1] == Attempts(ids)[..n - 1];
      AttemptsOnly(s, ids, n - 1);
      AttemptOnly(Run(s, steps[..n - 1]), Name(ids[n - 1]));
    }
  }

  lemma AttemptOnly(s: State, order: string)
    ensures var t := Next(s, RecordAttempt(order, 0));
      t == s.(audit := t.audit)
  {
    FindOrderExact(s.purchases, order);
    if FindOrder(s.purchases, order).Some? {
      GateExact(s, FindOrder(s.purchases, order).value, 0);
    }
  }

  /** With no exclusion window the shop's lead is sold. */
  lemma ShopFulfils(s: State, i: nat)
    requires Shop(s, 0) && i < |s.purchases| && !Terminal(s.purchases[i].status) && s.clock <= MAX_INSTANT
    requires s.purchases[i] == OneLeadOrder(s.purchases[i].publicId, s.purchases[i].status)
    ensures var t := Pay(s, PaidSession(s.purchases[i].publicId), 1, []).0;
      i < |t.purchases| && t.purchases[i].status == FULFILLED
  {
    var c := PaidSession(s.purchases[i].publicId);
    ShopSells(s, 0);
    ShopAccepts(s, 0, i);
    PaidWhenDrawnFit(s, i, c, 1, []);
    forall r | r in Query(s, 1, Some(PRICE), DemandOf(s.purchases[i])).value ensures !WindowOverflows(s, 1, r) {
    }
    FulfilledExactly(s, i, c, 1, []);
  }

  /** The state at the second query: the first ten candidates were attempted, then the failed order was paid. */
  function QueryState(): State {
    Run(LateState(), Attempts(FirstIds()) + [LATE])
  }

  lemma AttemptedFirst(ids: seq<nat>)
    requires forall k | 0 <= k < |ids| :: ids[k] <= FAILED_ORDER
    ensures var t := Run(LateState(), Attempts(ids));
      Shop(t, 0) && Calm(t) && t.purchases == LateState().purchases
  {
    LateStateHolds();
    CalmRun(Attempts(ids));
    assert Attempts(ids)[..|ids|] == Attempts(ids);
    AttemptsOnly(LateState(), ids, |ids|);
  }

  lemma PaidAfter(ids: seq<nat>)
    requires forall k | 0 <= k < |ids| :: ids[k] <= FAILED_ORDER
    ensures var q := Run(LateState(), Attempts(ids) + [LATE]);
      Calm(q) && q.purchases[FAILED_ORDER].status == FULFILLED
  {
    AttemptedFirst(ids);
    LateFulfilled(Run(LateState(), Attempts(ids)));
    CalmPayment(Run(LateState(), Attempts(ids)));
    LateStepLast(ids);
  }

  lemma LateFulfilled(t: State)
    requires Shop(t, 0) && t.clock <= MAX_INSTANT && t.purchases == LateState().purchases
    ensures var u := Pay(t, PaidSession(Name(FAILED_ORDER)), 1, []).0;
      FAILED_ORDER < |u.purchases| && u.purchases[FAILED_ORDER].status == FULFILLED
  {
    assert t.purchases[FAILED_ORDER] == OneLeadOrder(Name(FAILED_ORDER), FAILED);
    ShopFulfils(t, FAILED_ORDER);
  }

  lemma LateStepLast(ids: seq<nat>)
    requires forall k | 0 <= k < |ids| :: ids[k] <= FAILED_ORDER
    ensures Run(LateState(), Attempts(ids) + [LATE])
      == Pay(Run(LateState(), Attempts(ids)), PaidSession(Name(FAILED_ORDER)), 1, []).0
  {
    RunConcat(LateState(), Attempts(ids), [LATE]);
    RunOne(Run(LateState(), Attempts(ids)), LATE);
  }

  lemma QueryStateHolds()
    ensures Inv(QueryState()) && Calm(QueryState()) && QueryState().purchases[FAILED_ORDER].status == FULFILLED
  {
    LateStateHolds();
    RunKeeps(LateState(), Attempts(FirstIds()) + [LATE]);
    PaidAfter(FirstIds());
  }

  lemma LateLast(i: nat)
    requires i <= FAILED_ORDER
    ensures LastOf(LateState(), i) == if i == WAITING then Some(0) else None
  {
    var audit := LateState().audit;
    assert audit[..0] == [] && LateState().purchases[i].publicId == Name(i);
    assert LastAttempt([], Name(i)) == None;
    if i != WAITING {
      NamesDiffer(i, WAITING);
    }
  }

  /** An order the run does not attempt keeps its last attempt. */
  lemma Unattempted(ids: seq<nat>, i: nat)
    requires (forall k | 0 <= k < |ids| :: ids[k] <= FAILED_ORDER && ids[k] != i) && i <= FAILED_ORDER
    ensures var q := Run(LateState(), Attempts(ids) + [LATE]);
      i < |q.purchases| && LastOf(q, i) == LastOf(LateState(), i)
  {
    LateStateHolds();
    NotRecorded(ids, i);
    LastOfRun(LateState(), Attempts(ids) + [LATE], i);
  }

  lemma NeverAttempted(i: nat)
    requires 10 <= i <= FAILED_ORDER && i != WAITING
    ensures Candidate(QueryState(), i) && LastOf(QueryState(), i).None?
  {
    QueryStateHolds();
    Unattempted(FirstIds(), i);
    LateLast(i);
    CalmCandidate(QueryState(), i);
  }

  lemma NullsFirst(s: State, ids: seq<nat>)
    requires NoDup(ids) && |ids| == SWEEP_LIMIT
    requires forall k | 0 <= k < |ids| :: Candidate(s, ids[k]) && LastOf(s, ids[k]).None?
    requires forall i | 0 <= i < |s.purchases| :: s.purchases[i].createdAt == 0
    ensures Selects(s, ids)
  {
    forall i: nat, k | 0 <= k < |ids| && Candidate(s, i) ensures NotAfter(s, ids[k], i) {
    }
  }

  lemma FirstSelected()
    ensures Selects(LateState(), FirstIds())
  {
    LateStateHolds();
    var s := LateState();
    forall k | 0 <= k < |FirstIds()| ensures Candidate(s, FirstIds()[k]) && LastOf(s, FirstIds()[k]).None? {
      CalmCandidate(s, FirstIds()[k]);
      LateLast(FirstIds()[k]);
    }
    NullsFirst(s, FirstIds());
  }

  lemma CalmAges(t: State)
    requires Calm(t)
    ensures forall i | 0 <= i < 21 :: t.purchases[i].createdAt == 0 && t.purchases[i].publicId == Name(i)
  {
    forall i | 0 <= i < 21 ensures t.purchases[i].createdAt == 0 && t.purchases[i].publicId == Name(i) {
      assert i < FAILED_ORDER ==> t.purchases[i] == LateState().purchases[i];
    }
  }

  lemma SecondSelected()
    ensures Selects(QueryState(), SecondIds())
  {
    var q := QueryState();
    QueryStateHolds();
    CalmAges(q);
    forall k | 0 <= k < |SecondIds()| ensures Candidate(q, SecondIds()[k]) && LastOf(q, SecondIds()[k]).None? {
      NeverAttempted(SecondIds()[k]);
    }
    NullsFirst(q, SecondIds());
  }

  lemma AttemptsVisit(s: State, ids: seq<nat>, more: seq<Step>)
    requires |s.purchases| == 21 && forall k | 0 <= k < |ids| :: ids[k] <= FAILED_ORDER
    requires forall i | 0 <= i < 21 :: s.purchases[i].publicId == Name(i)
    ensures Visited(s, ids, Attempts(ids) + more)
  {
    forall i | i in ids ensures Records(Attempts(ids) + more, s.purchases[i].publicId) {
      var k :| 0 <= k < |ids| && ids[k] == i;
      assert (Attempts(ids) + more)[k] == RecordAttempt(Name(i), 0);
    }
  }

  lemma LateFiringsHold()
    ensures Fires(LateState(), LateFirings())
    ensures AllSteps(LateFirings()) == Attempts(FirstIds()) + [LATE] + Attempts(SecondIds())
  {
    var s, firings := LateState(), LateFirings();
    assert firings[..1] == [firings[0]] && firings[..1][..0] == [];
    assert AllSteps(firings[..1]) == firings[0].steps;
    FirstFires();
    SecondFires();
  }

  lemma FirstFires()
    ensures Fires(LateState(), [Firing(FirstIds(), Attempts(FirstIds()) + [LATE])])
  {
    assert Run(LateState(), AllSteps([])) == LateState();
    FirstSelected();
    AttemptsVisit(LateState(), FirstIds(), [LATE]);
  }

  lemma SecondFires()
    ensures Selects(QueryState(), SecondIds()) && Visited(QueryState(), SecondIds(), Attempts(SecondIds()))
  {
    SecondSelected();
    QueryStateHolds();
    CalmAges(QueryState());
    AttemptsVisit(QueryState(), SecondIds(), []);
    assert Attempts(SecondIds()) + [] == Attempts(SecondIds());
  }

  lemma LateRank()
    ensures Rank(LateState(), WAITING) == 19
  {
    var s, ahead := LateState(), seq(19, i requires 0 <= i < 19 => i as nat);
    LateStateHolds();
    forall i: nat | i < 21 ensures i in Ahead(s, WAITING) <==> i < WAITING {
      CalmCandidate(s, i);
      LateLast(i);
      LateLast(WAITING);
    }
    forall i: nat ensures i in ahead <==> i in Ahead(s, WAITING) {
      assert i < 19 ==> ahead[i] == i;
    }
    NoDupSize(ahead, Ahead(s, WAITING));
  }

  /** Without the late payments in the count the bound is false, though no order is opened: the waiting order is
      of rank 19, one failed order is paid between two uncontended sweeps, and after floor(19 / 10) + 1 sweeps
      the waiting order has been a candidate throughout and has not been attempted. */
  lemma LatePaymentDelays()
    ensures var s, firings := LateState(), LateFirings();
      && Inv(s) && Rested(s, WAITING) && Fires(s, firings)
      && (forall k | 0 <= k < |AllSteps(firings)| :: !AllSteps(firings)[k].OpenOrder?)
      && |firings| == Rank(s, WAITING) / SWEEP_LIMIT + 1
      && !AttemptedSince(Run(s, AllSteps(firings)), WAITING, s.clock)
      && !Left(s, AllSteps(firings), WAITING)
  {
    LateStateHolds();
    LateLast(WAITING);
    LateFiringsHold();
    LateRank();
    StillWaiting(AllSteps(LateFirings()));
  }

  lemma NeverLeaves(steps: seq<Step>)
    requires forall k | 0 <= k < |steps| :: Plain(steps[k])
    ensures !Left(LateState(), steps, WAITING)
  {
    forall k | 0 <= k <= |steps| ensures Candidate(Run(LateState(), steps[..k]), WAITING) {
      assert forall j | 0 <= j < k :: steps[..k][j] == steps[j];
      CalmRun(steps[..k]);
      CalmCandidate(Run(LateState(), steps[..k]), WAITING);
    }
  }

  lemma LateStepsPlain(a: seq<nat>, b: seq<nat>)
    requires forall k | 0 <= k < |a| :: a[k] <= FAILED_ORDER && a[k] != WAITING
    requires forall k | 0 <= k < |b| :: b[k] <= FAILED_ORDER && b[k] != WAITING
    ensures var steps := Attempts(a) + [LATE] + Attempts(b);
      && (forall k | 0 <= k < |steps| :: Plain(steps[k]))
      && !Records(steps, Name(WAITING))
  {
    NotRecorded(a, WAITING);
    NotRecorded(b, WAITING);
    RecordsAfter(Attempts(a) + [LATE], Attempts(b), Name(WAITING));
  }

  lemma StillWaiting(steps: seq<Step>)
    requires steps == Attempts(FirstIds()) + [LATE] + Attempts(SecondIds())
    ensures !Left(LateState(), steps, WAITING)
    ensures !AttemptedSince(Run(LateState(), steps), WAITING, RETRY)
    ensures forall k | 0 <= k < |steps| :: !steps[k].OpenOrder?
  {
    LateStepsPlain(FirstIds(), SecondIds());
    assert forall k | 0 <= k < |steps| :: Plain(steps[k]);
    NeverLeaves(steps);
    NeverRecorded(steps);
  }

  lemma NeverRecorded(steps: seq<Step>)
    requires !Records(steps, Name(WAITING))
    ensures !AttemptedSince(Run(LateState(), steps), WAITING, RETRY)
  {
    LateStateHolds();
    LateLast(WAITING);
    LastOfRun(LateState(), steps, WAITING);
  }

  lemma NamesDiffer(i: nat, j: nat)
    requires i <= FAILED_ORDER && j <= FAILED_ORDER && i != j
    ensures Name(i) != Name(j)
  {
    assert Name(i)[0] != Name(j)[0];
  }

  lemma NotRecorded(ids: seq<nat>, i: nat)
    requires (forall k | 0 <= k < |ids| :: ids[k] <= FAILED_ORDER && ids[k] != i) && i <= FAILED_ORDER
    ensures !Records(Attempts(ids), Name(i)) && !Records(Attempts(ids) + [LATE], Name(i))
  {
    forall k | 0 <= k < |ids| ensures Name(ids[k]) != Name(i) {
      NamesDiffer(ids[k], i);
    }
  }
}
