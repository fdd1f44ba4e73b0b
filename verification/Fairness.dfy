/** How soon the background sweep reaches an order, whatever else runs at the same time. */
module Fairness {
  import opened Basics
  import opened Tables
  import opened Pricing
  import opened Inventory
  import opened Fulfillment
  import opened Checkouts
  import opened Email
  import opened Reconciliation
  import opened Marketplace
  import opened Guarantees

  // --- Who may join the candidates -------------------------------------------------

  /** A payment that names a failed order. */
  predicate PaysFailed(s: State, c: Checkout) {
    Bind(s.purchases, c).Ok? && s.purchases[Bind(s.purchases, c).value].status == FAILED
  }

  /** The two ways an order can become a candidate: it is opened, or it is paid late. */
  predicate Joins(s: State, step: Step) {
    step.OpenOrder? || (step.SettlePayment? && PaysFailed(s, step.session))
  }

  function JoinCount(s: State, steps: seq<Step>): nat {
    if steps == [] then 0
    else
      var n := |steps| - 1;
      JoinCount(s, steps[..n]) + if Joins(Run(s, steps[..n]), steps[n]) then 1 else 0
  }

  /** A row whose state lets nothing but a late payment bring it back. */
  lemma StaysOut(s: State, t: State, i: nat)
    requires i < |s.purchases| <= |t.purchases| && s.clock <= t.clock
    requires OrderEvolves(s.purchases[i], t.purchases[i])
    requires t.purchases[i].status == FULFILLED ==> s.purchases[i].status != FAILED
    requires Blocked(s.audit, s.purchases[i].publicId) && !Blocked(t.audit, s.purchases[i].publicId) ==>
      t.purchases[i].status == FULFILLED && t.purchases[i].emailSentAt.Some?
    requires !Candidate(s, i)
    ensures !Candidate(t, i)
  {
  }

  /** Lifting a block stamps the order, so it does not make it a candidate. */
  lemma UnblockedIsStamped(s: State, step: Step, i: nat)
    requires Inv(s) && i < |s.purchases|
    requires Blocked(s.audit, s.purchases[i].publicId) && !Blocked(Next(s, step).audit, s.purchases[i].publicId)
    ensures i < |Next(s, step).purchases|
    ensures Next(s, step).purchases[i].status == FULFILLED && Next(s, step).purchases[i].emailSentAt.Some?
  {
    var order := s.purchases[i].publicId;
    if !Unblocks(step, order) {
      StepKeepsBlock(s, step, order);
    }
    DeliverShape(s, order, step.resend, step.reply);
    FindOrderExact(s.purchases, order);
  }

  lemma LatePaymentOnly(s: State, step: Step, i: nat)
    requires Inv(s) && i < |s.purchases| && s.purchases[i].status == FAILED
    requires i < |Next(s, step).purchases| && Next(s, step).purchases[i].status == FULFILLED
    ensures step.SettlePayment? && Bind(s.purchases, step.session) == Ok(i)
  {
    if step.SettlePayment? {
      PayEffect(s, step.session, step.today, step.draws);
    } else {
      StatusUnsettled(s, step, i);
    }
  }

  function Newcomers(s: State, t: State): set<nat> {
    set i: nat | i < |t.purchases| && Candidate(t, i) && !Candidate(s, i)
  }

  /** Only an opened order and a late payment make a candidate, and each makes one. */
  lemma NewcomerJoined(s: State, step: Step, i: nat)
    requires Inv(s) && i in Newcomers(s, Next(s, step))
    ensures Joins(s, step)
    ensures i == if step.OpenOrder? then |s.purchases| else Bind(s.purchases, step.session).value
  {
    var t := Next(s, step);
    StepKeeps(s, step);
    if i < |s.purchases| {
      assert OrderEvolves(s.purchases[i], t.purchases[i]);
      if Blocked(s.audit, s.purchases[i].publicId) && !Blocked(t.audit, s.purchases[i].publicId) {
        UnblockedIsStamped(s, step, i);
      }
      if t.purchases[i].status == FULFILLED && s.purchases[i].status == FAILED {
        LatePaymentOnly(s, step, i);
      } else {
        StaysOut(s, t, i);
      }
    } else {
      OnlyOpenAdds(s, step);
    }
  }

  lemma OnlyOpenAdds(s: State, step: Step)
    requires |Next(s, step).purchases| > |s.purchases|
    ensures step.OpenOrder? && |Next(s, step).purchases| == |s.purchases| + 1
  {
    match step
    case OpenOrder(request, today, ids) => OpenExact(s, request, today, ids);
    case LinkCheckout(order, checkoutId) => SecondTransaction(s, order, checkoutId);
    case AbandonOrder(order) => SecondTransaction(s, order, "");
    case _ => OthersAddNone(s, step);
  }

  lemma OthersAddNone(s: State, step: Step)
    requires !step.OpenOrder? && !step.LinkCheckout? && !step.AbandonOrder?
    ensures |Next(s, step).purchases| == |s.purchases|
  {
    match step
    case SettlePayment(session, today, draws) => PaymentRecorded(s, session, today, draws);
    case FailPayment(session) => PaymentFailedExactly(s, session);
    case DeliverMail(order, resend, reply) => ProviderCalledExactly(s, order, resend, reply);
    case RecordAttempt(order, delay) => FindOrderExact(s.purchases, order);
    case _ =>
  }

  /** The orders that became candidates at some step of a run. */
  ghost function Joined(s: State, steps: seq<Step>): set<nat> {
    if steps == [] then {}
    else
      var n := |steps| - 1;
      Joined(s, steps[..n]) + Newcomers(Run(s, steps[..n]), Run(s, steps))
  }

  lemma {:induction false} JoinedBound(s: State, steps: seq<Step>)
    requires Inv(s)
    ensures |Joined(s, steps)| <= JoinCount(s, steps)
  {
    if steps != [] {
      var n := |steps| - 1;
      JoinedBound(s, steps[..n]);
      RunKeeps(s, steps[..n]);
      var before := Run(s, steps[..n]);
      var newcomers := Newcomers(before, Run(s, steps));
      var who := if steps[n].OpenOrder? then |before.purchases|
        else if steps[n].SettlePayment? && Bind(before.purchases, steps[n].session).Ok? then
          Bind(before.purchases, steps[n].session).value
        else 0;
      forall i | i in newcomers ensures i == who && Joins(before, steps[n]) {
        NewcomerJoined(before, steps[n], i);
      }
      UnionSize(Joined(s, steps[..n]), newcomers);
      SubsetSize(newcomers, if Joins(before, steps[n]) then {who} else {});
    }
  }

  lemma JoinedGrows(s: State, steps: seq<Step>, i: nat)
    requires steps != []
    ensures i in Joined(s, steps[..|steps| - 1]) ==> i in Joined(s, steps)
    ensures Candidate(Run(s, steps), i) && !Candidate(Run(s, steps[..|steps| - 1]), i) ==> i in Joined(s, steps)
  {
  }

  lemma {:induction false} JoinedMonotone(s: State, steps: seq<Step>, k: nat)
    requires k <= |steps|
    ensures Joined(s, steps[..k]) <= Joined(s, steps)
  {
    if k == |steps| {
      assert steps[..k] == steps;
    } else {
      var front := steps[..|steps| - 1];
      assert front[..k] == steps[..k];
      JoinedMonotone(s, front, k);
    }
  }

  lemma {:induction false} Rise(flags: seq<bool>, k: nat) returns (m: nat)
    requires k < |flags| && !flags[k] && flags[|flags| - 1]
    ensures k <= m < |flags| - 1 && !flags[m] && flags[m + 1]
    decreases |flags| - k
  {
    if flags[k + 1] {
      m := k;
    } else {
      m := Rise(flags, k + 1);
    }
  }

  /** Whether the order is a candidate after each prefix of the run. */
  function Flags(s: State, steps: seq<Step>, i: nat): (flags: seq<bool>)
    ensures |flags| == |steps| + 1 && flags[|steps|] == Candidate(Run(s, steps), i)
  {
    assert steps[..|steps|] == steps;
    seq(|steps| + 1, n requires 0 <= n <= |steps| => Candidate(Run(s, steps[..n]), i))
  }

  lemma JoinedAt(s: State, steps: seq<Step>, m: nat, i: nat)
    requires m < |steps| && !Candidate(Run(s, steps[..m]), i) && Candidate(Run(s, steps[..m + 1]), i)
    ensures i in Joined(s, steps)
  {
    assert steps[..m + 1][..m] == steps[..m];
    JoinedGrows(s, steps[..m + 1], i);
    JoinedMonotone(s, steps, m + 1);
  }

  /** A candidate that was none at some earlier point of the run joined. */
  lemma CandidateJoined(s: State, steps: seq<Step>, k: nat, i: nat)
    requires k <= |steps| && !Candidate(Run(s, steps[..k]), i) && Candidate(Run(s, steps), i)
    ensures i in Joined(s, steps)
  {
    var m := Rise(Flags(s, steps, i), k);
    JoinedAt(s, steps, m, i);
  }

  /** At some point of the run the order was not a candidate. */
  ghost predicate Left(s: State, steps: seq<Step>, i: nat) {
    exists k | 0 <= k <= |steps| :: !Candidate(Run(s, steps[..k]), i)
  }

  lemma {:induction false} NotLeftNotJoined(s: State, steps: seq<Step>, i: nat)
    requires !Left(s, steps, i)
    ensures i !in Joined(s, steps)
  {
    if steps != [] {
      var n := |steps| - 1;
      assert Candidate(Run(s, steps[..n]), i);
      assert !Left(s, steps[..n], i) by {
        forall k | 0 <= k <= n ensures Candidate(Run(s, steps[..n][..k]), i) {
          assert steps[..n][..k] == steps[..k];
        }
      }
      NotLeftNotJoined(s, steps[..n], i);
    }
  }

  // --- Attempts along a run ----------------------------------------------------------

  /** Entries added since `audit` record attempts only of the orders of the run's own attempts, stamped later. */
  ghost predicate AttemptsFrom(audit: seq<Audit>, after: seq<Audit>, since: int, steps: seq<Step>) {
    && audit <= after
    && forall a | |audit| <= a < |after| && after[a].event.ReconciliationAttempted? ::
         after[a].at >= since && Records(steps, after[a].event.order)
  }

  predicate Records(steps: seq<Step>, order: string) {
    exists j | 0 <= j < |steps| :: steps[j].RecordAttempt? && steps[j].order == order
  }

  lemma StepAttempts(s: State, step: Step)
    requires Inv(s)
    ensures AttemptsFrom(s.audit, Next(s, step).audit, s.clock, [step])
  {
    if step.SettlePayment? {
      PaymentSendsNoAttempt(s, step);
    } else if step.CreateRule? || step.EditRule? || step.ReplaceRules? {
      EditAttempts(s, step);
    } else if step.DeliverMail? {
      DeliveryAttempts(s, step);
    } else if step.RecordAttempt? {
      EnterAttempts(s, step);
    }
  }

  lemma EnterAttempts(s: State, step: Step)
    requires step.RecordAttempt?
    ensures AttemptsFrom(s.audit, Next(s, step).audit, s.clock, [step])
  {
    assert [step][0].RecordAttempt? && [step][0].order == step.order;
    assert Records([step], step.order);
    FindOrderExact(s.purchases, step.order);
    if FindOrder(s.purchases, step.order).Some? {
      GateExact(s, FindOrder(s.purchases, step.order).value, step.delay);
    }
  }

  lemma PaymentSendsNoAttempt(s: State, step: Step)
    requires Inv(s) && step.SettlePayment?
    ensures AttemptsFrom(s.audit, Next(s, step).audit, s.clock, [step])
  {
    PaymentRecorded(s, step.session, step.today, step.draws);
  }

  lemma DeliveryAttempts(s: State, step: Step)
    requires step.DeliverMail?
    ensures AttemptsFrom(s.audit, Next(s, step).audit, s.clock, [step])
  {
    if Deliver(s, step.order, step.resend, step.reply).0 != s {
      DeliverShape(s, step.order, step.resend, step.reply);
    }
  }

  lemma EditAttempts(s: State, step: Step)
    requires step.CreateRule? || step.EditRule? || step.ReplaceRules?
    ensures AttemptsFrom(s.audit, Next(s, step).audit, s.clock, [step])
  {
    if step.ReplaceRules? && UpdateBatch(s.rules, step.items).Ok? {
      RulesGrow(s, step.items);
    }
  }

  lemma {:induction false} RunAttempts(s: State, steps: seq<Step>)
    requires Inv(s)
    ensures AttemptsFrom(s.audit, Run(s, steps).audit, s.clock, steps)
  {
    if steps != [] {
      var n := |steps| - 1;
      RunAttempts(s, steps[..n]);
      RunKeeps(s, steps[..n]);
      var before := Run(s, steps[..n]);
      StepAttempts(before, steps[n]);
      AttemptsChain(s.audit, before.audit, Run(s, steps).audit, s.clock, before.clock, steps);
    }
  }

  lemma AttemptsChain(a: seq<Audit>, b: seq<Audit>, c: seq<Audit>, since: int, later: int, steps: seq<Step>)
    requires steps != [] && since <= later
    requires AttemptsFrom(a, b, since, steps[..|steps| - 1]) && AttemptsFrom(b, c, later, [steps[|steps| - 1]])
    ensures AttemptsFrom(a, c, since, steps)
  {
    var n := |steps| - 1;
    forall k | |a| <= k < |c| && c[k].event.ReconciliationAttempted?
      ensures c[k].at >= since && Records(steps, c[k].event.order)
    {
      if k < |b| {
        assert c[k] == b[k];
        var j :| 0 <= j < n && steps[..n][j].RecordAttempt? && steps[..n][j].order == c[k].event.order;
        assert steps[j].RecordAttempt?;
      } else {
        var j :| 0 <= j < 1 && [steps[n]][j].RecordAttempt? && [steps[n]][j].order == c[k].event.order;
        assert steps[n].RecordAttempt?;
      }
    }
  }

  /** An order's last attempt stays, or a run from `s` made a newer one. */
  lemma LastOfRun(s: State, steps: seq<Step>, i: nat)
    requires Inv(s) && i < |s.purchases|
    ensures var u := Run(s, steps);
      && i < |u.purchases| && u.purchases[i].publicId == s.purchases[i].publicId
      && u.purchases[i].createdAt == s.purchases[i].createdAt
      && (LastOf(u, i) == LastOf(s, i) || AttemptedSince(u, i, s.clock))
      && (!Records(steps, s.purchases[i].publicId) ==> LastOf(u, i) == LastOf(s, i))
  {
    RunEvolves(s, steps);
    RunAttempts(s, steps);
    LastOfLater(s, Run(s, steps), steps, i);
  }

  lemma LastOfLater(s: State, u: State, steps: seq<Step>, i: nat)
    requires Evolves(s, u) && i < |s.purchases| && AttemptsFrom(s.audit, u.audit, s.clock, steps)
    ensures u.purchases[i].publicId == s.purchases[i].publicId
    ensures u.purchases[i].createdAt == s.purchases[i].createdAt
    ensures LastOf(u, i) == LastOf(s, i) || AttemptedSince(u, i, s.clock)
    ensures !Records(steps, s.purchases[i].publicId) ==> LastOf(u, i) == LastOf(s, i)
  {
    assert OrderEvolves(s.purchases[i], u.purchases[i]);
    LastAttemptAppend(s.audit, u.audit, s.purchases[i].publicId, s.clock);
  }

  lemma RunEvolves(s: State, steps: seq<Step>)
    requires Inv(s)
    ensures Evolves(s, Run(s, steps))
  {
    RunKeeps(s, steps);
  }

  // --- A visit ------------------------------------------------------------------------

  ghost predicate Rested(s: State, i: nat)
    requires i < |s.purchases|
  {
    LastOf(s, i).Some? ==> s.clock - LastOf(s, i).value >= RETRY
  }

  /** Entering the refresh of an order that had rested at `s`: unless it has stopped being a candidate, the
      order has been attempted since, by this visit or by whoever made the gate cool. */
  lemma VisitAttempts(s: State, x: State, i: nat, delay: nat)
    requires Inv(x) && i < |s.purchases| && i < |x.purchases| && s.clock <= x.clock && Rested(s, i)
    requires LastOf(x, i) == LastOf(s, i) || AttemptedSince(x, i, s.clock)
    requires Candidate(x, i)
    ensures AttemptedSince(Next(x, RecordAttempt(x.purchases[i].publicId, delay)), i, s.clock)
  {
    var order := x.purchases[i].publicId;
    FindOrderExact(x.purchases, order);
    assert FindOrder(x.purchases, order) == Some(i);
    var (y, gate) := Enter(x, i, delay);
    GateExact(x, i, delay);
    LastAttemptIsMax(x.audit, order);
    if gate.Ok? && gate.value.Attempt? {
      LastAttemptIsMax(y.audit, order);
      assert IsAttempt(y.audit[|x.audit|], order);
    }
  }

  /** A run that enters the refresh of every selected order, at any points and in any order. */
  ghost predicate Visited(s: State, ids: seq<nat>, steps: seq<Step>) {
    forall i | i in ids && i < |s.purchases| :: Records(steps, s.purchases[i].publicId)
  }

  lemma AttemptStays(s: State, steps: seq<Step>, k: nat, i: nat)
    requires Inv(s) && k <= |steps| && i < |s.purchases| && AttemptedSince(Run(s, steps[..k]), i, s.clock)
    ensures AttemptedSince(Run(s, steps), i, s.clock)
  {
    RunKeeps(s, steps[..k]);
    assert steps == steps[..k] + steps[k..];
    RunConcat(s, steps[..k], steps[k..]);
    AttemptStaysAfter(Run(s, steps[..k]), steps[k..], i, s.clock);
  }

  lemma AttemptStaysAfter(t: State, steps: seq<Step>, i: nat, since: int)
    requires Inv(t) && since <= t.clock && AttemptedSince(t, i, since)
    ensures AttemptedSince(Run(t, steps), i, since)
  {
    LastOfRun(t, steps, i);
  }

  lemma VisitedAttempted(s: State, steps: seq<Step>, i: nat)
    requires Inv(s) && i < |s.purchases| && Rested(s, i)
    requires Records(steps, s.purchases[i].publicId) && Candidate(Run(s, steps), i)
    ensures AttemptedSince(Run(s, steps), i, s.clock) || i in Joined(s, steps)
  {
    var j :| 0 <= j < |steps| && steps[j].RecordAttempt? && steps[j].order == s.purchases[i].publicId;
    if Candidate(Run(s, steps[..j]), i) {
      AttemptedAt(s, steps, i, j);
      AttemptStays(s, steps, j + 1, i);
    } else {
      CandidateJoined(s, steps, j, i);
    }
  }

  lemma AttemptedAt(s: State, steps: seq<Step>, i: nat, j: nat)
    requires Inv(s) && i < |s.purchases| && Rested(s, i)
    requires j < |steps| && steps[j].RecordAttempt? && steps[j].order == s.purchases[i].publicId
    requires Candidate(Run(s, steps[..j]), i)
    ensures AttemptedSince(Run(s, steps[..j + 1]), i, s.clock)
  {
    RunKeeps(s, steps[..j]);
    LastOfRun(s, steps[..j], i);
    assert steps[..j + 1][..j] == steps[..j];
    VisitAttempts(s, Run(s, steps[..j]), i, steps[j].delay);
  }

  // --- Fairness -------------------------------------------------------------------------

  /** One firing of the sweep: what its query returned, and every transaction of any request, webhook, sync or
      sweep that ran from that query to the next, the sweep's own among them. */
  datatype Firing = Firing(ids: seq<nat>, steps: seq<Step>)

  function AllSteps(firings: seq<Firing>): seq<Step> {
    if firings == [] then []
    else AllSteps(firings[..|firings| - 1]) + firings[|firings| - 1].steps
  }

  /** Each query selects from the state it meets, and each order it selects is visited before the next. */
  ghost predicate Fires(s: State, firings: seq<Firing>) {
    firings == [] ||
    var n := |firings| - 1;
    var q := Run(s, AllSteps(firings[..n]));
    Fires(s, firings[..n]) && Selects(q, firings[n].ids) && Visited(q, firings[n].ids, firings[n].steps)
  }

  lemma RowsOfRun(s: State, steps: seq<Step>)
    requires Inv(s)
    ensures var t := Run(s, steps);
      && s.clock <= t.clock && |s.purchases| <= |t.purchases|
      && (forall i | 0 <= i < |s.purchases| :: t.purchases[i].createdAt == s.purchases[i].createdAt)
      && (forall i: nat | i < |s.purchases| :: LastOf(t, i) == LastOf(s, i) || AttemptedSince(t, i, s.clock))
  {
    var t := Run(s, steps);
    RunKeeps(s, steps);
    forall i | 0 <= i < |s.purchases|
      ensures t.purchases[i].createdAt == s.purchases[i].createdAt
      ensures LastOf(t, i) == LastOf(s, i) || AttemptedSince(t, i, s.clock)
    {
      LastOfRun(s, steps, i);
    }
  }

  /** A firing is a round for every order that has rested. */
  lemma FiringIsRound(s: State, ids: seq<nat>, steps: seq<Step>, o: nat)
    requires Inv(s) && Selects(s, ids) && Visited(s, ids, steps)
    requires o < |s.purchases| && Rested(s, o)
    ensures Round(s, ids, Run(s, steps), o, Joined(s, steps))
  {
    var t := Run(s, steps);
    RowsOfRun(s, steps);
    forall i: nat | Candidate(t, i) ensures Candidate(s, i) || i in Joined(s, steps) {
      if !Candidate(s, i) {
        assert steps[..0] == [];
        CandidateJoined(s, steps, 0, i);
      }
    }
    forall i | i in ids && i < |s.purchases| && NotAfter(s, i, o) && Candidate(t, i)
      ensures AttemptedSince(t, i, s.clock) || i in Joined(s, steps)
    {
      VisitedAttempted(s, steps, i);
    }
  }

  lemma {:induction false} JoinCountConcat(s: State, a: seq<Step>, b: seq<Step>)
    ensures JoinCount(s, a + b) == JoinCount(s, a) + JoinCount(Run(s, a), b)
  {
    if b == [] {
      assert a + b == a;
    } else {
      var n := |b| - 1;
      assert (a + b)[..|a| + n] == a + b[..n];
      JoinCountConcat(s, a, b[..n]);
      RunConcat(s, a, b[..n]);
      var before := Run(s, a + b[..n]);
      assert JoinCount(s, a + b) == JoinCount(s, a + b[..n]) + if Joins(before, b[n]) then 1 else 0;
    }
  }

  lemma NotLeftSplit(s: State, a: seq<Step>, b: seq<Step>, i: nat)
    requires !Left(s, a + b, i)
    ensures !Left(s, a, i) && !Left(Run(s, a), b, i) && Candidate(Run(s, a + b), i)
  {
    forall k | 0 <= k <= |a| ensures Candidate(Run(s, a[..k]), i) {
      assert (a + b)[..k] == a[..k];
    }
    forall k | 0 <= k <= |b| ensures Candidate(Run(Run(s, a), b[..k]), i) {
      assert (a + b)[..|a| + k] == a + b[..k];
      RunConcat(s, a, b[..k]);
    }
    assert (a + b)[..|a + b|] == a + b;
  }

  /** A waiting candidate gains ten places with each firing, and loses one with each order that joins. */
  lemma {:induction false} FiringsAdvance(s: State, firings: seq<Firing>, o: nat)
    requires Inv(s) && Fires(s, firings) && o < |s.purchases| && Rested(s, o)
    requires !Left(s, AllSteps(firings), o) && !AttemptedSince(Run(s, AllSteps(firings)), o, s.clock)
    ensures var u := Run(s, AllSteps(firings));
      && o < |u.purchases|
      && Rank(u, o) + SWEEP_LIMIT * |firings| <= Rank(s, o) + JoinCount(s, AllSteps(firings))
  {
    if firings != [] {
      var n := |firings| - 1;
      var front, last := firings[..n], firings[n].steps;
      var q, u := Run(s, AllSteps(front)), Run(s, AllSteps(firings));
      RunConcat(s, AllSteps(front), last);
      NotLeftSplit(s, AllSteps(front), last, o);
      RunKeeps(s, AllSteps(front));
      LastOfRun(s, AllSteps(front), o);
      LastOfRun(q, last, o);
      FiringsAdvance(s, front, o);
      FiringIsRound(q, firings[n].ids, last, o);
      NotLeftNotJoined(q, last, o);
      RoundAdvances(q, firings[n].ids, u, o, Joined(q, last));
      JoinedBound(q, last);
      JoinCountConcat(s, AllSteps(front), last);
    }
  }

  /** Whatever runs at the same time: an order whose cooldown is over and that has r candidates not after it is
      attempted, or stops being a candidate, within floor((r + j) / 10) + 1 firings, where j counts the orders
      opened and the failed orders paid meanwhile. Stripe and mail may fail for every other order. */
  lemma {:induction false} SweepsReachEveryOrder(s: State, firings: seq<Firing>, o: nat)
    requires Inv(s) && Fires(s, firings) && o < |s.purchases| && Rested(s, o)
    requires |firings| >= (Rank(s, o) + JoinCount(s, AllSteps(firings))) / 10 + 1
    ensures AttemptedSince(Run(s, AllSteps(firings)), o, s.clock) || Left(s, AllSteps(firings), o)
  {
    if !Left(s, AllSteps(firings), o) && !AttemptedSince(Run(s, AllSteps(firings)), o, s.clock) {
      FiringsAdvance(s, firings, o);
    }
  }

  ghost predicate NoJoins(s: State, steps: seq<Step>) {
    forall k | 0 <= k < |steps| :: !Joins(Run(s, steps[..k]), steps[k])
  }

  lemma {:induction false} NoJoinsCount(s: State, steps: seq<Step>)
    requires NoJoins(s, steps)
    ensures JoinCount(s, steps) == 0
  {
    if steps != [] {
      var n := |steps| - 1;
      forall k | 0 <= k < n ensures !Joins(Run(s, steps[..n][..k]), steps[..n][k]) {
        assert steps[..n][..k] == steps[..k];
      }
      NoJoinsCount(s, steps[..n]);
    }
  }

  /** While no order is opened and no failed order is paid, floor(r / 10) + 1 firings are enough. */
  lemma {:induction false} SweepsReachWithoutJoins(s: State, firings: seq<Firing>, o: nat)
    requires Inv(s) && Fires(s, firings) && o < |s.purchases| && Rested(s, o)
    requires NoJoins(s, AllSteps(firings)) && |firings| == Rank(s, o) / 10 + 1
    ensures AttemptedSince(Run(s, AllSteps(firings)), o, s.clock) || Left(s, AllSteps(firings), o)
  {
    NoJoinsCount(s, AllSteps(firings));
    SweepsReachEveryOrder(s, firings, o);
  }

  // --- The sweep's own transactions -----------------------------------------------------

  /** One refresh of a sweep: what other requests committed before it, and what it met. */
  datatype Visit = Visit(others: seq<Step>, m: Meets)

  predicate NoneBusy(visits: seq<Visit>) {
    forall k | 0 <= k < |visits| :: !visits[k].m.busy
  }

  /** The sweep's loop with other transactions between its refreshes. */
  function SweepAmong(s: State, orders: seq<string>, visits: seq<Visit>): State
    requires |visits| == |orders|
  {
    if orders == [] then s
    else
      var n := |orders| - 1;
      var before := Run(SweepAmong(s, orders[..n], visits[..n]), visits[n].others);
      Refresh(Wait(before, visits[n].m.wait), orders[n], visits[n].m).0
  }

  /** A refresh whose gate is closed has still entered it. */
  function EnteredSteps(s: State, order: string, m: Meets): seq<Step> {
    var steps := RefreshSteps(s, order, m);
    if steps == [] then [RecordAttempt(order, m.delay)] else steps
  }

  function SweepSteps(s: State, orders: seq<string>, visits: seq<Visit>): seq<Step>
    requires |visits| == |orders|
  {
    if orders == [] then []
    else
      var n := |orders| - 1;
      var earlier := SweepAmong(s, orders[..n], visits[..n]);
      SweepSteps(s, orders[..n], visits[..n]) + VisitSteps(earlier, orders[n], visits[n])
  }

  function VisitSteps(s: State, order: string, v: Visit): seq<Step> {
    v.others + ([Tick(v.m.wait)] + EnteredSteps(Wait(Run(s, v.others), v.m.wait), order, v.m))
  }

  lemma EnteredIsRun(s: State, order: string, m: Meets)
    requires !m.busy
    ensures Run(s, EnteredSteps(s, order, m)) == Refresh(s, order, m).0
    ensures Records(EnteredSteps(s, order, m), order)
  {
    RefreshIsRun(s, order, m);
    RunOne(s, RecordAttempt(order, m.delay));
    FindOrderExact(s.purchases, order);
    assert EnteredSteps(s, order, m)[0] == RecordAttempt(order, m.delay);
  }

  lemma VisitIsRun(s: State, order: string, v: Visit)
    requires !v.m.busy
    ensures Run(s, VisitSteps(s, order, v)) == Refresh(Wait(Run(s, v.others), v.m.wait), order, v.m).0
    ensures Records(VisitSteps(s, order, v), order)
  {
    var before := Run(s, v.others);
    var entered := EnteredSteps(Wait(before, v.m.wait), order, v.m);
    EnteredIsRun(Wait(before, v.m.wait), order, v.m);
    AfterOthers(s, v.others, v.m.wait, entered);
    RecordsAfter([Tick(v.m.wait)], entered, order);
    RecordsAfter(v.others, [Tick(v.m.wait)] + entered, order);
  }

  lemma AfterOthers(s: State, others: seq<Step>, wait: nat, steps: seq<Step>)
    ensures Run(s, others + ([Tick(wait)] + steps)) == Run(Wait(Run(s, others), wait), steps)
  {
    var before := Run(s, others);
    RunOne(before, Tick(wait));
    RunConcat(before, [Tick(wait)], steps);
    RunConcat(s, others, [Tick(wait)] + steps);
  }

  lemma RecordsAfter(a: seq<Step>, b: seq<Step>, order: string)
    ensures Records(a + b, order) <==> Records(a, order) || Records(b, order)
  {
    if Records(a, order) {
      var j :| 0 <= j < |a| && a[j].RecordAttempt? && a[j].order == order;
      assert (a + b)[j] == a[j];
    }
    if Records(b, order) {
      var j :| 0 <= j < |b| && b[j].RecordAttempt? && b[j].order == order;
      assert (a + b)[|a| + j] == b[j];
    }
  }

  /** A sweep with free locks, whatever commits between its refreshes, is a run of transactions. */
  lemma {:induction false} SweepIsRun(s: State, orders: seq<string>, visits: seq<Visit>)
    requires |visits| == |orders| && NoneBusy(visits)
    ensures SweepAmong(s, orders, visits) == Run(s, SweepSteps(s, orders, visits))
  {
    if orders != [] {
      var n := |orders| - 1;
      SweepIsRun(s, orders[..n], visits[..n]);
      var before := SweepAmong(s, orders[..n], visits[..n]);
      VisitIsRun(before, orders[n], visits[n]);
      RunConcat(s, SweepSteps(s, orders[..n], visits[..n]), VisitSteps(before, orders[n], visits[n]));
    }
  }

  lemma LastEntered(s: State, orders: seq<string>, visits: seq<Visit>)
    requires |visits| == |orders| > 0 && NoneBusy(visits)
    ensures var n := |orders| - 1;
      forall order :: Records(SweepSteps(s, orders[..n], visits[..n]), order) || order == orders[n] ==>
        Records(SweepSteps(s, orders, visits), order)
  {
    var n := |orders| - 1;
    var earlier, before := SweepSteps(s, orders[..n], visits[..n]), SweepAmong(s, orders[..n], visits[..n]);
    VisitIsRun(before, orders[n], visits[n]);
    forall order | Records(earlier, order) || order == orders[n]
      ensures Records(SweepSteps(s, orders, visits), order)
    {
      RecordsAfter(earlier, VisitSteps(before, orders[n], visits[n]), order);
    }
  }

  /** It enters the refresh of every order it selected. */
  lemma {:induction false} SweepEnters(s: State, orders: seq<string>, visits: seq<Visit>, k: nat)
    requires |visits| == |orders| && NoneBusy(visits) && k < |orders|
    ensures Records(SweepSteps(s, orders, visits), orders[k])
  {
    LastEntered(s, orders, visits);
    if k < |orders| - 1 {
      SweepEnters(s, orders[..|orders| - 1], visits[..|orders| - 1], k);
    }
  }

  /** With nothing in between it is the loop that `RecoverPending` runs. */
  lemma {:induction false} SweepAlone(s: State, orders: seq<string>, visits: seq<Visit>)
    requires |visits| == |orders| && forall k | 0 <= k < |visits| :: visits[k].others == []
    ensures SweepAmong(s, orders, visits)
      == Sweep(s, orders, seq(|visits|, k requires 0 <= k < |visits| => visits[k].m))
  {
    if orders != [] {
      var n := |orders| - 1;
      SweepAlone(s, orders[..n], visits[..n]);
      assert seq(|visits|, k requires 0 <= k < |visits| => visits[k].m)[..n]
        == seq(n, k requires 0 <= k < n => visits[..n][k].m);
    }
  }

  /** A sweep among any other transactions is a round: every order it selected ahead of a rested one is
      attempted, stops being a candidate, or joined, however Stripe and the mail provider answer. */
  lemma {:induction false} SweepIsRound(s: State, ids: seq<nat>, visits: seq<Visit>, o: nat)
    requires Inv(s) && Selects(s, ids) && |visits| == |ids| && NoneBusy(visits)
    requires o < |s.purchases| && Rested(s, o)
    ensures forall k | 0 <= k < |ids| :: ids[k] < |s.purchases|
    ensures var orders := PublicIds(s, ids);
      Round(s, ids, SweepAmong(s, orders, visits), o, Joined(s, SweepSteps(s, orders, visits)))
  {
    assert forall k | 0 <= k < |ids| :: Candidate(s, ids[k]);
    SweepVisits(s, ids, visits);
    FiringIsRound(s, ids, SweepSteps(s, PublicIds(s, ids), visits), o);
  }

  lemma SweepVisits(s: State, ids: seq<nat>, visits: seq<Visit>)
    requires |visits| == |ids| && NoneBusy(visits) && forall k | 0 <= k < |ids| :: ids[k] < |s.purchases|
    ensures var steps := SweepSteps(s, PublicIds(s, ids), visits);
      Visited(s, ids, steps) && SweepAmong(s, PublicIds(s, ids), visits) == Run(s, steps)
  {
    var orders := PublicIds(s, ids);
    SweepIsRun(s, orders, visits);
    forall i | i in ids ensures Records(SweepSteps(s, orders, visits), s.purchases[i].publicId) {
      var k :| 0 <= k < |ids| && ids[k] == i;
      SweepEnters(s, orders, visits, k);
    }
  }

  // --- Retrievals ---------------------------------------------------------------------------

  /** How often these refreshes, among any other transactions, ask Stripe about one order from attempts
      stamped within the window. */
  function RetrievalsWithin(s: State, orders: seq<string>, visits: seq<Visit>, order: string, from: int, to: int): nat
    requires |visits| == |orders|
  {
    if orders == [] then 0
    else
      var n := |orders| - 1;
      var w := Wait(Run(SweepAmong(s, orders[..n], visits[..n]), visits[n].others), visits[n].m.wait);
      RetrievalsWithin(s, orders[..n], visits[..n], order, from, to)
      + if orders[n] == order && Retrieves(w, order, visits[n].m) && from <= w.clock + visits[n].m.delay <= to then 1
        else 0
  }

  lemma {:induction false} AttemptsGrow(audit: seq<Audit>, after: seq<Audit>, order: string, from: int, to: int)
    requires audit <= after
    ensures AttemptsWithin(audit, order, from, to) <= AttemptsWithin(after, order, from, to)
    decreases |after|
  {
    assert |after| == |audit| ==> after == audit;
    if |after| > |audit| {
      AttemptsGrow(audit, after[..|after| - 1], order, from, to);
    }
  }

  lemma OneMoreAttempt(audit: seq<Audit>, after: seq<Audit>, order: string, from: int, to: int)
    requires audit <= after && |after| > |audit|
    requires IsAttempt(after[|audit|], order) && from <= after[|audit|].at <= to
    ensures AttemptsWithin(audit, order, from, to) + 1 <= AttemptsWithin(after, order, from, to)
  {
    var more := audit + [after[|audit|]];
    assert more[..|audit|] == audit;
    AttemptsGrow(more, after, order, from, to);
  }

  /** One refresh asks at most once, from an attempt of its own. */
  lemma RefreshAsksOnce(w: State, asked: string, m: Meets, order: string, from: int, to: int)
    requires Inv(w)
    ensures var u := Refresh(w, asked, m).0;
      && Inv(u)
      && AttemptsWithin(w.audit, order, from, to)
           + (if asked == order && Retrieves(w, order, m) && from <= w.clock + m.delay <= to then 1 else 0)
         <= AttemptsWithin(u.audit, order, from, to)
  {
    var u := Refresh(w, asked, m).0;
    RefreshIsRun(w, asked, m);
    RunKeeps(w, RefreshSteps(w, asked, m));
    AttemptsGrow(w.audit, u.audit, order, from, to);
    if asked == order && Retrieves(w, order, m) && from <= w.clock + m.delay <= to {
      RefreshTouches(w, order, m, FindOrder(w.purchases, order).value);
      OneMoreAttempt(w.audit, u.audit, order, from, to);
    }
  }

  lemma {:induction false} RetrievalsAreAttempts(
    s: State, orders: seq<string>, visits: seq<Visit>, order: string, from: int, to: int)
    requires Inv(s) && |visits| == |orders|
    ensures var u := SweepAmong(s, orders, visits);
      && Inv(u)
      && RetrievalsWithin(s, orders, visits, order, from, to) <= AttemptsWithin(u.audit, order, from, to)
  {
    if orders != [] {
      var n := |orders| - 1;
      RetrievalsAreAttempts(s, orders[..n], visits[..n], order, from, to);
      VisitAsksOnce(SweepAmong(s, orders[..n], visits[..n]), orders[n], visits[n], order, from, to);
    }
  }

  lemma VisitAsksOnce(s: State, asked: string, v: Visit, order: string, from: int, to: int)
    requires Inv(s)
    ensures var w := Wait(Run(s, v.others), v.m.wait);
      var u := Refresh(w, asked, v.m).0;
      && Inv(u)
      && AttemptsWithin(s.audit, order, from, to)
           + (if asked == order && Retrieves(w, order, v.m) && from <= w.clock + v.m.delay <= to then 1 else 0)
         <= AttemptsWithin(u.audit, order, from, to)
  {
    var before := Run(s, v.others);
    RunKeeps(s, v.others);
    TickStep(before, v.m.wait);
    AttemptsGrow(s.audit, before.audit, order, from, to);
    RefreshAsksOnce(Wait(before, v.m.wait), asked, v.m, order, from, to);
  }

  /** Whoever refreshes and whatever else runs, Stripe is asked about one order at most floor(T / 15 s) + 1 times
      from the attempts of a window of length T. */
  lemma {:induction false} RetrievalsBounded(
    s: State, orders: seq<string>, visits: seq<Visit>, order: string, from: int, to: int)
    requires Inv(s) && |visits| == |orders| && from <= to
    ensures RetrievalsWithin(s, orders, visits, order, from, to) <= (to - from) / 15_000_000 + 1
  {
    RetrievalsAreAttempts(s, orders, visits, order, from, to);
    CooldownBound(SweepAmong(s, orders, visits).audit, order, from, to);
  }

  // --- Recovery ---------------------------------------------------------------------------

  /** If this refresh gets to ask about order `o`, Stripe reports a paid session of it, and the payment is taken. */
  ghost predicate FindsPaid(w: State, o: nat, m: Meets)
    requires o < |w.purchases|
  {
    var p := w.purchases[o];
    var (entered, gate) := Enter(w, o, m.delay);
    gate.Ok? && gate.value.Attempt? && p.status != FULFILLED ==>
      && Truthy(p.checkoutId) && m.stripe.Some? && RefersTo(m.stripe.value, p.checkoutId, p.publicId)
      && m.stripe.value.status == Some("complete") && m.stripe.value.paymentStatus == Some("paid")
      && Pay(entered, m.stripe.value, m.today, m.draws).1.Ok?
  }

  /** A refresh that may ask and finds the order paid settles it; one that may not changes nothing. */
  lemma RefreshSettles(w: State, o: nat, m: Meets)
    requires DistinctOrders(w.purchases) && o < |w.purchases| && !m.busy && FindsPaid(w, o, m)
    ensures var u := Refresh(w, w.purchases[o].publicId, m).0;
      u == w || (o < |u.purchases| && Terminal(u.purchases[o].status))
  {
    var order := w.purchases[o].publicId;
    FindOrderExact(w.purchases, order);
    assert FindOrder(w.purchases, order) == Some(o);
    var (entered, gate) := Enter(w, o, m.delay);
    GateExact(w, o, m.delay);
    if gate.Ok? && gate.value.Attempt? {
      if gate.value.status != FULFILLED {
        PaidIsSettled(entered, o, m.stripe.value, m);
        DeliveryKeepsStatus(ApplySession(entered, m.stripe.value, m.today, m.draws).0, order, m.mail, o);
      } else {
        DeliveryKeepsStatus(entered, order, m.mail, o);
      }
    }
  }

  lemma PaidIsSettled(s: State, o: nat, c: Checkout, m: Meets)
    requires DistinctOrders(s.purchases) && o < |s.purchases| && c.orderReference == Some(s.purchases[o].publicId)
    requires Pay(s, c, m.today, m.draws).1.Ok?
    ensures var t := Pay(s, c, m.today, m.draws).0;
      o < |t.purchases| && Terminal(t.purchases[o].status)
  {
    FindOrderExact(s.purchases, s.purchases[o].publicId);
    assert FindOrder(s.purchases, s.purchases[o].publicId) == Some(o);
    PaymentRecorded(s, c, m.today, m.draws);
  }

  lemma DeliveryKeepsStatus(s: State, order: string, mail: MailReply, o: nat)
    requires o < |s.purchases|
    ensures var t := FinishRefresh(s, order, mail).0;
      o < |t.purchases| && t.purchases[o].status == s.purchases[o].status
  {
    if Deliver(s, order, None, mail).0 != s {
      DeliverShape(s, order, None, mail);
    }
  }

  /** In this sweep only the sweep itself refreshes order `o`, and it finds it paid. */
  ghost predicate SweepFindsPaid(s: State, orders: seq<string>, visits: seq<Visit>, o: nat)
    requires |visits| == |orders| && o < |s.purchases|
  {
    orders == [] ||
    var n := |orders| - 1;
    var earlier := SweepAmong(s, orders[..n], visits[..n]);
    var w := Wait(Run(earlier, visits[n].others), visits[n].m.wait);
    && SweepFindsPaid(s, orders[..n], visits[..n], o)
    && !Records(visits[n].others, s.purchases[o].publicId)
    && (orders[n] == s.purchases[o].publicId && o < |w.purchases| ==> FindsPaid(w, o, visits[n].m))
  }

  lemma OtherEntered(s: State, order: string, m: Meets, other: string)
    requires order != other
    ensures !Records(EnteredSteps(s, order, m), other)
  {
  }

  /** One visit of such a sweep leaves the order's last attempt alone or settles the order. */
  lemma VisitSettles(s: State, order: string, v: Visit, o: nat)
    requires Inv(s) && o < |s.purchases| && !v.m.busy && !Records(v.others, s.purchases[o].publicId)
    requires var w := Wait(Run(s, v.others), v.m.wait);
      order == s.purchases[o].publicId && o < |w.purchases| ==> FindsPaid(w, o, v.m)
    ensures var u := Run(s, VisitSteps(s, order, v));
      && o < |u.purchases|
      && (Terminal(u.purchases[o].status) || LastOf(u, o) == LastOf(s, o))
  {
    var before := Run(s, v.others);
    var w := Wait(before, v.m.wait);
    RunKeeps(s, v.others);
    LastOfRun(s, v.others, o);
    TickStep(before, v.m.wait);
    assert LastOf(w, o) == LastOf(before, o);
    VisitIsRun(s, order, v);
    if order == s.purchases[o].publicId {
      RefreshSettles(w, o, v.m);
    } else {
      EnteredIsRun(w, order, v.m);
      OtherEntered(w, order, v.m, s.purchases[o].publicId);
      LastOfRun(w, EnteredSteps(w, order, v.m), o);
    }
  }

  lemma SettledStays(s: State, steps: seq<Step>, o: nat)
    requires Inv(s) && o < |s.purchases|
    ensures var u := Run(s, steps);
      && Inv(u) && s.clock <= u.clock && o < |u.purchases|
      && u.purchases[o].publicId == s.purchases[o].publicId
      && (Terminal(s.purchases[o].status) ==> Terminal(u.purchases[o].status))
  {
    RunKeeps(s, steps);
    assert OrderEvolves(s.purchases[o], Run(s, steps).purchases[o]);
  }

  lemma {:induction false} SweepSettles(s: State, orders: seq<string>, visits: seq<Visit>, o: nat)
    requires Inv(s) && |visits| == |orders| && NoneBusy(visits) && o < |s.purchases|
    requires SweepFindsPaid(s, orders, visits, o)
    ensures var u := Run(s, SweepSteps(s, orders, visits));
      && o < |u.purchases|
      && (Terminal(u.purchases[o].status) || LastOf(u, o) == LastOf(s, o))
  {
    if orders != [] {
      var n := |orders| - 1;
      SweepSettles(s, orders[..n], visits[..n], o);
      SweepIsRun(s, orders[..n], visits[..n]);
      var steps := SweepSteps(s, orders[..n], visits[..n]);
      var earlier := SweepAmong(s, orders[..n], visits[..n]);
      SettledStays(s, steps, o);
      VisitSettles(earlier, orders[n], visits[n], o);
      RunConcat(s, steps, VisitSteps(earlier, orders[n], visits[n]));
      SettledStays(earlier, VisitSteps(earlier, orders[n], visits[n]), o);
    }
  }

  /** A sweep and what runs after it, until the next query. */
  datatype Sweeping = Sweeping(ids: seq<nat>, visits: seq<Visit>, after: seq<Step>)

  function SweepingSteps(s: State, w: Sweeping): seq<Step>
    requires |w.visits| == |w.ids| && forall k | 0 <= k < |w.ids| :: w.ids[k] < |s.purchases|
  {
    SweepSteps(s, PublicIds(s, w.ids), w.visits) + w.after
  }

  /** Sweep `w` started at `s` with free locks and found order `o` paid whenever it could ask. */
  ghost predicate SweptPaid(s: State, w: Sweeping, o: nat) {
    && Selects(s, w.ids) && |w.visits| == |w.ids| && NoneBusy(w.visits)
    && (forall k | 0 <= k < |w.ids| :: w.ids[k] < |s.purchases|)
    && o < |s.purchases|
    && SweepFindsPaid(s, PublicIds(s, w.ids), w.visits, o)
    && !Records(w.after, s.purchases[o].publicId)
  }

  /** The firings are these sweeps, each from the state the ones before it left. */
  ghost predicate AreSweeps(s: State, firings: seq<Firing>, sweeps: seq<Sweeping>, o: nat) {
    && |sweeps| == |firings|
    && (firings == [] ||
        var n := |firings| - 1;
        var q := Run(s, AllSteps(firings[..n]));
        && AreSweeps(s, firings[..n], sweeps[..n], o)
        && SweptPaid(q, sweeps[n], o)
        && firings[n] == Firing(sweeps[n].ids, SweepingSteps(q, sweeps[n])))
  }

  lemma SweepingSettles(q: State, w: Sweeping, o: nat)
    requires Inv(q) && SweptPaid(q, w, o)
    ensures var u := Run(q, SweepingSteps(q, w));
      && o < |u.purchases|
      && (Terminal(u.purchases[o].status) || LastOf(u, o) == LastOf(q, o))
    ensures Visited(q, w.ids, SweepingSteps(q, w))
  {
    var steps := SweepSteps(q, PublicIds(q, w.ids), w.visits);
    var x := Run(q, steps);
    SweepSettles(q, PublicIds(q, w.ids), w.visits, o);
    SettledStays(q, steps, o);
    SettledStays(x, w.after, o);
    LastOfRun(x, w.after, o);
    RunConcat(q, steps, w.after);
    SweepVisits(q, w.ids, w.visits);
    forall i | i in w.ids ensures Records(steps + w.after, q.purchases[i].publicId) {
      RecordsAfter(steps, w.after, q.purchases[i].publicId);
    }
  }

  lemma {:induction false} SweepsSettle(s: State, firings: seq<Firing>, sweeps: seq<Sweeping>, o: nat)
    requires Inv(s) && AreSweeps(s, firings, sweeps, o) && o < |s.purchases|
    ensures var u := Run(s, AllSteps(firings));
      && o < |u.purchases|
      && (Terminal(u.purchases[o].status) || LastOf(u, o) == LastOf(s, o))
  {
    if firings != [] {
      var n := |firings| - 1;
      var front := firings[..n];
      SweepsSettle(s, front, sweeps[..n], o);
      var q := Run(s, AllSteps(front));
      SettledStays(s, AllSteps(front), o);
      SweepingSettles(q, sweeps[n], o);
      SettledStays(q, firings[n].steps, o);
      RunConcat(s, AllSteps(front), firings[n].steps);
    }
  }

  lemma {:induction false} SweepsFire(s: State, firings: seq<Firing>, sweeps: seq<Sweeping>, o: nat)
    requires Inv(s) && AreSweeps(s, firings, sweeps, o)
    ensures Fires(s, firings)
  {
    if firings != [] {
      var n := |firings| - 1;
      SweepsFire(s, firings[..n], sweeps[..n], o);
      RunKeeps(s, AllSteps(firings[..n]));
      SweepingSettles(Run(s, AllSteps(firings[..n])), sweeps[n], o);
    }
  }

  /** Recovery: an order with r candidates not after it, whose session Stripe reports as paid, is settled or
      stops being a candidate within floor((r + j) / 10) + 1 sweeps, whatever else runs between their
      refreshes, when nobody but the sweep refreshes it. */
  lemma {:induction false} SweepsSettlePaidOrder(s: State, firings: seq<Firing>, sweeps: seq<Sweeping>, o: nat)
    requires Inv(s) && o < |s.purchases| && Rested(s, o) && AreSweeps(s, firings, sweeps, o)
    requires |firings| >= (Rank(s, o) + JoinCount(s, AllSteps(firings))) / 10 + 1
    ensures var u := Run(s, AllSteps(firings));
      && o < |u.purchases|
      && (Terminal(u.purchases[o].status) || Left(s, AllSteps(firings), o))
  {
    SweepsSettle(s, firings, sweeps, o);
    SweepsFire(s, firings, sweeps, o);
    SweepsReachEveryOrder(s, firings, o);
  }
}
