/** Recovering orders whose webhook was missed: one refresh with its persisted
    cooldown, and the bounded rotating sweep
    (app/services/checkout_reconciliation_service.py). */
module Reconciliation {
  import opened Basics
  import opened Tables
  import opened Pricing
  import opened Inventory
  import opened Fulfillment
  import opened Email

  const RETRY := 15 * SECOND
  const RECENT := 7 * DAY
  const SWEEP_LIMIT := 10

  function Later(a: Option<int>, b: int): Option<int> {
    if a.Some? && a.value > b then a else Some(b)
  }

  /** `max(created_at)` over the order's recorded attempts. */
  function LastAttempt(audit: seq<Audit>, order: string): Option<int> {
    if audit == [] then None
    else
      var n := |audit| - 1;
      var earlier := LastAttempt(audit[..n], order);
      if audit[n].event == ReconciliationAttempted(order) then Later(earlier, audit[n].at) else earlier
  }

  // --- The cooldown gate ----------------------------------------------------

  datatype Gate =
    | Finished
    | Cooling
    | Attempt(checkoutId: Option<string>, status: Status)

  /** The first transaction of a refresh. The attempt is stamped when its row is written,
      `delay` after the cooldown was checked. */
  function Enter(s: State, i: nat, delay: nat): (State, Result<Gate, Error>)
    requires i < |s.purchases|
  {
    var p := s.purchases[i];
    var last := LastAttempt(s.audit, p.publicId);
    if p.status == FAILED || p.status == FULFILLMENT_FAILED || (p.status == FULFILLED && p.emailSentAt.Some?) then
      (s, Ok(Finished))
    else if Blocked(s.audit, p.publicId) then (s, Err(EmailDeliveryBlocked))
    else if last.Some? && s.clock - last.value < RETRY then (s, Ok(Cooling))
    else
      (s.(clock := s.clock + delay,
          audit := s.audit + [Audit(ReconciliationAttempted(p.publicId), s.clock + delay)]),
       Ok(Attempt(p.checkoutId, p.status)))
  }

  /** Everything outside the database that one refresh meets: time passing before it
      starts, a busy lock, and the answers of Stripe (`None` is an API error) and of the mail provider. */
  datatype Meets = Meets(
    wait: nat,
    busy: bool,
    delay: nat,
    stripe: Option<Checkout>,
    today: Date,
    draws: seq<nat>,
    mail: MailReply)

  predicate RefersTo(c: Checkout, checkoutId: Option<string>, order: string) {
    c.id == checkoutId && c.clientReference == Some(order) && c.orderReference == Some(order)
  }

  /** Applying what Stripe reported; any other session state changes nothing. */
  function ApplySession(s: State, c: Checkout, today: Date, draws: seq<nat>): (State, Result<(), Error>) {
    if c.status == Some("complete") && c.paymentStatus == Some("paid") then
      var (after, outcome) := Pay(s, c, today, draws);
      (after, match outcome case Err(e) => Err(e) case Ok(_) => Ok(()))
    else if c.status == Some("expired") then PayFailed(s, c)
    else (s, Ok(()))
  }

  function FinishRefresh(s: State, order: string, mail: MailReply): (State, Result<(), Error>) {
    var (after, sent) := Deliver(s, order, None, mail);
    (after, match sent
       case Ok(_) => Ok(())
       case Err(EmailDeliveryBlocked) => Err(EmailDeliveryBlocked)
       case Err(_) => Err(EmailDeliveryError))
  }

  function AfterGate(s: State, order: string, gate: Gate, m: Meets): (State, Result<(), Error>)
    requires gate.Attempt?
  {
    if gate.status != FULFILLED && Truthy(gate.checkoutId) then
      if m.stripe.None? then (s, Err(IntegrationError))
      else if !RefersTo(m.stripe.value, gate.checkoutId, order) then (s, Err(DomainError))
      else
        var (applied, outcome) := ApplySession(s, m.stripe.value, m.today, m.draws);
        if outcome.Err? then (applied, outcome) else FinishRefresh(applied, order, m.mail)
    else FinishRefresh(s, order, m.mail)
  }

  function Refresh(s: State, order: string, m: Meets): (State, Result<(), Error>) {
    match FindOrder(s.purchases, order)
    case None => (s, Err(NotFoundError))
    case Some(i) =>
      FindOrderExact(s.purchases, order);
      if m.busy then (s, Ok(()))
      else
        var (entered, gate) := Enter(s, i, m.delay);
        match gate
        case Err(e) => (entered, Err(e))
        case Ok(Attempt(checkoutId, status)) => AfterGate(entered, order, gate.value, m)
        case Ok(_) => (entered, Ok(()))
  }

  // --- The cooldown bound -----------------------------------------------------

  predicate IsAttempt(a: Audit, order: string) {
    a.event == ReconciliationAttempted(order)
  }

  /** Attempts recorded for one order are at least fifteen seconds apart. */
  ghost predicate AttemptsSpaced(audit: seq<Audit>) {
    forall a, b | 0 <= a < b < |audit| && audit[a].event.ReconciliationAttempted? && audit[a].event == audit[b].event ::
      audit[b].at - audit[a].at >= RETRY
  }

  lemma {:induction false} LastAttemptIsMax(audit: seq<Audit>, order: string)
    ensures forall a | 0 <= a < |audit| && IsAttempt(audit[a], order) ::
      LastAttempt(audit, order).Some? && audit[a].at <= LastAttempt(audit, order).value
    ensures LastAttempt(audit, order).Some? ==>
      exists a | 0 <= a < |audit| :: IsAttempt(audit[a], order) && audit[a].at == LastAttempt(audit, order).value
  {
    if audit != [] {
      var n := |audit| - 1;
      LastAttemptIsMax(audit[..n], order);
      var last := LastAttempt(audit, order);
      if last.Some? {
        if IsAttempt(audit[n], order) && last.value == audit[n].at {
        } else {
          var a :| 0 <= a < n && IsAttempt(audit[..n][a], order) && audit[..n][a].at == last.value;
          assert IsAttempt(audit[a], order) && audit[a].at == last.value;
        }
      }
      forall a | 0 <= a < |audit| && IsAttempt(audit[a], order)
        ensures last.Some? && audit[a].at <= last.value
      {
        if a < n {
          assert IsAttempt(audit[..n][a], order);
        }
      }
    }
  }

  /** A refresh goes on to Stripe and the mail provider exactly when the order still needs something,
      is not blocked, and every recorded attempt lies fifteen seconds back; only then is one recorded. */
  lemma GateExact(s: State, i: nat, delay: nat)
    requires i < |s.purchases|
    ensures var (after, gate) := Enter(s, i, delay);
      var p := s.purchases[i];
      var open := p.status == PENDING || p.status == PAID || (p.status == FULFILLED && p.emailSentAt.None?);
      var rested := forall a | 0 <= a < |s.audit| && s.audit[a].event == ReconciliationAttempted(p.publicId) ::
        s.clock - s.audit[a].at >= 15_000_000;
      && (gate.Ok? && gate.value.Attempt? <==> open && !Blocked(s.audit, p.publicId) && rested)
      && (gate.Err? <==> open && Blocked(s.audit, p.publicId))
      && (if gate.Ok? && gate.value.Attempt? then
            gate.value == Attempt(p.checkoutId, p.status)
            && after.audit == s.audit + [Audit(ReconciliationAttempted(p.publicId), after.clock)]
            && after == s.(clock := s.clock + delay, audit := after.audit)
          else after == s)
  {
    var order := s.purchases[i].publicId;
    LastAttemptIsMax(s.audit, order);
    assert forall a | 0 <= a < |s.audit| ::
      IsAttempt(s.audit[a], order) <==> s.audit[a].event == ReconciliationAttempted(order);
  }

  /** What a refresh answers. An unknown order, a block, a failed or foreign retrieval and a refused settlement are
      errors; a busy lock, a finished order and the cooldown are not; a failed delivery is, apart from a block, one
      error whatever its cause. */
  lemma RefreshAnswers(s: State, order: string, m: Meets)
    ensures var i := FindOrder(s.purchases, order);
      var result := Refresh(s, order, m).1;
      && (i.Some? ==> i.value < |s.purchases|)
      && if i.None? then result == Err(NotFoundError)
         else if m.busy then result == Ok(())
         else
           var (entered, gate) := Enter(s, i.value, m.delay);
           var p := s.purchases[i.value];
           if gate.Err? then result == Err(EmailDeliveryBlocked)
           else if !gate.value.Attempt? then result == Ok(())
           else if p.status == FULFILLED || p.checkoutId.None? || p.checkoutId == Some("") then
             MailAnswer(entered, order, m.mail, result)
           else if m.stripe.None? then result == Err(IntegrationError)
           else
             var c := m.stripe.value;
             if c.id != p.checkoutId || c.clientReference != Some(order) || c.orderReference != Some(order) then
               result == Err(DomainError)
             else if c.status == Some("complete") && c.paymentStatus == Some("paid") then
               var (paid, outcome) := Pay(entered, c, m.today, m.draws);
               if outcome.Err? then result == Err(outcome.error) else MailAnswer(paid, order, m.mail, result)
             else if c.status == Some("expired") then
               var (failed, outcome) := PayFailed(entered, c);
               if outcome.Err? then result == Err(outcome.error) else MailAnswer(failed, order, m.mail, result)
             else MailAnswer(entered, order, m.mail, result)
  {
    FindOrderExact(s.purchases, order);
  }

  predicate MailAnswer(s: State, order: string, mail: MailReply, result: Result<(), Error>) {
    match Deliver(s, order, None, mail).1
    case Ok(_) => result == Ok(())
    case Err(e) => result == Err(if e == EmailDeliveryBlocked then EmailDeliveryBlocked else EmailDeliveryError)
  }

  lemma EnterKeepsSpacing(s: State, i: nat, delay: nat)
    requires i < |s.purchases| && AttemptsSpaced(s.audit)
    ensures AttemptsSpaced(Enter(s, i, delay).0.audit)
  {
    var order := s.purchases[i].publicId;
    LastAttemptIsMax(s.audit, order);
    assert forall a | 0 <= a < |s.audit| && s.audit[a].event == ReconciliationAttempted(order) ::
      IsAttempt(s.audit[a], order);
  }

  function AttemptsWithin(audit: seq<Audit>, order: string, from: int, to: int): nat {
    if audit == [] then 0
    else
      var n := |audit| - 1;
      AttemptsWithin(audit[..n], order, from, to)
      + if IsAttempt(audit[n], order) && from <= audit[n].at <= to then 1 else 0
  }

  ghost predicate AttemptedBetween(audit: seq<Audit>, order: string, from: int, to: int) {
    exists a | 0 <= a < |audit| :: IsAttempt(audit[a], order) && from <= audit[a].at <= to
  }

  /** The k-th attempt of a window lies at least k - 1 cooldowns after its start. */
  lemma {:induction false} AttemptsAdvance(audit: seq<Audit>, order: string, from: int, to: int)
    requires AttemptsSpaced(audit)
    ensures var k := AttemptsWithin(audit, order, from, to);
      k > 0 ==> AttemptedBetween(audit, order, from + (k - 1) * RETRY, to)
  {
    if audit != [] {
      var n := |audit| - 1;
      AttemptsAdvance(audit[..n], order, from, to);
      NextAttempt(audit, order, from, to, AttemptsWithin(audit[..n], order, from, to));
    }
  }

  lemma NextAttempt(audit: seq<Audit>, order: string, from: int, to: int, k: nat)
    requires audit != [] && AttemptsSpaced(audit)
    requires k > 0 ==> AttemptedBetween(audit[..|audit| - 1], order, from + (k - 1) * RETRY, to)
    ensures k > 0 ==> AttemptedBetween(audit, order, from + (k - 1) * RETRY, to)
    ensures IsAttempt(audit[|audit| - 1], order) && from <= audit[|audit| - 1].at <= to ==>
      AttemptedBetween(audit, order, from + k * RETRY, to)
  {
    var n := |audit| - 1;
    if k > 0 {
      var since := from + (k - 1) * RETRY;
      var a :| 0 <= a < n && IsAttempt(audit[..n][a], order) && since <= audit[..n][a].at <= to;
      assert IsAttempt(audit[a], order) && since <= audit[a].at <= to;
      assert since + RETRY == from + k * RETRY;
    }
  }

  /** A window of length T holds at most floor(T / 15 s) + 1 attempts of one order. */
  lemma CooldownBound(audit: seq<Audit>, order: string, from: int, to: int)
    requires AttemptsSpaced(audit) && from <= to
    ensures AttemptsWithin(audit, order, from, to) <= (to - from) / RETRY + 1
  {
    AttemptsAdvance(audit, order, from, to);
  }

  ghost function AttemptsAt(audit: seq<Audit>, order: string, from: int, to: int): set<nat> {
    set a: nat | a < |audit| && audit[a].event == ReconciliationAttempted(order) && from <= audit[a].at <= to
  }

  lemma {:induction false} AttemptsWithinExact(audit: seq<Audit>, order: string, from: int, to: int)
    ensures AttemptsWithin(audit, order, from, to) == |AttemptsAt(audit, order, from, to)|
  {
    if audit == [] {
      assert AttemptsAt(audit, order, from, to) == {};
    } else {
      var n := |audit| - 1;
      AttemptsWithinExact(audit[..n], order, from, to);
      AttemptsAtNext(audit, order, from, to);
    }
  }

  lemma AttemptsAtNext(audit: seq<Audit>, order: string, from: int, to: int)
    requires audit != []
    ensures var n := |audit| - 1;
      && n !in AttemptsAt(audit[..n], order, from, to)
      && AttemptsAt(audit, order, from, to) == AttemptsAt(audit[..n], order, from, to)
           + if IsAttempt(audit[n], order) && from <= audit[n].at <= to then {n} else {}
  {
    var n := |audit| - 1;
    assert forall a | 0 <= a < n :: audit[..n][a] == audit[a];
  }

  /** Stripe is asked only by a refresh that has just recorded an attempt. */
  predicate Retrieves(s: State, order: string, m: Meets) {
    var i := FindOrder(s.purchases, order);
    FindOrderExact(s.purchases, order);
    && i.Some? && !m.busy
    && var gate := Enter(s, i.value, m.delay).1;
    && gate.Ok? && gate.value.Attempt? && gate.value.status != FULFILLED && Truthy(gate.value.checkoutId)
  }

  /** A refresh that does not ask Stripe does the same whatever Stripe would have answered; one that does and gets no
      answer is an error. */
  lemma RetrievesExactly(s: State, order: string, m: Meets, other: Option<Checkout>)
    ensures !Retrieves(s, order, m) ==> Refresh(s, order, m.(stripe := other)) == Refresh(s, order, m)
    ensures Retrieves(s, order, m) ==> Refresh(s, order, m.(stripe := None)).1 == Err(IntegrationError)
  {
    FindOrderExact(s.purchases, order);
  }

  // --- What a refresh leaves alone --------------------------------------------

  predicate About(e: Event, order: string) {
    match e
    case RuleCreated(_) => false
    case RuleUpdated(_) => false
    case FulfillmentFailed(o, _, _) => o == order
    case ReconciliationAttempted(o) => o == order
    case EmailBlocked(o) => o == order
    case EmailFailed(o) => o == order
    case EmailAccepted(o, _) => o == order
    case EmailSent(o) => o == order
    case EmailResent(o, _) => o == order
    case SyncInvoked(_) => false
  }

  /** Only order `i` may differ, its identity and age do not, and every new entry is about it. */
  ghost predicate TouchesOnly(s: State, t: State, i: nat)
    requires i < |s.purchases|
  {
    var order := s.purchases[i].publicId;
    && |t.purchases| == |s.purchases|
    && (forall j | 0 <= j < |s.purchases| && j != i :: t.purchases[j] == s.purchases[j])
    && t.purchases[i].publicId == order
    && t.purchases[i].createdAt == s.purchases[i].createdAt
    && |s.audit| <= |t.audit| && t.audit[..|s.audit|] == s.audit
    && (forall a | |s.audit| <= a < |t.audit| :: About(t.audit[a].event, order))
    && (forall a | |s.audit| <= a < |t.audit| :: t.audit[a].event.ReconciliationAttempted? ==> t.audit[a].at >= s.clock)
    && s.clock <= t.clock
  }

  lemma TouchesChain(s: State, t: State, u: State, i: nat)
    requires i < |s.purchases| && TouchesOnly(s, t, i) && TouchesOnly(t, u, i)
    ensures TouchesOnly(s, u, i)
  {
    assert u.audit[..|s.audit|] == u.audit[..|t.audit|][..|s.audit|];
    assert forall a | 0 <= a < |t.audit| :: u.audit[..|t.audit|][a] == t.audit[a];
  }

  lemma ApplySessionTouches(s: State, c: Checkout, today: Date, draws: seq<nat>, order: string, i: nat)
    requires FindOrder(s.purchases, order) == Some(i) && c.orderReference == Some(order)
    ensures i < |s.purchases| && TouchesOnly(s, ApplySession(s, c, today, draws).0, i)
  {
    FindOrderExact(s.purchases, order);
    PaymentTouches(s, c, today, draws, order, i);
    FailureTouches(s, c, order, i);
  }

  lemma PaymentTouches(s: State, c: Checkout, today: Date, draws: seq<nat>, order: string, i: nat)
    requires i < |s.purchases| && FindOrder(s.purchases, order) == Some(i) && c.orderReference == Some(order)
    requires s.purchases[i].publicId == order
    ensures TouchesOnly(s, Pay(s, c, today, draws).0, i)
  {
    PaymentRecorded(s, c, today, draws);
  }

  lemma FailureTouches(s: State, c: Checkout, order: string, i: nat)
    requires i < |s.purchases| && FindOrder(s.purchases, order) == Some(i) && c.orderReference == Some(order)
    requires s.purchases[i].publicId == order
    ensures TouchesOnly(s, PayFailed(s, c).0, i)
  {
    PaymentFailedExactly(s, c);
  }

  lemma DeliverTouches(s: State, order: string, mail: MailReply, i: nat)
    requires FindOrder(s.purchases, order) == Some(i)
    ensures i < |s.purchases| && TouchesOnly(s, Deliver(s, order, None, mail).0, i)
  {
    FindOrderExact(s.purchases, order);
    if Deliver(s, order, None, mail).0 != s {
      DeliverShape(s, order, None, mail);
    }
  }

  /** Replacing rows without changing public ids changes no lookup. */
  lemma {:induction false} FindSame(ps: seq<Purchase>, qs: seq<Purchase>, order: string, k: nat)
    requires |ps| == |qs| && k <= |ps|
    requires forall j | 0 <= j < |ps| :: ps[j].publicId == qs[j].publicId
    ensures FindFrom(ps, order, k) == FindFrom(qs, order, k)
    decreases |ps| - k
  {
    if k < |ps| {
      FindSame(ps, qs, order, k + 1);
    }
  }

  lemma AfterGateTouches(s: State, order: string, gate: Gate, m: Meets, i: nat)
    requires FindOrder(s.purchases, order) == Some(i) && gate.Attempt?
    ensures i < |s.purchases| && TouchesOnly(s, AfterGate(s, order, gate, m).0, i)
  {
    FindOrderExact(s.purchases, order);
    DeliverTouches(s, order, m.mail, i);
    if m.stripe.Some? && RefersTo(m.stripe.value, gate.checkoutId, order) {
      var applied := ApplySession(s, m.stripe.value, m.today, m.draws).0;
      ApplySessionTouches(s, m.stripe.value, m.today, m.draws, order, i);
      FindSame(s.purchases, applied.purchases, order, 0);
      DeliverTouches(applied, order, m.mail, i);
      TouchesChain(s, applied, Deliver(applied, order, None, m.mail).0, i);
    }
  }

  /** A refresh concerns its own order only; a free one that is neither finished, blocked nor
      cooling records an attempt. */
  lemma {:induction false} RefreshTouches(s: State, order: string, m: Meets, i: nat)
    requires FindOrder(s.purchases, order) == Some(i)
    ensures var t := Refresh(s, order, m).0;
      && i < |s.purchases|
      && TouchesOnly(s, t, i)
      && (!m.busy && Enter(s, i, m.delay).1.Ok? && Enter(s, i, m.delay).1.value.Attempt? ==>
            AttemptedSince(t, i, s.clock))
      && (Retrieves(s, order, m) ==>
            && |t.audit| > |s.audit|
            && t.audit[|s.audit|] == Audit(ReconciliationAttempted(order), s.clock + m.delay))
  {
    FindOrderExact(s.purchases, order);
    var (entered, gate) := Enter(s, i, m.delay);
    if !m.busy && gate.Ok? && gate.value.Attempt? {
      AfterGateTouches(entered, order, gate.value, m, i);
      var t := Refresh(s, order, m).0;
      assert entered.audit[|s.audit|] == Audit(ReconciliationAttempted(order), s.clock + m.delay);
      TouchesChain(s, entered, t, i);
      assert t.audit[|s.audit|] == t.audit[..|entered.audit|][|s.audit|];
      LastAttemptIsMax(t.audit, order);
      assert IsAttempt(t.audit[|s.audit|], order);
    }
  }

  // --- The sweep ---------------------------------------------------------------

  function LastOf(s: State, i: nat): Option<int>
    requires i < |s.purchases|
  {
    LastAttempt(s.audit, s.purchases[i].publicId)
  }

  predicate AttemptedSince(s: State, i: nat, from: int) {
    i < |s.purchases| && LastOf(s, i).Some? && LastOf(s, i).value >= from
  }

  /** The sweep's filter. */
  predicate Candidate(s: State, i: nat) {
    i < |s.purchases|
    && var p := s.purchases[i];
    && p.createdAt >= s.clock - RECENT
    && !Blocked(s.audit, p.publicId)
    && (p.status == PENDING || p.status == PAID || (p.status == FULFILLED && p.emailSentAt.None?))
  }

  /** `ORDER BY last_attempt ASC NULLS FIRST, created_at`; equal keys may come in either order. */
  predicate NotAfter(s: State, i: nat, j: nat)
    requires i < |s.purchases| && j < |s.purchases|
  {
    var a, b := LastOf(s, i), LastOf(s, j);
    if a.None? && b.None? then s.purchases[i].createdAt <= s.purchases[j].createdAt
    else if a.None? then true
    else if b.None? then false
    else a.value < b.value || (a.value == b.value && s.purchases[i].createdAt <= s.purchases[j].createdAt)
  }

  /** The sweep looks at orders of the last seven days that are not blocked and either unsettled or unsent. */
  lemma CandidateExactly(s: State, i: nat)
    ensures Candidate(s, i) <==>
      && i < |s.purchases|
      && s.clock - s.purchases[i].createdAt <= 604_800_000_000
      && !Blocked(s.audit, s.purchases[i].publicId)
      && s.purchases[i].status != FAILED && s.purchases[i].status != FULFILLMENT_FAILED
      && (s.purchases[i].status == FULFILLED ==> s.purchases[i].emailSentAt.None?)
  {
  }

  /** Orders never attempted come first, then those attempted longest ago; equal ones by age. */
  lemma SweepOrder(s: State, i: nat, j: nat)
    requires i < |s.purchases| && j < |s.purchases|
    ensures var a, b := LastOf(s, i), LastOf(s, j);
      && ((a.None? && b.Some?) || (a.Some? && b.Some? && a.value < b.value) ==> NotAfter(s, i, j) && !NotAfter(s, j, i))
      && (a == b ==> (NotAfter(s, i, j) <==> s.purchases[i].createdAt <= s.purchases[j].createdAt))
  {
  }

  /** A query takes at most ten candidates, and fewer only when there are no more. */
  lemma SelectedExactly(s: State, ids: seq<nat>)
    requires Selects(s, ids)
    ensures |ids| <= 10 && NoDup(ids)
    ensures forall k | 0 <= k < |ids| :: Candidate(s, ids[k])
    ensures |ids| < 10 ==> forall i: nat | Candidate(s, i) :: i in ids
    ensures |ids| == 10 ==> forall i: nat, k | Candidate(s, i) && i !in ids && 0 <= k < 10 :: NotAfter(s, ids[k], i)
  {
  }

  /** A result the sweep's query may return: the first ten candidates in key order. */
  ghost predicate Selects(s: State, ids: seq<nat>) {
    && NoDup(ids)
    && |ids| <= SWEEP_LIMIT
    && (forall k | 0 <= k < |ids| :: Candidate(s, ids[k]))
    && (forall a, b | 0 <= a < b < |ids| :: NotAfter(s, ids[a], ids[b]))
    && (forall i: nat | Candidate(s, i) && i !in ids ::
          |ids| == SWEEP_LIMIT && forall k | 0 <= k < |ids| :: NotAfter(s, ids[k], i))
  }

  /** The other candidates the sweep may put before `o`. */
  ghost function Ahead(s: State, o: nat): set<nat>
    requires o < |s.purchases|
  {
    set i: nat | i < |s.purchases| && i != o && Candidate(s, i) && NotAfter(s, i, o)
  }

  ghost function Rank(s: State, o: nat): nat
    requires o < |s.purchases|
  {
    |Ahead(s, o)|
  }

  /** A sweep that selected `ids` at `s`, and whatever else happened until `t`. Only orders in `joined` became
      candidates in between, attempts were stamped when they were made, and every selected order that is
      not after `o` was attempted or stopped being a candidate. */
  ghost predicate Round(s: State, ids: seq<nat>, t: State, o: nat, joined: set<nat>)
    requires o < |s.purchases|
  {
    && Selects(s, ids)
    && s.clock <= t.clock
    && |s.purchases| <= |t.purchases|
    && (forall i | 0 <= i < |s.purchases| :: t.purchases[i].createdAt == s.purchases[i].createdAt)
    && (forall i: nat | Candidate(t, i) :: Candidate(s, i) || i in joined)
    && (forall i: nat | i < |s.purchases| :: LastOf(t, i) == LastOf(s, i) || AttemptedSince(t, i, s.clock))
    && (forall i | i in ids && i < |s.purchases| && NotAfter(s, i, o) && Candidate(t, i) ::
          AttemptedSince(t, i, s.clock) || i in joined)
  }

  /** What a round does around an order that is still waiting: ten others were picked, all of them ahead of it,
      and of those still ahead only the ones that joined are new or were picked. */
  lemma RoundPasses(s: State, ids: seq<nat>, t: State, o: nat, joined: set<nat>)
    requires o < |s.purchases| && Round(s, ids, t, o, joined)
    requires Candidate(t, o) && !AttemptedSince(t, o, s.clock) && o !in joined
    ensures |ids| == SWEEP_LIMIT && o < |t.purchases|
    ensures forall i | i in ids :: i in Ahead(s, o) && (i !in Ahead(t, o) || i in joined)
    ensures forall i | i in Ahead(t, o) :: i in Ahead(s, o) || i in joined
  {
    assert NotAfter(s, o, o);
    assert o !in ids;
    forall i | i in ids ensures i in Ahead(s, o) && (i !in Ahead(t, o) || i in joined) {
      var k :| 0 <= k < |ids| && ids[k] == i;
      assert NotAfter(s, ids[k], o) && Candidate(s, ids[k]);
      if Candidate(t, i) && i !in joined {
        assert AttemptedSince(t, i, s.clock);
        assert !NotAfter(t, i, o);
      }
    }
    forall i | i in Ahead(t, o) ensures i in Ahead(s, o) || i in joined {
      if i !in joined {
        assert Candidate(s, i);
        assert LastOf(t, i) == LastOf(s, i) || AttemptedSince(t, i, s.clock);
      }
    }
  }

  /** A candidate that is passed over moves ten places up, less the number of orders that joined. */
  lemma RoundAdvances(s: State, ids: seq<nat>, t: State, o: nat, joined: set<nat>)
    requires o < |s.purchases| && Round(s, ids, t, o, joined)
    requires Candidate(t, o) && !AttemptedSince(t, o, s.clock) && o !in joined
    ensures o < |t.purchases| && Rank(t, o) + SWEEP_LIMIT <= Rank(s, o) + |joined|
  {
    RoundPasses(s, ids, t, o, joined);
    TakenFromAhead(Ahead(s, o), Ahead(t, o), ids, joined);
  }

  lemma TakenFromAhead(before: set<nat>, after: set<nat>, ids: seq<nat>, joined: set<nat>)
    requires NoDup(ids)
    requires forall i | i in ids :: i in before && (i !in after || i in joined)
    requires forall i | i in after :: i in before || i in joined
    ensures |after| + |ids| <= |before| + |joined|
  {
    var picked := set i | i in ids;
    var stayed := after - joined;
    NoDupSize(ids, picked);
    assert picked + stayed <= before && picked !! stayed;
    SubsetSize(picked + stayed, before);
    SubsetSize(after, stayed + joined);
    UnionSize(stayed, joined);
  }

  lemma UnionSize<T>(a: set<T>, b: set<T>)
    ensures |a + b| <= |a| + |b|
  {
    assert a + b == a + (b - a);
    SubsetSize(b - a, b);
  }

  lemma {:induction false} SubsetSize<T>(a: set<T>, b: set<T>)
    requires a <= b
    ensures |a| <= |b|
  {
    assert b == a + (b - a);
  }

  function Wait(s: State, d: nat): State {
    s.(clock := s.clock + d)
  }

  /** The sweep's loop: errors of one order never stop the others. */
  function Sweep(s: State, orders: seq<string>, meets: seq<Meets>): State
    requires |meets| == |orders|
  {
    if orders == [] then s
    else
      var n := |orders| - 1;
      var before := Wait(Sweep(s, orders[..n], meets[..n]), meets[n].wait);
      Refresh(before, orders[n], meets[n]).0
  }

  lemma SweepNext(s: State, orders: seq<string>, meets: seq<Meets>, k: nat)
    requires k < |orders| == |meets|
    ensures Sweep(s, orders[..k + 1], meets[..k + 1])
      == Refresh(Wait(Sweep(s, orders[..k], meets[..k]), meets[k].wait), orders[k], meets[k]).0
  {
    assert orders[..k + 1][..k] == orders[..k] && meets[..k + 1][..k] == meets[..k];
  }

  function PublicIds(s: State, ids: seq<nat>): seq<string>
    requires forall k | 0 <= k < |ids| :: ids[k] < |s.purchases|
  {
    seq(|ids|, k requires 0 <= k < |ids| => s.purchases[ids[k]].publicId)
  }

  lemma {:induction false} LastAttemptAppend(audit: seq<Audit>, after: seq<Audit>, order: string, since: int)
    requires |audit| <= |after| && after[..|audit|] == audit
    requires forall a | |audit| <= a < |after| :: IsAttempt(after[a], order) ==> after[a].at >= since
    ensures LastAttempt(after, order) == LastAttempt(audit, order)
      || (LastAttempt(after, order).Some? && LastAttempt(after, order).value >= since)
    ensures (forall a | |audit| <= a < |after| :: !IsAttempt(after[a], order)) ==>
      LastAttempt(after, order) == LastAttempt(audit, order)
    decreases |after|
  {
    if |after| > |audit| {
      var n := |after| - 1;
      assert after[..n][..|audit|] == audit;
      LastAttemptAppend(audit, after[..n], order, since);
    } else {
      assert after == audit;
    }
  }

  class CheckoutReconciliationService {
    const db: Database
    const fulfillment: FulfillmentService
    const email: EmailService

    constructor (db: Database, fulfillment: FulfillmentService, email: EmailService)
      requires fulfillment.db == db && email.db == db
      ensures this.db == db && Wired()
    {
      this.db, this.fulfillment, this.email := db, fulfillment, email;
    }

    predicate Wired() {
      fulfillment.db == db && email.db == db
    }

    method EnterGate(i: nat, delay: nat) returns (gate: Result<Gate, Error>)
      requires i < |db.purchases|
      modifies db
      ensures (db.View(), gate) == Enter(old(db.View()), i, delay)
    {
      var p := db.purchases[i];
      if p.status == FAILED || p.status == FULFILLMENT_FAILED || (p.status == FULFILLED && p.emailSentAt.Some?) {
        return Ok(Finished);
      }
      if Blocked(db.audit, p.publicId) {
        return Err(EmailDeliveryBlocked);
      }
      var last := LastAttempt(db.audit, p.publicId);
      if last.Some? && db.clock - last.value < RETRY {
        return Ok(Cooling);
      }
      db.clock := db.clock + delay;
      db.Record(ReconciliationAttempted(p.publicId));
      return Ok(Attempt(p.checkoutId, p.status));
    }

    method RefreshOrder(order: string, m: Meets) returns (result: Result<(), Error>)
      requires Wired()
      modifies db
      ensures (db.View(), result) == Refresh(old(db.View()), order, m)
    {
      FindOrderExact(db.purchases, order);
      var row := FindOrder(db.purchases, order);
      if row.None? {
        return Err(NotFoundError);
      }
      if m.busy {
        return Ok(());
      }
      var gate := EnterGate(row.value, m.delay);
      if gate.Err? {
        return Err(gate.error);
      }
      if !gate.value.Attempt? {
        return Ok(());
      }
      if gate.value.status != FULFILLED && Truthy(gate.value.checkoutId) {
        if m.stripe.None? {
          return Err(IntegrationError);
        }
        var checkout := m.stripe.value;
        if !RefersTo(checkout, gate.value.checkoutId, order) {
          return Err(DomainError);
        }
        if checkout.status == Some("complete") && checkout.paymentStatus == Some("paid") {
          var paid := fulfillment.PaymentSucceeded(checkout, m.today, m.draws);
          if paid.Err? {
            return Err(paid.error);
          }
        } else if checkout.status == Some("expired") {
          var failed := fulfillment.PaymentFailed(checkout);
          if failed.Err? {
            return Err(failed.error);
          }
        }
      }
      var sent := email.DeliverOrder(order, None, m.mail);
      if sent == Err(EmailDeliveryBlocked) {
        return Err(EmailDeliveryBlocked);
      }
      if sent.Err? {
        return Err(EmailDeliveryError);
      }
      return Ok(());
    }

    /** `ids` is what the sweep's query returned when the sweep began. */
    method RecoverPending(ids: seq<nat>, meets: seq<Meets>)
      requires Wired()
      requires Selects(db.View(), ids) && |meets| == |ids|
      modifies db
      ensures forall k | 0 <= k < |ids| :: ids[k] < |old(db.purchases)|
      ensures db.View() == Sweep(old(db.View()), PublicIds(old(db.View()), ids), meets)
    {
      assert forall k | 0 <= k < |ids| :: Candidate(db.View(), ids[k]);
      RefreshAll(PublicIds(db.View(), ids), meets);
    }

    /** The sweep's loop; the outcome of each refresh is only logged. */
    method RefreshAll(orders: seq<string>, meets: seq<Meets>)
      requires Wired() && |meets| == |orders|
      modifies db
      ensures db.View() == Sweep(old(db.View()), orders, meets)
    {
      ghost var s := db.View();
      var k := 0;
      while k < |orders|
        invariant k <= |orders|
        invariant db.View() == Sweep(s, orders[..k], meets[..k])
      {
        SweepNext(s, orders, meets, k);
        db.clock := db.clock + meets[k].wait;
        var _ := RefreshOrder(orders[k], meets[k]);
        k := k + 1;
      }
      assert orders[..k] == orders && meets[..k] == meets;
    }
  }
}
