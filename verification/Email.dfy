/** Delivering an order's leads by email, with the block derived from the audit
    log (app/services/email_service.py). */
module Email {
  import opened Basics
  import opened Tables

  /** What the provider call gives. `Interrupted` is a process that dies before it
      commits; `reached` says whether the provider had accepted the message. */
  datatype MailReply =
    | Accepted(messageId: string)
    | Rejected
    | Unavailable(reached: bool)
    | Interrupted(reached: bool)

  predicate MailEvent(e: Event, order: string) {
    e == EmailBlocked(order) || e == EmailSent(order) || (e.EmailResent? && e.order == order)
  }

  predicate SentEvent(e: Event, order: string) {
    e == EmailSent(order) || (e.EmailResent? && e.order == order)
  }

  /** The newest of an order's blocked, sent and resent entries. */
  function LatestMail(audit: seq<Audit>, order: string): Option<Event> {
    if audit == [] then None
    else
      var n := |audit| - 1;
      if MailEvent(audit[n].event, order) then Some(audit[n].event) else LatestMail(audit[..n], order)
  }

  predicate Blocked(audit: seq<Audit>, order: string) {
    LatestMail(audit, order) == Some(EmailBlocked(order))
  }

  predicate HasEvent(audit: seq<Audit>, e: Event) {
    exists a | 0 <= a < |audit| :: audit[a].event == e
  }

  const AUTOMATIC := "delivery/"
  const BY_ADMIN := "resend/"

  function ProviderKey(order: string, resend: Option<string>): string {
    if Truthy(resend) then BY_ADMIN + order + "/" + resend.value else AUTOMATIC + order
  }

  function Reached(reply: MailReply): bool {
    match reply
    case Accepted(_) => true
    case Rejected => false
    case Unavailable(reached) => reached
    case Interrupted(reached) => reached
  }

  /** `deliver` as one transaction; the provider call happens inside it. */
  function Deliver(s: State, order: string, resend: Option<string>, reply: MailReply): (State, Result<bool, Error>) {
    match FindOrder(s.purchases, order)
    case None => (s, Err(NotFoundError))
    case Some(i) =>
      FindOrderExact(s.purchases, order);
      var p := s.purchases[i];
      var byAdmin := Truthy(resend);
      if p.status != FULFILLED then (s, if byAdmin then Err(FulfillmentError) else Ok(false))
      else if p.emailSentAt.Some? && !byAdmin then (s, Ok(true))
      else if !byAdmin && Blocked(s.audit, order) then (s, Err(EmailDeliveryBlocked))
      else if byAdmin && HasEvent(s.audit, EmailResent(order, resend.value)) then (s, Ok(true))
      else
        var send := Send(order, ProviderKey(order, resend), byAdmin, resend, Reached(reply));
        var called := s.(outbox := s.outbox + [send]);
        match reply
        case Rejected =>
          (called.(audit := s.audit + [Audit(EmailBlocked(order), s.clock)]), Err(EmailDeliveryBlocked))
        case Unavailable(_) =>
          (called.(audit := s.audit + [Audit(EmailFailed(order), s.clock)]), Err(IntegrationError))
        case Accepted(messageId) =>
          (called.(
             purchases := s.purchases[i := p.(emailSentAt := Some(s.clock))],
             audit := s.audit + [
               Audit(EmailAccepted(order, messageId), s.clock),
               Audit(if byAdmin then EmailResent(order, resend.value) else EmailSent(order), s.clock)]),
           Ok(true))
        case Interrupted(_) => (called, Err(Crashed))
  }

  // --- The invariant of the mail log ----------------------------------------

  ghost predicate IsOrder(purchases: seq<Purchase>, order: string) {
    exists i | 0 <= i < |purchases| :: purchases[i].publicId == order && purchases[i].status == FULFILLED
  }

  ghost predicate WasSent(audit: seq<Audit>, order: string) {
    exists a | 0 <= a < |audit| :: SentEvent(audit[a].event, order)
  }

  /** An order's timestamp is set exactly when a sent or resent entry exists. */
  ghost predicate StampsMatchLog(s: State) {
    forall i | 0 <= i < |s.purchases| ::
      s.purchases[i].emailSentAt.Some? <==> WasSent(s.audit, s.purchases[i].publicId)
  }

  /** No sent entry is ever repeated: one per order, one per order and admin key. */
  ghost predicate SentOnce(audit: seq<Audit>) {
    forall a, b | 0 <= a < b < |audit| && (audit[a].event.EmailSent? || audit[a].event.EmailResent?) ::
      audit[a].event != audit[b].event
  }

  ghost predicate MailForFulfilled(s: State) {
    && (forall a, order | 0 <= a < |s.audit| && SentEvent(s.audit[a].event, order) :: IsOrder(s.purchases, order))
    && (forall k | 0 <= k < |s.outbox| :: IsOrder(s.purchases, s.outbox[k].order))
  }

  /** Every automatic send of an order carries the order's own provider key, and every admin send the order and the
      administrator's key. */
  ghost predicate KeysByKind(outbox: seq<Send>) {
    forall k | 0 <= k < |outbox| ::
      var send := outbox[k];
      && (send.byAdmin <==> send.resend.Some? && send.resend.value != "")
      && send.key == if send.byAdmin then "resend/" + send.order + "/" + send.resend.value else "delivery/" + send.order
  }

  ghost predicate MailInv(s: State) {
    StampsMatchLog(s) && SentOnce(s.audit) && MailForFulfilled(s) && KeysByKind(s.outbox)
  }

  /** Two orders never share an automatic key, and no admin key is automatic. */
  lemma KeyKinds(order: string, other: string, key: string)
    ensures "resend/" + order + "/" + key != "delivery/" + other
    ensures "delivery/" + order == "delivery/" + other ==> order == other
  {
    assert ("resend/" + order + "/" + key)[0] == 'r' && ("delivery/" + other)[0] == 'd';
    assert ("delivery/" + order)[9..] == order && ("delivery/" + other)[9..] == other;
  }

  lemma {:induction false} SlashSplits(a: string, x: string, b: string, y: string)
    requires '/' !in a && '/' !in b && a + "/" + x == b + "/" + y
    ensures a == b && x == y
  {
    var left, right := a + "/" + x, b + "/" + y;
    assert left[|a|] == '/' && right[|b|] == '/';
    assert forall k | 0 <= k < |a| :: left[k] == a[k] && a[k] in a;
    assert forall k | 0 <= k < |b| :: right[k] == b[k] && b[k] in b;
    assert |a| == |b|;
    assert left[..|a|] == a && right[..|b|] == b;
    assert left[|a| + 1..] == x && right[|b| + 1..] == y;
  }

  /** Two admin requests carry the same provider key exactly when they are for the same order under the same admin
      key: always for one order, and across orders because no public id has a slash. */
  lemma AdminKeysApart(order: string, key: string, other: string, otherKey: string)
    requires key != "" && otherKey != ""
    requires order == other || ('/' !in order && '/' !in other)
    ensures ProviderKey(order, Some(key)) == ProviderKey(other, Some(otherKey)) <==> order == other && key == otherKey
  {
    var mine, theirs := "resend/" + order + "/" + key, "resend/" + other + "/" + otherKey;
    assert ProviderKey(order, Some(key)) == mine && ProviderKey(other, Some(otherKey)) == theirs;
    assert mine[7..] == order + "/" + key && theirs[7..] == other + "/" + otherKey;
    if mine == theirs {
      if order == other {
        assert mine[8 + |order|..] == key && theirs[8 + |order|..] == otherKey;
      } else {
        SlashSplits(order, key, other, otherKey);
      }
    }
  }

  /** A provider that ignores a key it has already accepted sends a message for this request. */
  predicate Delivered(outbox: seq<Send>, k: nat)
    requires k < |outbox|
  {
    outbox[k].accepted && forall j | 0 <= j < k && outbox[j].key == outbox[k].key :: !outbox[j].accepted
  }

  /** However often automatic delivery is retried, interrupted or lost, a provider that
      deduplicates by key delivers at most one automatic message per order. */
  lemma AutomaticMailAtMostOnce(outbox: seq<Send>, j: nat, k: nat)
    requires KeysByKind(outbox) && j < |outbox| && k < |outbox|
    requires !outbox[j].byAdmin && !outbox[k].byAdmin && outbox[j].order == outbox[k].order
    requires Delivered(outbox, j) && Delivered(outbox, k)
    ensures j == k
  {
    assert outbox[j].key == outbox[k].key;
  }

  /** The same for the admin sends of one order under one admin key. */
  lemma AdminMailAtMostOnce(outbox: seq<Send>, j: nat, k: nat)
    requires KeysByKind(outbox) && j < |outbox| && k < |outbox|
    requires outbox[j].byAdmin && outbox[k].byAdmin && outbox[j].order == outbox[k].order
    requires outbox[j].resend == outbox[k].resend
    requires Delivered(outbox, j) && Delivered(outbox, k)
    ensures j == k
  {
    assert outbox[j].key == outbox[k].key;
  }

  /** An admin resend that reaches the provider is delivered, unless one under the same key already was, whatever
      was sent for this or other orders under other keys. */
  lemma NewResendIsDelivered(s: State, order: string, key: string, reply: MailReply)
    requires KeysByKind(s.outbox) && key != "" && '/' !in order
    requires forall k | 0 <= k < |s.outbox| :: '/' !in s.outbox[k].order
    requires Deliver(s, order, Some(key), reply).0.outbox != s.outbox && Reached(reply)
    requires forall k | 0 <= k < |s.outbox| && s.outbox[k].order == order && s.outbox[k].resend == Some(key) ::
      !s.outbox[k].accepted
    ensures var outbox := Deliver(s, order, Some(key), reply).0.outbox;
      |outbox| == |s.outbox| + 1 && Delivered(outbox, |s.outbox|)
  {
    var outbox := Deliver(s, order, Some(key), reply).0.outbox;
    DeliverShape(s, order, Some(key), reply);
    forall j | 0 <= j < |s.outbox| && s.outbox[j].key == ProviderKey(order, Some(key)) ensures !s.outbox[j].accepted {
      var send := s.outbox[j];
      if send.byAdmin {
        assert send.key == ProviderKey(send.order, send.resend);
        AdminKeysApart(order, key, send.order, send.resend.value);
      } else {
        KeyKinds(order, send.order, key);
      }
    }
  }

  /** An order's automatic key is used by its automatic sends and by nothing else. */
  lemma AutomaticKeyIsOwn(outbox: seq<Send>, k: nat, order: string)
    requires KeysByKind(outbox) && k < |outbox|
    ensures outbox[k].key == "delivery/" + order <==> !outbox[k].byAdmin && outbox[k].order == order
  {
    KeyKinds(outbox[k].order, order, "");
    if outbox[k].byAdmin {
      KeyKinds(outbox[k].order, order, outbox[k].resend.value);
    }
  }

  /** An order is blocked exactly when it was refused at some point and nothing was sent or resent for it since. */
  lemma {:induction false} BlockedExactly(audit: seq<Audit>, order: string)
    ensures Blocked(audit, order) <==>
      exists a | 0 <= a < |audit| :: audit[a].event == EmailBlocked(order) && NotSentAfter(audit, a, order)
  {
    if audit != [] {
      var n := |audit| - 1;
      var front := audit[..n];
      BlockedExactly(front, order);
      if audit[n].event == EmailBlocked(order) {
        assert NotSentAfter(audit, n, order);
      } else {
        forall a | 0 <= a < n
          ensures NotSentAfter(audit, a, order) <==> NotSentAfter(front, a, order) && !SentTo(audit[n].event, order)
        {
          assert forall b | a < b < n :: front[b] == audit[b];
        }
        assert forall a | 0 <= a < n :: front[a] == audit[a];
      }
    }
  }

  predicate SentTo(e: Event, order: string) {
    match e
    case EmailSent(o) => o == order
    case EmailResent(o, _) => o == order
    case _ => false
  }

  ghost predicate NotSentAfter(audit: seq<Audit>, a: nat, order: string) {
    forall b | a < b < |audit| :: !SentTo(audit[b].event, order)
  }

  lemma {:induction false} LatestMailAppend(audit: seq<Audit>, more: seq<Audit>, order: string)
    requires forall a | 0 <= a < |more| :: !MailEvent(more[a].event, order)
    ensures LatestMail(audit + more, order) == LatestMail(audit, order)
  {
    if more == [] {
      assert audit + more == audit;
    } else {
      var n := |more| - 1;
      assert (audit + more)[..|audit| + n] == audit + more[..n];
      LatestMailAppend(audit, more[..n], order);
    }
  }

  /** What one delivery can do to the mail log of any order. */
  lemma DeliverEffect(s: State, order: string, resend: Option<string>, reply: MailReply, other: string)
    ensures var (after, result) := Deliver(s, order, resend, reply);
      && (Blocked(s.audit, order) && !Truthy(resend) ==> after == s)
      && (other != order ==> LatestMail(after.audit, other) == LatestMail(s.audit, other))
      && (Blocked(s.audit, other) && !Blocked(after.audit, other) ==>
            other == order && Truthy(resend) && reply.Accepted? && result == Ok(true)
            && HasEvent(after.audit, EmailResent(order, resend.value)))
      && (forall k | |s.outbox| <= k < |after.outbox| ::
            after.outbox[k].order == order && after.outbox[k].byAdmin == Truthy(resend))
  {
    var (after, result) := Deliver(s, order, resend, reply);
    var more := after.audit[|s.audit|..];
    assert after.audit == s.audit + more;
    if other != order || reply.Unavailable? || more == [] {
      LatestMailAppend(s.audit, more, other);
    } else if reply.Accepted? && Truthy(resend) {
      assert after.audit[|s.audit| + 1].event == EmailResent(order, resend.value);
    }
  }

  /** The provider is called exactly for a fulfilled order that is either unsent and not blocked, or
      being resent by an administrator under a key that has not been accepted before. An accepted call
      stamps the order and records it as sent; a refusal blocks it; otherwise it may be retried. */
  lemma ProviderCalledExactly(s: State, order: string, resend: Option<string>, reply: MailReply)
    ensures var (after, result) := Deliver(s, order, resend, reply);
      var i := FindOrder(s.purchases, order);
      var called := after.outbox != s.outbox;
      && (i.Some? ==> i.value < |s.purchases|)
      && var due := i.Some? && s.purchases[i.value].status == FULFILLED
        && if resend.Some? && resend.value != "" then
             forall a | 0 <= a < |s.audit| :: s.audit[a].event != EmailResent(order, resend.value)
           else s.purchases[i.value].emailSentAt.None? && !Blocked(s.audit, order);
      && (called <==> due)
      && (!called ==> after == s)
      && |after.purchases| == |s.purchases|
      && (called && reply.Accepted? ==> result == Ok(true) && !Blocked(after.audit, order))
      && (called && reply.Accepted? && i.Some? ==> after.purchases[i.value].emailSentAt == Some(s.clock))
      && (called && reply.Rejected? ==> Blocked(after.audit, order))
      && (called && !reply.Accepted? ==> result.Err? && after.purchases == s.purchases)
  {
    FindOrderExact(s.purchases, order);
    var (after, _) := Deliver(s, order, resend, reply);
    if after != s {
      var n := |after.audit|;
      assert reply.Accepted? ==> MailEvent(after.audit[n - 1].event, order);
    }
  }

  /** Every answer of a delivery, and what each provider call leaves in the log and on the order. */
  lemma DeliveryAnswers(s: State, order: string, resend: Option<string>, reply: MailReply)
    ensures var (after, result) := Deliver(s, order, resend, reply);
      var i := FindOrder(s.purchases, order);
      var byAdmin := resend.Some? && resend.value != "";
      && (i.Some? ==> i.value < |s.purchases|)
      && if i.None? then result == Err(NotFoundError)
         else
           var p := s.purchases[i.value];
           if p.status != FULFILLED then result == if byAdmin then Err(FulfillmentError) else Ok(false)
           else if after.outbox == s.outbox then
             result == if p.emailSentAt.None? && !byAdmin then Err(EmailDeliveryBlocked) else Ok(true)
           else
             var key := if byAdmin then "resend/" + order + "/" + resend.value else "delivery/" + order;
             var taken := match reply case Accepted(_) => true case Rejected => false
               case Unavailable(reached) => reached case Interrupted(reached) => reached;
             && after.outbox == s.outbox + [Send(order, key, byAdmin, resend, taken)]
             && match reply
             case Accepted(id) =>
               && result == Ok(true)
               && after.purchases == s.purchases[i.value := p.(emailSentAt := Some(s.clock))]
               && after.audit == s.audit + [
                    Audit(EmailAccepted(order, id), s.clock),
                    Audit(if byAdmin then EmailResent(order, resend.value) else EmailSent(order), s.clock)]
             case Rejected =>
               && result == Err(EmailDeliveryBlocked)
               && after.purchases == s.purchases && after.audit == s.audit + [Audit(EmailBlocked(order), s.clock)]
             case Unavailable(_) =>
               && result == Err(IntegrationError)
               && after.purchases == s.purchases && after.audit == s.audit + [Audit(EmailFailed(order), s.clock)]
             case Interrupted(_) => result == Err(Crashed) && after.purchases == s.purchases && after.audit == s.audit
  {
    FindOrderExact(s.purchases, order);
  }

  ghost predicate DistinctOrders(purchases: seq<Purchase>) {
    forall i, j | 0 <= i < j < |purchases| :: purchases[i].publicId != purchases[j].publicId
  }

  /** What a delivery that called the provider changed. */
  lemma DeliverShape(s: State, order: string, resend: Option<string>, reply: MailReply)
    requires Deliver(s, order, resend, reply).0 != s
    ensures var after := Deliver(s, order, resend, reply).0;
      var i := FindOrder(s.purchases, order).value;
      && FindOrder(s.purchases, order).Some? && i < |s.purchases|
      && s.purchases[i].publicId == order && s.purchases[i].status == FULFILLED
      && |after.purchases| == |s.purchases|
      && (forall j | 0 <= j < |s.purchases| && j != i :: after.purchases[j] == s.purchases[j])
      && after.purchases[i] == s.purchases[i].(emailSentAt := after.purchases[i].emailSentAt)
      && (if reply.Accepted? then after.purchases[i].emailSentAt.Some?
          else after.purchases[i].emailSentAt == s.purchases[i].emailSentAt)
      && |s.audit| <= |after.audit| <= |s.audit| + 2
      && after.audit[..|s.audit|] == s.audit
      && (forall a | |s.audit| <= a < |after.audit| :: after.audit[a].event.EmailBlocked? ||
            after.audit[a].event.EmailFailed? || after.audit[a].event.EmailAccepted? ||
            (a == |s.audit| + 1 && SentEvent(after.audit[a].event, order)
              && if Truthy(resend) then after.audit[a].event == EmailResent(order, resend.value)
                 else after.audit[a].event == EmailSent(order)))
      && (reply.Accepted? <==> |after.audit| == |s.audit| + 2)
      && (reply.Accepted? ==> SentEvent(after.audit[|s.audit| + 1].event, order))
      && (if Truthy(resend) then !HasEvent(s.audit, EmailResent(order, resend.value))
          else s.purchases[i].emailSentAt.None?)
      && after.outbox == s.outbox + [
           Send(order, ProviderKey(order, resend), Truthy(resend), resend, Reached(reply))]
  {
    FindOrderExact(s.purchases, order);
  }

  /** Delivery keeps the mail log consistent. */
  lemma DeliverKeepsMail(s: State, order: string, resend: Option<string>, reply: MailReply)
    requires MailInv(s) && DistinctOrders(s.purchases)
    ensures MailInv(Deliver(s, order, resend, reply).0)
  {
    if Deliver(s, order, resend, reply).0 != s {
      DeliverKeepsStamps(s, order, resend, reply);
      DeliverKeepsSentOnce(s, order, resend, reply);
      DeliverKeepsFulfilled(s, order, resend, reply);
      DeliverShape(s, order, resend, reply);
    }
  }

  lemma DeliverKeepsStamps(s: State, order: string, resend: Option<string>, reply: MailReply)
    requires StampsMatchLog(s) && DistinctOrders(s.purchases) && Deliver(s, order, resend, reply).0 != s
    ensures StampsMatchLog(Deliver(s, order, resend, reply).0)
  {
    var after := Deliver(s, order, resend, reply).0;
    DeliverShape(s, order, resend, reply);
    var i := FindOrder(s.purchases, order).value;
    forall j | 0 <= j < |after.purchases|
      ensures after.purchases[j].emailSentAt.Some? <==> WasSent(after.audit, after.purchases[j].publicId)
    {
      WasSentGrows(s.audit, after.audit, after.purchases[j].publicId);
    }
  }

  lemma DeliverKeepsSentOnce(s: State, order: string, resend: Option<string>, reply: MailReply)
    requires SentOnce(s.audit) && StampsMatchLog(s) && Deliver(s, order, resend, reply).0 != s
    ensures SentOnce(Deliver(s, order, resend, reply).0.audit)
  {
    var after := Deliver(s, order, resend, reply).0;
    DeliverShape(s, order, resend, reply);
    assert forall a | 0 <= a < |s.audit| :: after.audit[a] == s.audit[a];
    forall a, b | 0 <= a < b < |after.audit| && (after.audit[a].event.EmailSent? || after.audit[a].event.EmailResent?)
      ensures after.audit[a].event != after.audit[b].event
    {
      if b >= |s.audit| && after.audit[b].event == EmailSent(order) && a < |s.audit| {
        assert !WasSent(s.audit, order);
        assert !SentEvent(s.audit[a].event, order);
      }
    }
  }

  lemma DeliverKeepsFulfilled(s: State, order: string, resend: Option<string>, reply: MailReply)
    requires MailForFulfilled(s) && Deliver(s, order, resend, reply).0 != s
    ensures MailForFulfilled(Deliver(s, order, resend, reply).0)
  {
    var after := Deliver(s, order, resend, reply).0;
    DeliverShape(s, order, resend, reply);
    var i := FindOrder(s.purchases, order).value;
    assert after.purchases[i].publicId == order && IsOrder(after.purchases, order);
    forall x | IsOrder(s.purchases, x) ensures IsOrder(after.purchases, x) {
      var j :| 0 <= j < |s.purchases| && s.purchases[j].publicId == x && s.purchases[j].status == FULFILLED;
      assert after.purchases[j].publicId == x;
    }
    assert forall a | 0 <= a < |s.audit| :: after.audit[a] == s.audit[a];
    assert forall k | 0 <= k < |s.outbox| :: after.outbox[k] == s.outbox[k];
  }

  lemma WasSentGrows(audit: seq<Audit>, after: seq<Audit>, order: string)
    requires |audit| <= |after| && after[..|audit|] == audit
    ensures WasSent(audit, order) ==> WasSent(after, order)
    ensures WasSent(after, order) && !WasSent(audit, order) ==>
      exists a | |audit| <= a < |after| :: SentEvent(after[a].event, order)
  {
    assert forall a | 0 <= a < |audit| :: after[a] == audit[a];
  }

  class EmailService {
    const db: Database

    constructor (db: Database)
      ensures this.db == db
    {
      this.db := db;
    }

    method DeliverOrder(order: string, resend: Option<string>, reply: MailReply) returns (result: Result<bool, Error>)
      modifies db
      ensures (db.View(), result) == Deliver(old(db.View()), order, resend, reply)
    {
      var saved := db.View();
      var failure: Option<Error> := None;
      FindOrderExact(db.purchases, order);
      var row := FindOrder(db.purchases, order);
      if row.None? {
        return Err(NotFoundError);
      }
      var i := row.value;
      if db.purchases[i].status != FULFILLED {
        if Truthy(resend) {
          return Err(FulfillmentError);
        }
        return Ok(false);
      }
      if db.purchases[i].emailSentAt.Some? && !Truthy(resend) {
        return Ok(true);
      }
      if !Truthy(resend) && Blocked(db.audit, order) {
        return Err(EmailDeliveryBlocked);
      }
      if Truthy(resend) && HasEvent(db.audit, EmailResent(order, resend.value)) {
        return Ok(true);
      }
      var key := ProviderKey(order, resend);
      db.outbox := db.outbox + [Send(order, key, Truthy(resend), resend, Reached(reply))];
      match reply {
        case Rejected =>
          failure := Some(EmailDeliveryBlocked);
          db.Record(EmailBlocked(order));
        case Unavailable(_) =>
          failure := Some(IntegrationError);
          db.Record(EmailFailed(order));
        case Accepted(messageId) =>
          db.purchases := db.purchases[i := db.purchases[i].(emailSentAt := Some(db.clock))];
          db.Record(EmailAccepted(order, messageId));
          db.Record(if Truthy(resend) then EmailResent(order, resend.value) else EmailSent(order));
          assert db.audit == Deliver(saved, order, resend, reply).0.audit;
        case Interrupted(_) =>
          db.Rollback(saved);
          failure := Some(Crashed);
      }
      if failure.Some? {
        return Err(failure.value);
      }
      return Ok(true);
    }
  }
}
