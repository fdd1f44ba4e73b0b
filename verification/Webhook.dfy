/** Dispatching one verified Stripe event (app/services/webhook_service.py). */
module Webhook {
  import opened Basics
  import opened Tables
  import opened Fulfillment
  import opened Email

  datatype EventKind =
    | SessionCompleted
    | AsyncPaymentSucceeded
    | AsyncPaymentFailed
    | SessionExpired
    | Unsupported

  /** Payment first, delivery second; a delivery failure is swallowed, a refused payment is not. */
  function Process(s: State, kind: EventKind, session: Option<Checkout>, today: Date, draws: seq<nat>, reply: MailReply)
    : (State, Result<(), Error>)
  {
    if kind == Unsupported then (s, Ok(()))
    else if session.None? then (s, Err(DomainError))
    else
      var c := session.value;
      if !Truthy(c.orderReference) then (s, Ok(()))
      else if kind == SessionCompleted || kind == AsyncPaymentSucceeded then
        if c.paymentStatus != Some("paid") then (s, Ok(()))
        else
          var (paid, outcome) := Pay(s, c, today, draws);
          match outcome
          case Err(e) => (paid, Err(e))
          case Ok(order) => (Deliver(paid, order, None, reply).0, Ok(()))
      else
        var (failed, outcome) := PayFailed(s, c);
        (failed, outcome)
  }

  predicate PaidKind(kind: EventKind) {
    kind == SessionCompleted || kind == AsyncPaymentSucceeded
  }

  predicate UnpaidKind(kind: EventKind) {
    kind == AsyncPaymentFailed || kind == SessionExpired
  }

  /** When an event is answered with an error: a supported one without a session, or of this shop whose payment, or
      failure, is refused, with that refusal. Events of other kinds, of other products, and completed sessions not
      yet paid change nothing; a delivery failure is never answered. */
  lemma ProcessAnswers(
    s: State, kind: EventKind, session: Option<Checkout>, today: Date, draws: seq<nat>, reply: MailReply)
    ensures var (after, result) := Process(s, kind, session, today, draws, reply);
      var ours := session.Some? && session.value.orderReference.Some? && session.value.orderReference.value != "";
      var paid := PaidKind(kind) && ours && session.value.paymentStatus == Some("paid");
      var unpaid := UnpaidKind(kind) && ours;
      && (PaidKind(kind) || UnpaidKind(kind) || kind == Unsupported)
      && (kind != Unsupported && session.None? ==> result == Err(DomainError) && after == s)
      && ((kind == Unsupported || session.Some?) && !paid && !unpaid ==> result == Ok(()) && after == s)
      && (paid ==> match Pay(s, session.value, today, draws).1
            case Err(e) => result == Err(e) && after == s
            case Ok(order) =>
              result == Ok(()) && after == Deliver(Pay(s, session.value, today, draws).0, order, None, reply).0)
      && (unpaid ==> result == PayFailed(s, session.value).1 && after == PayFailed(s, session.value).0)
  {
    if session.Some? {
      PaymentRecorded(s, session.value, today, draws);
    }
  }

  class WebhookService {
    const db: Database
    const fulfillment: FulfillmentService
    const email: EmailService

    constructor (db: Database, fulfillment: FulfillmentService, email: EmailService)
      requires fulfillment.db == db && email.db == db
      ensures this.db == db && Wired()
    {
      this.db, this.fulfillment, this.email := db, fulfillment, email;
    }

    predicate Wired() {
      fulfillment.db == db && email.db == db
    }

    method ProcessEvent(kind: EventKind, session: Option<Checkout>, today: Date, draws: seq<nat>, reply: MailReply)
      returns (result: Result<(), Error>)
      requires Wired()
      modifies db
      ensures (db.View(), result) == Process(old(db.View()), kind, session, today, draws, reply)
    {
      if kind == Unsupported {
        return Ok(());
      }
      if session.None? {
        return Err(DomainError);
      }
      var checkout := session.value;
      if !Truthy(checkout.orderReference) {
        return Ok(());
      }
      if kind == SessionCompleted || kind == AsyncPaymentSucceeded {
        if checkout.paymentStatus == Some("paid") {
          var paid := fulfillment.PaymentSucceeded(checkout, today, draws);
          if paid.Err? {
            return Err(paid.error);
          }
          var _ := email.DeliverOrder(paid.value, None, reply);
        }
        return Ok(());
      }
      result := fulfillment.PaymentFailed(checkout);
    }
  }
}
