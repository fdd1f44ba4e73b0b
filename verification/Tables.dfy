/** The rows of the marketplace database and the state every transaction acts on.

    A table is a sequence whose positions are its row ids: rows are only ever
    appended or replaced, never removed. Instants are microseconds and dates are
    proleptic ordinals, both counted from the first day of the calendar.
 */
module Tables {
  import opened Basics

  const MAX_ORDINAL := 3_652_059
  const SECOND := 1_000_000
  const DAY := 86_400_000_000
  /** The last instant a timestamp can hold. */
  const MAX_INSTANT := MAX_ORDINAL * DAY - 1

  /** The type of lead sold when none is named. */
  const LIFE_INSURANCE := "Life Insurance"

  type Date = day: int | 1 <= day <= MAX_ORDINAL witness 1

  datatype Error =
    | DomainError
    | NotFoundError
    | ValidationError
    | PricingRuleConflict
    | PricingRuleNotFound
    | InsufficientInventory
    | IntegrityError
    | RuntimeFailure
    | DateOverflow
    | FulfillmentError
    | IntegrationError
    | EmailDeliveryBlocked
    | EmailDeliveryError
    | ConfigurationError
    | SheetSyncError
    | SheetWriteError
    | SheetIdentityConflict
    | LeadEntryBusy
    | Crashed

  datatype Rule = Rule(
    minAge: int,
    maxAge: Option<int>,
    price: int,
    exclusionDays: int,
    sortOrder: int,
    active: bool)

  /** The Sheet-owned fields of a lead, after parsing. */
  datatype Record = Record(
    externalId: string,
    leadDate: Date,
    firstName: string,
    phone: string,
    lastName: Option<string>,
    email: Option<string>,
    municipality: Option<string>,
    insuranceType: string,
    source: Option<string>,
    campaign: Option<string>,
    language: Option<string>,
    notes: Option<string>)

  datatype Lead = Lead(fields: Record, sourceActive: bool, lastSyncedAt: Option<int>, updatedAt: int)

  datatype Status = PENDING | PAID | FULFILLED | FAILED | FULFILLMENT_FAILED

  datatype Buyer = Buyer(name: string, email: string, phone: Option<string>)

  datatype Purchase = Purchase(
    publicId: string,
    buyer: Buyer,
    insuranceType: string,
    municipality: Option<string>,
    quantity: int,
    price: int,
    total: int,
    checkoutId: Option<string>,
    intent: Option<string>,
    status: Status,
    createdAt: int,
    paidAt: Option<int>,
    fulfilledAt: Option<int>,
    emailSentAt: Option<int>)

  datatype Allocation = Allocation(
    purchase: nat,
    lead: nat,
    rule: nat,
    pricePaid: int,
    purchasedAt: int,
    excludedUntil: int)

  /** What an audit entry records; purchases are named by their public id. */
  datatype Event =
    | RuleCreated(rule: nat)
    | RuleUpdated(rule: nat)
    | FulfillmentFailed(order: string, reason: string, quantity: int)
    | ReconciliationAttempted(order: string)
    | EmailBlocked(order: string)
    | EmailFailed(order: string)
    | EmailAccepted(order: string, messageId: string)
    | EmailSent(order: string)
    | EmailResent(order: string, key: string)
    | SyncInvoked(run: nat)

  datatype Audit = Audit(event: Event, at: int)

  /** One request made to the email provider; the provider keeps it whatever the database does. */
  datatype Send = Send(order: string, key: string, byAdmin: bool, resend: Option<string>, accepted: bool)

  datatype Counters = Counters(created: nat, updated: nat, deactivated: nat, reactivated: nat)

  datatype Rejection = Rejection(row: nat, fields: set<string>)
  datatype Warning = Warning(row: nat, field: string)

  datatype RunStatus = Running | Succeeded | RunFailed

  /** What a sync run stores as its error message. */
  datatype RunNote = Quiet | Aborted(error: Error) | Report(rejected: seq<Rejection>, warnings: seq<Warning>)

  datatype SyncRun = SyncRun(
    startedAt: int,
    completedAt: Option<int>,
    status: RunStatus,
    rowsReceived: nat,
    counters: Counters,
    note: RunNote)

  datatype State = State(
    clock: int,
    rules: seq<Rule>,
    leads: seq<Lead>,
    purchases: seq<Purchase>,
    allocations: seq<Allocation>,
    audit: seq<Audit>,
    runs: seq<SyncRun>,
    outbox: seq<Send>)

  /** A Checkout session as Stripe reports it; a missing or mistyped field is `None`. */
  datatype Checkout = Checkout(
    id: Option<string>,
    clientReference: Option<string>,
    orderReference: Option<string>,
    status: Option<string>,
    paymentStatus: Option<string>,
    intent: Option<string>,
    currency: Option<string>,
    amountTotal: Option<int>,
    mode: Option<string>)

  /** The database and its clock. A transaction assigns the tables in place;
      `Rollback` is what `write_session` does when the body raises. */
  class Database {
    var clock: int
    var rules: seq<Rule>
    var leads: seq<Lead>
    var purchases: seq<Purchase>
    var allocations: seq<Allocation>
    var audit: seq<Audit>
    var runs: seq<SyncRun>
    var outbox: seq<Send>

    constructor (clock: int)
      ensures View() == State(clock, [], [], [], [], [], [], [])
    {
      this.clock := clock;
      rules, leads, purchases, allocations, audit, runs, outbox := [], [], [], [], [], [], [];
    }

    function View(): State
      reads this
    {
      State(clock, rules, leads, purchases, allocations, audit, runs, outbox)
    }

    /** Undoes every table write since `saved`; time and the provider's log stay. */
    method Rollback(saved: State)
      modifies this
      ensures View() == saved.(clock := old(clock), outbox := old(outbox))
    {
      rules, leads, purchases := saved.rules, saved.leads, saved.purchases;
      allocations, audit, runs := saved.allocations, saved.audit, saved.runs;
    }

    method Record(event: Event)
      modifies this`audit
      ensures audit == old(audit) + [Audit(event, clock)]
    {
      audit := audit + [Audit(event, clock)];
    }
  }

  function FindFrom(purchases: seq<Purchase>, publicId: string, i: nat): Option<nat>
    requires i <= |purchases|
    decreases |purchases| - i
  {
    if i == |purchases| then None
    else if purchases[i].publicId == publicId then Some(i)
    else FindFrom(purchases, publicId, i + 1)
  }

  /** The row with this public id; the column is unique. */
  function FindOrder(purchases: seq<Purchase>, publicId: string): Option<nat> {
    FindFrom(purchases, publicId, 0)
  }

  lemma {:induction false} FindFromExact(purchases: seq<Purchase>, publicId: string, i: nat)
    requires i <= |purchases|
    ensures var found := FindFrom(purchases, publicId, i);
      && (found.Some? ==> i <= found.value < |purchases| && purchases[found.value].publicId == publicId)
      && (found.None? ==> forall k | i <= k < |purchases| :: purchases[k].publicId != publicId)
    decreases |purchases| - i
  {
    if i < |purchases| && purchases[i].publicId != publicId {
      FindFromExact(purchases, publicId, i + 1);
    }
  }

  lemma FindOrderExact(purchases: seq<Purchase>, publicId: string)
    ensures var found := FindOrder(purchases, publicId);
      && (found.Some? ==> found.value < |purchases| && purchases[found.value].publicId == publicId)
      && (found.None? ==> forall k | 0 <= k < |purchases| :: purchases[k].publicId != publicId)
  {
    FindFromExact(purchases, publicId, 0);
  }
}
