# Lead marketplace: verified model

This project models the backend of the lead marketplace under `leadspr/` as one ledger and proves what it
promises over every run. The state is the database (pricing rules, leads, purchases, allocations, audit log,
sync runs), a clock that never goes back, and the mail provider's own record of what it was sent. A table is
a sequence whose positions are its row ids; rows are added or replaced, never removed.

How the files fit together:

- `Tables.dfy` has the rows, the state and the mutable `Database`; `Basics.dfy` and `Text.dfy` hold shared
  sequence, sorting and string facts.
- `Pricing.dfy`, `Inventory.dfy`, `Fulfillment.dfy`, `Checkouts.dfy`, `Email.dfy`, `Webhook.dfy`,
  `Reconciliation.dfy`, `Sync.dfy`, `SheetParser.dfy`, `SheetWriter.dfy`, `LeadEntry.dfy` and `Admin.dfy` follow
  the services of the same names. Each service is a class over the database whose methods change it step by
  step, with early returns, loops and rollback. Each method is proved to compute a function of the old state,
  and what the service promises is proved of that function.
- `Marketplace.dfy` is the state machine: a step is one committed (or rolled back) transaction, a run is any
  interleaving of steps. Its invariant is kept by every step. `Guarantees.dfy` states what follows for whole runs,
  and shows that webhooks, refreshes, sweeps and synchronizations are runs of those steps.
- `Fairness.dfy` says how soon the background sweep reaches and settles an order whatever else runs at the same
  time. `Witnesses.dfy` has the concrete states in which the code does less than one might expect.
- `PriceInput.dfy` is the price text of the admin form.

Instants are microseconds and dates are calendar ordinals. `write_session` is an atomic step: it takes the write
lock before it reads and undoes every table write when its body raises. Stripe, the Sheet and the mail provider
answer arbitrarily, an answer may be lost after it took effect, and a process may die inside the mail call. Random
draws, the business date, fresh public ids and the two library validators (ISO dates, email addresses) are inputs.

## Where the code and its promises differ

- Allocation computes `now + timedelta(days=exclusion_days)` and `exclusion_days` has no upper bound. When the sum
  passes the last representable instant the payment raises and is rolled back: `PaymentMayOverflow` is such a paid
  order with an eligible lead. `FulfilledForAnyDraw` gives the exact condition without the draw: with enough
  eligible leads the order is fulfilled whatever is drawn exactly when no eligible lead's window overflows, and for
  some draw exactly when enough of them fit.
- The sweep's promise for a fixed set of candidates does not survive late payments. A failed order is not final: its
  payment makes it a candidate again, ahead of orders that were attempted before. `LatePaymentDelays` is a run with
  no new order in which floor(r/10) + 1 uncontended sweeps pass the waiting order by. `SweepsReachEveryOrder` counts
  those payments, and new orders, in the bound, under any interleaving.
- A timed-out append that the Sheet applies after a retry has appended gives the lead two rows
  (`LateWriteRepeats`).
- A comment in `update` wants edited tiers to stay at distinct prices. `create` and `update` keep that;
  `update_batch` does not check it. `BatchMaySharePrice` is an accepted batch with two tiers at one price, and
  `BatchPricesExactly` says for every batch when the prices stay distinct.
- The `RuntimeError` for a lead without a rule can never be raised (`NoPaymentMissesItsRule`).
- The safe-integer bound in `parsePriceCents` never refuses anything: the 13-digit limit is the real one
  (`RefusedExactly`).

## Model

| member | source | states |
|---|---|---|
| Pricing.ValidateRangesExact | leadspr/backend/app/services/pricing_service.py:43-56 | `validate_ranges` accepts a list exactly when every rule is well formed and every age from 0 up is covered by exactly one active rule |
| Pricing.ValidateRangesOrderFree | leadspr/backend/app/services/pricing_service.py:43-56 | a list is accepted exactly when any rearrangement of it is |
| Pricing.CreateIsRigid | leadspr/backend/app/services/pricing_service.py:61-66 | in a partition only an inactive rule can be created, so no age changes its rule and distinct active prices stay distinct |
| Pricing.UpdateIsRigid | leadspr/backend/app/services/pricing_service.py:68-90 | an accepted single edit keeps the rule's activity, its active range, every age's rule and the distinctness of active prices |
| Pricing.CreateAcceptedExactly | leadspr/backend/app/services/pricing_service.py:61-66 | the first rule is accepted exactly when it alone covers every age, any later one exactly when it is well formed and inactive |
| Pricing.UpdateAcceptedExactly | leadspr/backend/app/services/pricing_service.py:68-90 | a patch is accepted exactly when it keeps the rule's activity and active range, stays well formed and moves its price onto no other active rule's; an accepted one writes each of the six fields it gives, a null upper age included, and keeps the others and every other rule |
| Pricing.EditErrors | leadspr/backend/app/services/pricing_service.py:61-90 | which error each rejected creation or edit raises |
| Pricing.BatchAcceptedExactly | leadspr/backend/app/services/pricing_service.py:92-98 | a batch is accepted exactly when it names every existing rule once and its rules partition all ages |
| Pricing.UpdateBatchExact | leadspr/backend/app/services/pricing_service.py:92-110 | an accepted batch leaves exactly the submitted rules, each existing id on its own rule, as a partition of all ages |
| Pricing.BatchPricesExactly | leadspr/backend/app/services/pricing_service.py:92-110 | a batch keeps active prices distinct exactly when the submitted active prices are distinct |
| Pricing.BatchMaySharePrice | leadspr/backend/app/services/pricing_service.py:92-110 | a concrete accepted batch with two active tiers at one price |
| Pricing.EditsLeaveAPartition | leadspr/backend/app/services/pricing_service.py:61-110 | whatever the rules were, every accepted edit leaves a partition of all ages |
| Pricing.ApplicableRuleUnique | leadspr/backend/app/services/pricing_service.py:25-41 | in a configured table the rule looked up for a nonfuture lead is the one active rule covering its age, and a future lead has none |
| Pricing.ActiveListExact | leadspr/backend/app/repositories/pricing_rule_repository.py:11-15 | the active list holds exactly the active rules, once each |
| Pricing.ListsAreOrdered | leadspr/backend/app/repositories/pricing_rule_repository.py:11-15 | both lists are complete and ordered by sort order, then id |
| Pricing.PricingService.CreateRule | leadspr/backend/app/services/pricing_service.py:61-66 | appends the rule and its audit entry, or rejects and changes nothing |
| Pricing.PricingService.UpdateRule | leadspr/backend/app/services/pricing_service.py:68-90 | replaces one rule by the merged patch with its audit entry, or rejects and changes nothing, each error in its case |
| Pricing.PricingService.UpdateRules | leadspr/backend/app/services/pricing_service.py:92-110 | writes every submitted rule to its row with one audit entry each, or rejects and changes nothing |
| Pricing.RuleEventsExact | leadspr/backend/app/services/pricing_service.py:99-109 | a batch records one audit entry per item, in order, naming the row it was written to |
| Inventory.AgeConditionExact | leadspr/backend/app/repositories/lead_repository.py:14-23 | the clamped date range of an active rule selects exactly the ages the rule covers, ages beyond the calendar's first day included |
| Inventory.RowsBelowExact | leadspr/backend/app/repositories/lead_repository.py:25-51 | the eligibility query returns each eligible row once and no other |
| Inventory.SellableExactly | leadspr/backend/app/repositories/lead_repository.py:33-51 | a lead may be sold exactly when it is active, of the type and municipality asked for, not dated in the future and in no open exclusion window |
| Inventory.QueryExactly | leadspr/backend/app/services/inventory_service.py:23-42 | a query fails exactly for a price no active rule has, and otherwise returns exactly the sellable leads that an active rule, of that price, covers |
| Inventory.QuantityExactly | leadspr/backend/app/services/inventory_service.py:47-50 | a quantity is refused unless positive and no more than the query returns, and with which error |
| Inventory.TierOfLead | leadspr/backend/app/services/inventory_service.py:23-42 | a sellable lead is returned by the query of one price only, that of the rule `applicable_rule` gives its date, and by the query without a price |
| Inventory.SummaryAgrees | leadspr/backend/app/services/inventory_service.py:52-79 | one tier per active price, each counting exactly what its price query returns, and the tiers add up to all eligible leads |
| Inventory.TierListsRanges | leadspr/backend/app/services/inventory_service.py:56-78 | a tier lists the age range of every active rule at its price, once each, in list order |
| Inventory.InventoryService.Summary | leadspr/backend/app/services/inventory_service.py:52-79 | the accumulating loop over rules and the in-place tier updates compute those tiers |
| Inventory.RandomSelectionDistinct | leadspr/backend/app/repositories/lead_repository.py:56-58 | any draws give distinct rows of the query |
| Inventory.RandomSelectionLength | leadspr/backend/app/repositories/lead_repository.py:56-58 | a selection has as many rows as asked for, or all there are |
| Inventory.RandomSelectionComplete | leadspr/backend/app/repositories/lead_repository.py:56-58 | every choice of distinct rows is the outcome of some draws |
| Fulfillment.FulfilledExactly | leadspr/backend/app/services/fulfillment_service.py:50-89 | once the payment checks pass the order is fulfilled exactly when enough eligible leads exist, unless a drawn lead's window overflows, the only error left, which changes nothing |
| Fulfillment.FulfilledForAnyDraw | leadspr/backend/app/services/fulfillment_service.py:60-89 | with enough eligible leads, every draw fulfils the order exactly when no eligible lead's window overflows, and some draw does exactly when enough of them fit |
| Fulfillment.NoneFits | leadspr/backend/app/services/fulfillment_service.py:72-85 | when every eligible lead's window overflows, the payment always raises and changes nothing |
| Fulfillment.AllocationsCoherent | leadspr/backend/app/services/fulfillment_service.py:60-87 | each new allocation is a sellable lead, its recorded rule is the only active rule covering the lead's age, and that rule's price is the price paid |
| Fulfillment.AllocateExact | leadspr/backend/app/services/fulfillment_service.py:71-85 | the allocation rows pair the drawn leads, in order, with their rules and windows |
| Fulfillment.AllocateFails | leadspr/backend/app/services/fulfillment_service.py:73-85 | allocation fails exactly when some drawn lead's window overflows |
| Fulfillment.PaymentRecorded | leadspr/backend/app/services/fulfillment_service.py:29-89 | what an accepted payment writes on the order and the audit log in each outcome, a mismatch exactly when currency, amount or mode differ from what was charged, that no other order changes, and that an error changes nothing |
| Fulfillment.BindExactly | leadspr/backend/app/services/fulfillment_service.py:97-114 | a session names an order exactly when metadata and client reference are its public id, the id is a Checkout id and the order has no other session; and the error otherwise |
| Fulfillment.PaymentRefusedExactly | leadspr/backend/app/services/fulfillment_service.py:30-50 | exactly when a payment is refused before anything is recorded, and with which error |
| Fulfillment.PaymentFailedExactly | leadspr/backend/app/services/fulfillment_service.py:91-95 | a failed or expired session binds its id and turns only a pending order failed; an error changes nothing |
| Fulfillment.FulfillmentService.FindAndBind | leadspr/backend/app/services/fulfillment_service.py:97-114 | names the one order every reference agrees on and stores the session id, or fails and changes nothing |
| Fulfillment.FulfillmentService.PaymentSucceeded | leadspr/backend/app/services/fulfillment_service.py:29-89 | the step-by-step settlement with its rollbacks is one all-or-nothing transaction |
| Fulfillment.FulfillmentService.AllocateLeads | leadspr/backend/app/services/fulfillment_service.py:71-85 | the loop adds one allocation row per drawn lead or stops at the first error |
| Fulfillment.FulfillmentService.PaymentFailed | leadspr/backend/app/services/fulfillment_service.py:91-95 | the failure transaction, with its rollback on a taken session id |
| Checkouts.OpenExact | leadspr/backend/app/services/purchase_service.py:25-58 | an order is opened exactly when the quantity is positive and for sale at its price; it is pending, holds the request's data, an unused id, an active price and a total that multiplies out, and reserves no lead |
| Checkouts.SecondTransaction | leadspr/backend/app/services/purchase_service.py:59-72 | after the Stripe call only the order's session id or its failed status is written, the latter only while it is pending |
| Checkouts.PurchaseService.CreateCheckout | leadspr/backend/app/services/purchase_service.py:25-75 | two transactions around the Stripe call: the order is committed first, then linked to its session or failed if still pending |
| Webhook.WebhookService.ProcessEvent | leadspr/backend/app/services/webhook_service.py:17-51 | dispatch of one event: payment before delivery, delivery failures swallowed, refused payments raised, foreign events ignored |
| Webhook.ProcessAnswers | leadspr/backend/app/services/webhook_service.py:17-51 | which events are answered with an error, which change nothing, and that a delivery failure is never answered |
| Email.ProviderCalledExactly | leadspr/backend/app/services/email_service.py:47-122 | the provider is called exactly when an order is fulfilled and unsent and not blocked, or resent under a new key, and what each answer records |
| Email.DeliveryAnswers | leadspr/backend/app/services/email_service.py:47-122 | every answer of a delivery, and the log entries and stamp each provider answer leaves |
| Email.BlockedExactly | leadspr/backend/app/services/email_service.py:25-40 | an order is blocked exactly when it was refused at some point and nothing was sent or resent since |
| Email.DeliverEffect | leadspr/backend/app/services/email_service.py:25-40 | a delivery touches no other order's latest mail entry, and only an accepted admin resend lifts a block |
| Email.DeliverKeepsMail | leadspr/backend/app/services/email_service.py:107-118 | stamps match the log, no sent or resent entry repeats, mail is for fulfilled orders, keys follow their kind |
| Email.AutomaticMailAtMostOnce | leadspr/backend/app/services/email_service.py:72-75 | a provider that deduplicates by key delivers at most one automatic message per order, crashes and lost answers included |
| Email.AutomaticKeyIsOwn | leadspr/backend/app/services/email_service.py:72-72 | an order's automatic key is used by its automatic sends and by nothing else |
| Email.AdminKeysApart | leadspr/backend/app/services/email_service.py:72-72 | two admin requests carry the same provider key exactly when they are for the same order under the same admin key |
| Email.AdminMailAtMostOnce | leadspr/backend/app/services/email_service.py:63-75 | a deduplicating provider delivers at most one resend per order and admin key |
| Email.NewResendIsDelivered | leadspr/backend/app/services/email_service.py:63-75 | a resend that reaches the provider under a key not accepted before is delivered, whatever was sent under other keys |
| Email.EmailService.DeliverOrder | leadspr/backend/app/services/email_service.py:47-122 | one delivery transaction around the provider call, failure evidence kept, a crash rolled back |
| Reconciliation.GateExact | leadspr/backend/app/services/checkout_reconciliation_service.py:60-81 | a refresh records an attempt exactly when the order is open, not blocked, and every earlier attempt lies fifteen seconds back |
| Reconciliation.RefreshAnswers | leadspr/backend/app/services/checkout_reconciliation_service.py:49-104 | what a refresh answers: which failures are raised as what, and which are not errors |
| Reconciliation.RetrievesExactly | leadspr/backend/app/services/checkout_reconciliation_service.py:82-84 | a refresh that does not ask Stripe does the same whatever Stripe would have answered |
| Reconciliation.EnterKeepsSpacing | leadspr/backend/app/services/checkout_reconciliation_service.py:70-81 | recorded attempts of one order stay at least fifteen seconds apart |
| Reconciliation.CooldownBound | leadspr/backend/app/services/checkout_reconciliation_service.py:70-81 | a window of length T holds at most floor(T/15 s) + 1 attempts of an order |
| Reconciliation.RefreshTouches | leadspr/backend/app/services/checkout_reconciliation_service.py:60-104 | a refresh changes its own order only, and Stripe is asked only after an attempt was recorded |
| Reconciliation.CandidateExactly | leadspr/backend/app/services/checkout_reconciliation_service.py:120-133 | the sweep looks at orders of the last seven days that are not blocked and either unsettled or unsent |
| Reconciliation.SweepOrder | leadspr/backend/app/services/checkout_reconciliation_service.py:109-132 | orders never attempted come first, then those attempted longest ago, equal ones by age |
| Reconciliation.SelectedExactly | leadspr/backend/app/services/checkout_reconciliation_service.py:117-133 | a query takes the first ten candidates, or all when there are fewer |
| Reconciliation.RoundAdvances | leadspr/backend/app/services/checkout_reconciliation_service.py:106-133 | a candidate that a sweep passes over moves ten places up the order, less the number of orders that joined meanwhile |
| Reconciliation.CheckoutReconciliationService.RefreshOrder | leadspr/backend/app/services/checkout_reconciliation_service.py:49-104 | one refresh: gate, Stripe, settlement, delivery, with its errors |
| Reconciliation.CheckoutReconciliationService.RecoverPending | leadspr/backend/app/services/checkout_reconciliation_service.py:106-143 | the sweep refreshes each selected order in turn and no error stops the loop |
| SheetParser.ReadValues | leadspr/backend/app/integrations/google_sheets/parser.py:53-70 | the header checks and the row-building loop, with their errors |
| SheetParser.ReadExactly | leadspr/backend/app/integrations/google_sheets/parser.py:53-70 | a Sheet is read exactly when its nonblank headers are distinct and include the required ones and no line goes beyond them; each line becomes one row |
| SheetParser.RowMapExactly | leadspr/backend/app/integrations/google_sheets/parser.py:67-69 | a row has the cell below each nonblank header, none where the line is short, and nothing else |
| SheetParser.HeadersExactly | leadspr/backend/app/integrations/google_sheets/parser.py:56-56 | header texts are stripped and lower-cased, a missing one counting as text |
| SheetParser.OverflowsExactly | leadspr/backend/app/integrations/google_sheets/parser.py:65-66 | a line is refused exactly for a cell beyond the header that is missing or not blank |
| Text.StripExact | leadspr/backend/app/integrations/google_sheets/parser.py:45-50 | stripping takes away the blanks at both ends, and all of them |
| Text.CleanCellExactly | leadspr/backend/app/integrations/google_sheets/parser.py:45-50 | texts and numbers are read as their stripped text, empty ones as nothing, other values are refused |
| Text.LowerExact | leadspr/backend/app/integrations/google_sheets/parser.py:56-56 | header letters A to Z are lower-cased and every other character kept |
| Text.IsSpaceExactly | leadspr/backend/app/integrations/google_sheets/parser.py:50-50 | the characters that count as blank, by code point |
| SheetParser.BlankRowExactly | leadspr/backend/app/integrations/google_sheets/parser.py:77-78 | a row is skipped exactly when every cell of it is missing or blank |
| SheetParser.CleanedExactly | leadspr/backend/app/integrations/google_sheets/parser.py:81-91 | the text of a column is its stripped cell, or nothing when missing, blank or unusable |
| SheetParser.Parse | leadspr/backend/app/integrations/google_sheets/parser.py:73-121 | the parsing loop with its growing lists and `seen` set |
| SheetParser.InvalidExactly | leadspr/backend/app/integrations/google_sheets/parser.py:79-116 | exactly the required columns for which a row is rejected |
| SheetParser.FieldsByColumn | leadspr/backend/app/integrations/google_sheets/parser.py:79-112 | each field of an accepted lead comes from its own column; the email is the validator's stripped answer, and none when it refuses |
| SheetParser.RowWarningsExactly | leadspr/backend/app/integrations/google_sheets/parser.py:81-105 | a row is warned about, once each, for an unusable optional cell and a refused email |
| SheetParser.ParseWarnings | leadspr/backend/app/integrations/google_sheets/parser.py:73-121 | the warnings of a parse are those of its nonblank rows, once each, under their physical numbers |
| SheetParser.ParseSplitsRows | leadspr/backend/app/integrations/google_sheets/parser.py:73-121 | each nonblank row gives exactly one lead or rejection, in order, from its own row and with its physical number; lead ids are distinct |
| SheetParser.ParseAbortsOnSharedId | leadspr/backend/app/integrations/google_sheets/parser.py:92-96 | parsing aborts exactly when two nonblank rows share a cleaned id |
| SheetWriter.AppendRoundTrip | leadspr/backend/app/integrations/google_sheets/client.py:33-42 | for any accepted header order, appending the written line and parsing again gives the old result followed by exactly that lead on the columns present |
| SheetWriter.CleanedField | leadspr/backend/app/integrations/google_sheets/client.py:36-42 | reading any column of the written line gives the lead's field, wherever the column stands |
| SheetWriter.LineExactly | leadspr/backend/app/integrations/google_sheets/client.py:36-41 | a line can be written exactly when the header is accepted and has a column for each piece of contact data the lead carries |
| SheetWriter.LineByColumn | leadspr/backend/app/integrations/google_sheets/client.py:38-42 | each column of the written line holds the lead's own field, and other columns are blank |
| SheetWriter.AppendAddsOnce | leadspr/backend/app/integrations/google_sheets/client.py:89-154 | one attempt leaves existing rows alone and adds one row only if none carried the id |
| SheetWriter.AtMostOnce | leadspr/backend/app/integrations/google_sheets/client.py:105-154 | over any schedule of attempts and lost answers the Sheet keeps at most one row per id and never alters a row |
| SheetWriter.RetryAfterUncertainWrite | leadspr/backend/app/integrations/google_sheets/client.py:116-135 | once a write took effect, confirmed or not, a later retry with the same data appends nothing, whatever was written in between |
| SheetWriter.LateWriteRepeats | leadspr/backend/app/integrations/google_sheets/client.py:136-154 | a lost append applied after the retry's own append gives the id two rows |
| SheetWriter.GoogleSheetsClient.AppendLead | leadspr/backend/app/integrations/google_sheets/client.py:89-154 | reads, validates, compares, then appends at most one row to the upstream Sheet |
| SheetWriter.GoogleSheetsClient.FindOrCompare | leadspr/backend/app/integrations/google_sheets/client.py:108-135 | no row carries the id, or one does and agrees on the contact columns, or an identity conflict |
| SheetWriter.IdentityExactly | leadspr/backend/app/integrations/google_sheets/client.py:116-135 | a row with the id counts as saved exactly when names, phone, email, municipality and date agree; a differing or second row is a conflict |
| SheetWriter.SameContactAsLead | leadspr/backend/app/integrations/google_sheets/client.py:124-134 | for a lead's line, agreeing means the lead's own data on the columns there are |
| SheetWriter.AppendAnswers | leadspr/backend/app/integrations/google_sheets/client.py:89-154 | every answer of an append, and whether the row is there afterwards |
| Sync.CleanSnapshotAgrees | leadspr/backend/app/services/lead_sync_service.py:72-103 | after a run without rejections the active leads, with their Sheet fields, are exactly the snapshot (the last record of each id), whatever was there before; no row is removed or renamed |
| Sync.ParsedSnapshotAgrees | leadspr/backend/app/services/lead_sync_service.py:72-103 | a clean snapshot from the parser always applies, and the active leads are then exactly its leads |
| Sync.PartialSnapshotOnlyAdds | leadspr/backend/app/services/lead_sync_service.py:90-96 | with a rejection nothing is deactivated: active becomes active or parsed, and unmentioned rows are untouched |
| Sync.CountersBalance | leadspr/backend/app/services/lead_sync_service.py:72-97 | created + updated is the number of parsed leads; the active count changes by created + reactivated - deactivated |
| Sync.SnapshotRows | leadspr/backend/app/services/lead_sync_service.py:72-96 | what each row is after a snapshot, with its stamps |
| Sync.SnapshotIdempotent | leadspr/backend/app/services/lead_sync_service.py:72-103 | applying a clean snapshot again creates, reactivates and deactivates nothing |
| Sync.SyncExact | leadspr/backend/app/services/lead_sync_service.py:29-70 | a sync that was read and parsed applies its snapshot and succeeds exactly without rejections; any other leaves every lead alone and its run failed |
| Sync.SyncRecord | leadspr/backend/app/services/lead_sync_service.py:29-70 | the run record a sync leaves, its report, audit entry and the error it raises |
| Sync.LeadSyncService.SyncSheet | leadspr/backend/app/services/lead_sync_service.py:29-70 | the life of a run through its transactions |
| Sync.LeadSyncService.ApplyParsed | leadspr/backend/app/services/lead_sync_service.py:72-111 | the merge and deactivation loops with their counters, a known id repeated is updated again, a new one repeated is rolled back |
| LeadEntry.ReportIsTrue | leadspr/backend/app/services/lead_entry_service.py:28-80 | any answer means exactly one Sheet row for the entry; synced means active locally; available implies synced; an error changed no local table |
| LeadEntry.EntryAnswers | leadspr/backend/app/services/lead_entry_service.py:28-80 | a busy lock and a refused append are errors that touch no local table; a failed sync leaves the entry pending |
| LeadEntry.EntryLands | leadspr/backend/app/services/lead_entry_service.py:28-80 | once the row is in the Sheet, retries from any local state append nothing and, with a clean Sheet, report the entry synced: the local row holds the form's own fields under the request's id, available exactly when a rule, its date and no exclusion window allow |
| LeadEntry.LeadEntryService.Create | leadspr/backend/app/services/lead_entry_service.py:28-80 | append under the lock, then sync, then fill the response step by step |
| Admin.LatestWindowDecides | leadspr/backend/app/repositories/admin_repository.py:43-49 | comparing the latest window end with now agrees with the existence test used for eligibility |
| Admin.FiltersExact | leadspr/backend/app/repositories/admin_repository.py:50-73 | the clamped age and price filters pass a row exactly when its computed age and price do |
| Admin.ListIsExact | leadspr/backend/app/repositories/admin_repository.py:50-75 | the list holds, in id order, exactly the leads whose shown values pass the filter |
| Admin.ShownExactly | leadspr/backend/app/services/admin_service.py:74-84 | what is shown of a lead: its age, the price of the active rule covering it, its latest window and whether that is open |
| Admin.PageExactly | leadspr/backend/app/repositories/admin_repository.py:74-76 | a page starts at the offset, has at most the limit of rows and stops early only at the end |
| Admin.ShownIsSold | leadspr/backend/app/services/admin_service.py:74-84 | a lead is in the tier of a price exactly when the list shows it active, not excluded and at that price |
| Admin.AdminService.Leads | leadspr/backend/app/services/admin_service.py:67-91 | rejects a reversed age range, otherwise returns the page with its computed columns and the total |
| Admin.AdminService.Dashboard | leadspr/backend/app/services/admin_service.py:20-25 | the dashboard totals, with the inventory summed over the tiers |
| Admin.DashboardBalances | leadspr/backend/app/repositories/admin_repository.py:15-27 | in every run the available inventory counts exactly the leads shown as sellable and the revenue is what was paid over all allocations |
| Marketplace.StepKeeps | leadspr/backend/app/db/session.py:40-51 | every transaction of every service keeps the ledger invariant and moves time, rows, settled orders and logs only forward |
| Marketplace.RunKeeps | leadspr/backend/app/db/session.py:40-51 | so does any interleaving of them |
| Guarantees.ExclusiveAtEveryInstant | leadspr/backend/app/services/fulfillment_service.py:60-87 | in every run, at every instant, at most one allocation's window holds a given lead |
| Guarantees.OrdersBalance | leadspr/backend/app/services/fulfillment_service.py:53-89 | in every run a fulfilled order has exactly its quantity of distinct leads whose prices sum to its total, any other order has none, PAID is never committed, and revenue is what was paid over all allocations |
| Guarantees.OrderLifecycle | leadspr/backend/app/services/fulfillment_service.py:22-59 | settled orders stay settled and gain no lead, only pending orders become failed, and a payment intent once set stays and is no other order's |
| Guarantees.FulfilledOnlyWhenPaid | leadspr/backend/app/services/fulfillment_service.py:29-59 | in every run a fulfilled order was settled by a paid session naming it on every reference, for its exact total, under its intent |
| Guarantees.PaymentReplay | leadspr/backend/app/services/fulfillment_service.py:35-36 | once a payment was taken, delivering its session again after any run changes nothing at all |
| Guarantees.AlwaysConfigured | leadspr/backend/app/services/pricing_service.py:61-110 | in every run there are no rules or they partition all ages |
| Guarantees.NoPaymentMissesItsRule | leadspr/backend/app/services/fulfillment_service.py:73-77 | in every run the missing-rule error is unreachable |
| Guarantees.OnlyBatchesMoveAges | leadspr/backend/app/services/pricing_service.py:61-110 | without a batch no run changes which rule covers any age or makes two active rules share a price |
| Guarantees.BlockHolds | leadspr/backend/app/services/email_service.py:25-62 | while an order is blocked no webhook, refresh or sweep reaches the provider for it; only an accepted admin resend lifts the block |
| Guarantees.MailAtMostOnce | leadspr/backend/app/services/email_service.py:47-122 | in every run delivery stamps match the log, no sent entry repeats, and at most one automatic message per order and one resend per order and admin key is delivered |
| Guarantees.AttemptsBounded | leadspr/backend/app/services/checkout_reconciliation_service.py:60-81 | in every run the cooldown bound holds for every order and window |
| Guarantees.ProcessIsRun | leadspr/backend/app/services/webhook_service.py:34-50 | handling a webhook is a run of transactions, so it interleaves with any other |
| Guarantees.RefreshIsRun | leadspr/backend/app/services/checkout_reconciliation_service.py:60-104 | a refresh is a run of transactions |
| Guarantees.RefreshIsWebhook | leadspr/backend/app/services/checkout_reconciliation_service.py:83-97 | a refresh that finds its session paid leaves the state the missed webhook would have left |
| Guarantees.SyncIsRun | leadspr/backend/app/services/lead_sync_service.py:29-53 | a synchronization is a run of transactions |
| Guarantees.SweepKeeps | leadspr/backend/app/services/checkout_reconciliation_service.py:134-143 | a sweep keeps the ledger invariant |
| Fairness.NewcomerJoined | leadspr/backend/app/services/checkout_reconciliation_service.py:120-133 | the only steps that make an order a candidate are opening it and paying it after it failed |
| Fairness.VisitAttempts | leadspr/backend/app/services/checkout_reconciliation_service.py:60-81 | entering the refresh of a candidate that had rested leaves it attempted, by this caller or by the one that made it cool |
| Fairness.SweepIsRound | leadspr/backend/app/services/checkout_reconciliation_service.py:106-143 | an uncontended sweep, with any transactions between its refreshes, attempts every order it selected ahead of a rested one unless it stops being a candidate or joins again |
| Fairness.SweepAlone | leadspr/backend/app/services/checkout_reconciliation_service.py:134-143 | with nothing in between, that sweep is the loop of `recover_pending` |
| Fairness.SweepsReachEveryOrder | leadspr/backend/app/services/checkout_reconciliation_service.py:106-143 | with webhooks, refreshes, edits and syncs interleaved anywhere, an order of rank r is attempted or stops being a candidate within floor((r + j)/10) + 1 sweeps, where j counts the orders opened and the failed orders paid meanwhile |
| Fairness.SweepsReachWithoutJoins | leadspr/backend/app/services/checkout_reconciliation_service.py:106-143 | while no order is opened and no failed order is paid, floor(r/10) + 1 sweeps are enough |
| Fairness.SweepsSettlePaidOrder | leadspr/backend/app/services/checkout_reconciliation_service.py:83-97 | within the same bound an order that Stripe reports as paid is settled, not only attempted |
| Fairness.RetrievalsBounded | leadspr/backend/app/services/checkout_reconciliation_service.py:60-84 | whoever refreshes, Stripe is asked about one order at most floor(T/15 s) + 1 times from the attempts of a window of length T |
| Witnesses.LatePaymentDelays | leadspr/backend/app/services/checkout_reconciliation_service.py:106-143 | a concrete run without new orders in which a late payment makes floor(r/10) + 1 uncontended sweeps miss a waiting order |
| Witnesses.PaymentMayOverflow | leadspr/backend/app/services/fulfillment_service.py:78-85 | a concrete paid order with an eligible lead whose payment raises and is rolled back whatever is drawn |
| PriceInput.PrintThenParse | leadspr/frontend/src/lib/price-input.ts:2-13 | an amount prints to text that reads back as itself exactly from 1 cent up to the 13-digit limit, and is refused otherwise |
| PriceInput.ShapeExactly | leadspr/frontend/src/lib/price-input.ts:3-3 | the accepted shape by position: 1 to 13 digits, or those, a dot and one or two digits |
| PriceInput.ParsedIsExact | leadspr/frontend/src/lib/price-input.ts:2-9 | an accepted text denotes its cents exactly, within the limit, and re-prints to the same amount |
| PriceInput.RefusedExactly | leadspr/frontend/src/lib/price-input.ts:3-8 | a text is refused exactly for its shape or for denoting zero |
| PriceInput.FloatFloorExact | leadspr/frontend/src/lib/price-input.ts:11-13 | rounding in the floating-point division never changes the printed whole part |

## Left out

- HTTP routes, authentication, CORS, the Next.js proxy and the user interface: plumbing around the services.
- Stripe signature checks, Google credentials, provider status codes, mail templates: outside calls are reduced to the outcomes the services tell apart.
- A Stripe event whose `metadata` is null instead of missing, which raises an attribute error before any write.
- Row objects: tables hold values, so two variables aliasing one ORM object are not modelled; every write goes through the table.
- Column widths and the 64-bit range of the database's integers.
- The time zone database: the business date is an input of each transaction.
- SQLite locking, file locks and the scheduler: transactions are serial and atomic, and a lock is either free or busy.
- Automatic public-id generation: the drawn ids are an input, and a request whose draws are all taken is still drawing.
- Header text is lower-cased for the letters A to Z only; other letters stand for themselves.
- The order in which warnings of one row are listed, and the JSON text of a run's message: the report is kept as data.
- Reading the Sheet back returns the written text: dropped trailing blanks are covered by `AppendRoundTrip` but not by the append schedules, and a number the Sheet reformats is not.
- SheetWriter.AppendRoundTrip: assumes the library reads the ISO text it wrote for a date as that date and accepts an already normalised email unchanged.
- SheetWriter.AtMostOnce: an attempt's effect is settled when the attempt ends; a lost append that takes effect later is not among its schedules, and `LateWriteRepeats` shows that the code then writes twice.
- Fairness.SweepsReachEveryOrder: a sweep is taken to find each selected order's lock free and to run to its end; equal keys may be ordered either way, so the rank counts every candidate not after the order.
- Email.NewResendIsDelivered: public ids are taken to contain no slash, as the generated ones do (purchase_service.py:84-87); the key of one order never depends on it.
- Guarantees.PaymentReplay: Stripe's session ids are taken to be nonempty.
- Guarantees.MailAtMostOnce: that the provider deduplicates by key is assumed of the provider, as the source does.
- A process that dies between the transactions of a checkout, refresh or sync: any prefix of their steps is a run, so the run invariants hold of it, but nothing is proved about later repair of a run left running.
- Settings, logging, the seed script, admin purchase listing, municipality listing and search filters beyond the lead list's own.
