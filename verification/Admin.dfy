/** The administrator's lead list and dashboard totals
    (app/repositories/admin_repository.py, app/services/admin_service.py). */
module Admin {
  import opened Basics
  import opened Tables
  import opened Pricing
  import opened Inventory
  import opened Marketplace
  import Sync

  // --- The lead list ------------------------------------------------------------

  /** `select max(excluded_until)` over one lead's allocations. */
  function LastExclusion(allocations: seq<Allocation>, lead: nat): Option<int> {
    if allocations == [] then None
    else
      var n := |allocations| - 1;
      var before := LastExclusion(allocations[..n], lead);
      if allocations[n].lead != lead then before
      else if before.Some? && before.value >= allocations[n].excludedUntil then before
      else Some(allocations[n].excludedUntil)
  }

  lemma {:induction false} LastExclusionExact(allocations: seq<Allocation>, lead: nat)
    ensures var last := LastExclusion(allocations, lead);
      && (forall a | 0 <= a < |allocations| && allocations[a].lead == lead ::
            last.Some? && allocations[a].excludedUntil <= last.value)
      && (last.Some? ==> exists a | 0 <= a < |allocations| ::
            allocations[a].lead == lead && allocations[a].excludedUntil == last.value)
  {
    if allocations != [] {
      var n := |allocations| - 1;
      LastExclusionExact(allocations[..n], lead);
      var before := LastExclusion(allocations[..n], lead);
      if before.Some? {
        var a :| 0 <= a < n && allocations[..n][a].lead == lead && allocations[..n][a].excludedUntil == before.value;
        assert allocations[a] == allocations[..n][a];
      }
    }
  }

  /** Comparing the latest window end with now agrees with the existence test used for eligibility. */
  lemma LatestWindowDecides(allocations: seq<Allocation>, lead: nat, now: int)
    ensures var last := LastExclusion(allocations, lead);
      Excluded(allocations, lead, now) <==> last.Some? && last.value > now
  {
    LastExclusionExact(allocations, lead);
  }

  datatype LeadFilter = LeadFilter(
    externalId: Option<string>,
    municipality: Option<string>,
    sourceActive: Option<bool>,
    price: Option<int>,
    minAge: Option<nat>,
    maxAge: Option<nat>,
    offset: nat,
    limit: nat)

  /** The WHERE clauses, with their clamped ordinals. */
  predicate Matches(s: State, today: Date, f: LeadFilter, i: nat)
    requires i < |s.leads|
  {
    var lead := s.leads[i];
    && (Truthy(f.externalId) ==> Some(lead.fields.externalId) == f.externalId)
    && (Truthy(f.municipality) ==> lead.fields.municipality == f.municipality)
    && (f.sourceActive.Some? ==> lead.sourceActive == f.sourceActive.value)
    && (f.price.Some? ==>
          var ids := WithPrice(s.rules, ActiveList(s.rules), f.price.value);
          InRanges(s.rules, ids, today, lead.fields.leadDate))
    && (f.minAge.Some? ==> today - f.minAge.value > 0 && lead.fields.leadDate <= today - f.minAge.value)
    && (f.maxAge.Some? ==>
          lead.fields.leadDate >= if today - f.maxAge.value < 1 then 1 else today - f.maxAge.value)
  }

  function MatchingRows(s: State, today: Date, f: LeadFilter, n: nat): seq<nat>
    requires n <= |s.leads|
  {
    if n == 0 then []
    else MatchingRows(s, today, f, n - 1) + if Matches(s, today, f, n - 1) then [n - 1] else []
  }

  /** What the list shows of a lead besides its columns. */
  datatype AdminLead = AdminLead(
    id: nat,
    lead: Lead,
    ageDays: int,
    price: Option<int>,
    excluded: bool,
    excludedUntil: Option<int>)

  function Shown(s: State, today: Date, i: nat): AdminLead
    requires i < |s.leads|
  {
    ActiveListExact(s.rules);
    ApplicableRuleFirst(s.leads[i].fields.leadDate, today, s.rules, ActiveList(s.rules));
    var rule := ApplicableRule(s.leads[i].fields.leadDate, today, s.rules, ActiveList(s.rules));
    var until := LastExclusion(s.allocations, i);
    AdminLead(
      i,
      s.leads[i],
      AgeDays(s.leads[i].fields.leadDate, today),
      if rule.Some? then Some(s.rules[rule.value].price) else None,
      until.Some? && until.value > s.clock,
      until)
  }

  function Page(rows: seq<nat>, offset: nat, limit: nat): seq<nat> {
    if offset >= |rows| then []
    else if offset + limit >= |rows| then rows[offset..]
    else rows[offset..offset + limit]
  }

  /** A page starts at the offset, has at most `limit` rows, and stops early only at the end of the list. */
  lemma PageExactly(rows: seq<nat>, offset: nat, limit: nat)
    ensures var page := Page(rows, offset, limit);
      && |page| == (if offset + limit <= |rows| then limit else if offset <= |rows| then |rows| - offset else 0)
      && forall k | 0 <= k < |page| :: page[k] == rows[offset + k]
  {
  }

  /** What is shown of a lead: its columns, its age today, the price of the active rule covering that age, and its
      latest exclusion window, which excludes it while it is open. */
  lemma ShownExactly(s: State, today: Date, i: nat)
    requires Configured(s.rules) && i < |s.leads|
    ensures var item := Shown(s, today, i);
      var age := today - s.leads[i].fields.leadDate;
      && item.id == i && item.lead == s.leads[i] && item.ageDays == age
      && (item.price.None? <==> s.rules == [] || age < 0)
      && (item.price.Some? ==>
            exists r | 0 <= r < |s.rules| :: Covers(s.rules[r], age) && s.rules[r].price == item.price.value)
      && (item.excludedUntil.None? <==> forall a | 0 <= a < |s.allocations| :: s.allocations[a].lead != i)
      && (forall a | 0 <= a < |s.allocations| && s.allocations[a].lead == i ::
            item.excludedUntil.Some? && s.allocations[a].excludedUntil <= item.excludedUntil.value)
      && (item.excluded <==> exists a | 0 <= a < |s.allocations| ::
            s.allocations[a].lead == i && s.allocations[a].excludedUntil > s.clock)
  {
    var leadDate := s.leads[i].fields.leadDate;
    ActiveListExact(s.rules);
    ApplicableRuleFirst(leadDate, today, s.rules, ActiveList(s.rules));
    ApplicableRuleUnique(leadDate, today, s.rules, 0);
    LastExclusionExact(s.allocations, i);
  }

  /** The same filter, asked of the values the list shows. */
  predicate ShownMatches(f: LeadFilter, item: AdminLead) {
    && (Truthy(f.externalId) ==> item.lead.fields.externalId == f.externalId.value)
    && (Truthy(f.municipality) ==> item.lead.fields.municipality == f.municipality)
    && (f.sourceActive.Some? ==> item.lead.sourceActive == f.sourceActive.value)
    && (f.price.Some? ==> item.price == f.price)
    && (f.minAge.Some? ==> item.ageDays >= f.minAge.value)
    && (f.maxAge.Some? ==> item.ageDays <= f.maxAge.value)
  }

  /** The price ranges select exactly the leads shown at that price. */
  lemma PriceFilterExact(s: State, today: Date, i: nat, price: int)
    requires Configured(s.rules) && i < |s.leads|
    ensures InRanges(s.rules, WithPrice(s.rules, ActiveList(s.rules), price), today, s.leads[i].fields.leadDate)
      <==> Shown(s, today, i).price == Some(price)
  {
    var leadDate := s.leads[i].fields.leadDate;
    var active := ActiveList(s.rules);
    var ids := WithPrice(s.rules, active, price);
    var rule := ApplicableRule(leadDate, today, s.rules, active);
    ActiveListExact(s.rules);
    ApplicableRuleFirst(leadDate, today, s.rules, active);
    WithPriceExact(s.rules, active, price);
    if rule.Some? && s.rules[rule.value].price == price {
      assert rule.value in ids;
      var k :| 0 <= k < |ids| && ids[k] == rule.value;
      AgeConditionExact(s.rules[ids[k]], today, leadDate);
    }
    forall k | 0 <= k < |ids| && s.rules[ids[k]].active && AgeCondition(s.rules[ids[k]], today, leadDate)
      ensures rule == Some(ids[k]) && s.rules[ids[k]].price == price
    {
      assert ids[k] in ids;
      AgeConditionExact(s.rules[ids[k]], today, leadDate);
      assert WellFormed(s.rules[ids[k]]);
      ApplicableRuleUnique(leadDate, today, s.rules, ids[k]);
    }
  }

  /** The clamped filters are exact: a row passes them exactly when the age and price the list shows
      for it do, for ages beyond the calendar's first day and for future dates too. */
  lemma {:induction false} FiltersExact(s: State, today: Date, f: LeadFilter, i: nat)
    requires Configured(s.rules) && i < |s.leads|
    ensures Matches(s, today, f, i) <==> ShownMatches(f, Shown(s, today, i))
  {
    if f.price.Some? {
      PriceFilterExact(s, today, i, f.price.value);
    }
  }

  lemma {:induction false} MatchingRowsExact(s: State, today: Date, f: LeadFilter, n: nat)
    requires n <= |s.leads|
    ensures forall i: nat :: i in MatchingRows(s, today, f, n) <==> i < n && Matches(s, today, f, i)
  {
    if n > 0 {
      MatchingRowsExact(s, today, f, n - 1);
    }
  }

  lemma {:induction false} MatchingRowsIncrease(s: State, today: Date, f: LeadFilter, n: nat)
    requires n <= |s.leads|
    ensures Increasing(MatchingRows(s, today, f, n))
  {
    if n > 0 {
      MatchingRowsIncrease(s, today, f, n - 1);
      MatchingRowsExact(s, today, f, n - 1);
      var before := MatchingRows(s, today, f, n - 1);
      assert forall a | 0 <= a < |before| :: before[a] in before;
    }
  }

  /** The list holds, in id order, exactly the leads whose shown age, price and columns pass the filter. */
  lemma {:induction false} ListIsExact(s: State, today: Date, f: LeadFilter)
    requires Configured(s.rules)
    ensures var rows := MatchingRows(s, today, f, |s.leads|);
      && Increasing(rows)
      && forall i: nat :: i in rows <==> i < |s.leads| && ShownMatches(f, Shown(s, today, i))
  {
    MatchingRowsExact(s, today, f, |s.leads|);
    MatchingRowsIncrease(s, today, f, |s.leads|);
    forall i: nat | i < |s.leads| ensures Matches(s, today, f, i) <==> ShownMatches(f, Shown(s, today, i)) {
      FiltersExact(s, today, f, i);
    }
  }

  /** What the list says of a lead is what a sale would find: it is in the tier of a price exactly when
      it shows as active, not excluded and at that price. */
  lemma {:induction false} ShownIsSold(s: State, today: Date, i: nat, price: int)
    requires Configured(s.rules) && i < |s.leads|
    ensures var item := Shown(s, today, i);
      var rows := Query(s, today, Some(price), Demand(None, item.lead.fields.insuranceType));
      (rows.Ok? && i in rows.value) <==> item.lead.sourceActive && !item.excluded && item.price == Some(price)
  {
    var item := Shown(s, today, i);
    var d := Demand(None, item.lead.fields.insuranceType);
    var ids := WithPrice(s.rules, ActiveList(s.rules), price);
    LatestWindowDecides(s.allocations, i, s.clock);
    PricedIsPast(s, today, i);
    RowsBelowExact(s, ids, today, d, |s.leads|);
    if Sellable(s, today, d, i) {
      TierOfLead(s, today, d, i, price);
    }
  }

  lemma PricedIsPast(s: State, today: Date, i: nat)
    requires Configured(s.rules) && i < |s.leads|
    ensures Shown(s, today, i).price.Some? ==> s.leads[i].fields.leadDate <= today
  {
    var leadDate := s.leads[i].fields.leadDate;
    var rule := ApplicableRule(leadDate, today, s.rules, ActiveList(s.rules));
    ActiveListExact(s.rules);
    ApplicableRuleFirst(leadDate, today, s.rules, ActiveList(s.rules));
    if rule.Some? {
      assert WellFormed(s.rules[rule.value]);
    }
  }

  // --- The dashboard ----------------------------------------------------------------

  function FulfilledCount(ps: seq<Purchase>): nat {
    if ps == [] then 0
    else
      var n := |ps| - 1;
      FulfilledCount(ps[..n]) + if ps[n].status == FULFILLED then 1 else 0
  }

  datatype Stats = Stats(activeLeads: nat, fulfilledOrders: nat, revenue: int, available: nat)

  function StatsOf(s: State, today: Date): Stats {
    Stats(
      Sync.ActiveCount(s.leads),
      FulfilledCount(s.purchases),
      Revenue(s.purchases),
      TotalQuantity(Tiers(s, ActiveList(s.rules), today, LIFE)))
  }

  /** The counts are the sizes of the sets they count. */
  lemma {:induction false} FulfilledCountExact(ps: seq<Purchase>)
    ensures FulfilledCount(ps) == |set i: nat | i < |ps| && ps[i].status == FULFILLED|
  {
    var here := set i: nat | i < |ps| && ps[i].status == FULFILLED;
    if ps == [] {
      assert here == {};
    } else {
      var n := |ps| - 1;
      FulfilledCountExact(ps[..n]);
      var before := set i: nat | i < |ps[..n]| && ps[..n][i].status == FULFILLED;
      assert here == before + if ps[n].status == FULFILLED then {n} else {};
    }
  }

  lemma {:induction false} ActiveCountExact(leads: seq<Lead>)
    ensures Sync.ActiveCount(leads) == |set i: nat | i < |leads| && leads[i].sourceActive|
  {
    var here := set i: nat | i < |leads| && leads[i].sourceActive;
    if leads == [] {
      assert here == {};
    } else {
      var n := |leads| - 1;
      ActiveCountExact(leads[..n]);
      var before := set i: nat | i < |leads[..n]| && leads[..n][i].sourceActive;
      assert here == before + if leads[n].sourceActive then {n} else {};
    }
  }

  lemma {:induction false} RowsAreActive(s: State, ids: seq<nat>, today: Date, d: Demand, n: nat)
    requires InTable(s.rules, ids) && n <= |s.leads|
    ensures |RowsBelow(s, ids, today, d, n)| <= Sync.ActiveCount(s.leads[..n])
  {
    if n > 0 {
      RowsAreActive(s, ids, today, d, n - 1);
      assert s.leads[..n][..n - 1] == s.leads[..n - 1];
    }
  }

  /** The leads the list shows as sellable life-insurance leads. */
  ghost function ShownAvailable(s: State, today: Date): set<nat> {
    set i: nat | i < |s.leads|
      && Shown(s, today, i).lead.sourceActive && !Shown(s, today, i).excluded && Shown(s, today, i).price.Some?
      && s.leads[i].fields.insuranceType == LIFE.insuranceType
  }

  lemma AvailableRows(s: State, today: Date)
    requires Configured(s.rules)
    ensures var rows := Query(s, today, None, LIFE);
      && rows.Ok? && NoDup(rows.value)
      && (forall i :: i in rows.value <==> i in ShownAvailable(s, today))
  {
    var active := ActiveList(s.rules);
    RowsBelowExact(s, active, today, LIFE, |s.leads|);
    var rows := Query(s, today, None, LIFE).value;
    forall i: nat | i < |s.leads| ensures i in rows <==> i in ShownAvailable(s, today) {
      LatestWindowDecides(s.allocations, i, s.clock);
      PricedIsPast(s, today, i);
      if Sellable(s, today, LIFE, i) {
        TierOfLead(s, today, LIFE, i, 0);
      }
    }
  }

  lemma AvailableIsQuery(s: State, today: Date)
    requires Configured(s.rules)
    ensures Query(s, today, None, LIFE).Ok?
    ensures StatsOf(s, today).available == |Query(s, today, None, LIFE).value| <= Sync.ActiveCount(s.leads)
  {
    SummaryAgrees(s, today, LIFE);
    RowsAreActive(s, ActiveList(s.rules), today, LIFE, |s.leads|);
    assert s.leads[..|s.leads|] == s.leads;
  }

  lemma AvailableCounted(s: State, today: Date)
    requires Configured(s.rules)
    ensures StatsOf(s, today).available == |ShownAvailable(s, today)|
  {
    AvailableIsQuery(s, today);
    AvailableRows(s, today);
    NoDupSize(Query(s, today, None, LIFE).value, ShownAvailable(s, today));
  }

  /** In every run the dashboard balances: the available inventory, summed over the tiers, counts exactly
      the leads the list shows as sellable, none of them inactive, and the revenue of the fulfilled
      orders is what was paid for all allocated leads. */
  lemma {:induction false} DashboardBalances(clock: int, steps: seq<Step>, today: Date)
    ensures var s := Run(Genesis(clock), steps);
      var stats := StatsOf(s, today);
      && stats.available == |ShownAvailable(s, today)|
      && stats.activeLeads == |set i: nat | i < |s.leads| && s.leads[i].sourceActive|
      && stats.available <= stats.activeLeads <= |s.leads|
      && stats.revenue == SumPaid(s.allocations)
      && stats.fulfilledOrders == |set i: nat | i < |s.purchases| && s.purchases[i].status == FULFILLED|
      && stats.fulfilledOrders <= |s.allocations|
  {
    Reachable(clock, steps);
    var s := Run(Genesis(clock), steps);
    AvailableCounted(s, today);
    AvailableIsQuery(s, today);
    ActiveCountBound(s.leads);
    ActiveCountExact(s.leads);
    FulfilledCountExact(s.purchases);
    OrdersHaveLeads(s);
  }

  lemma {:induction false} ActiveCountBound(leads: seq<Lead>)
    ensures Sync.ActiveCount(leads) <= |leads|
  {
    if leads != [] {
      ActiveCountBound(leads[..|leads| - 1]);
    }
  }

  /** Allocation counts of the first `n` orders. */
  function Allocated(allocations: seq<Allocation>, n: nat): nat {
    if n == 0 then 0 else Allocated(allocations, n - 1) + CountFor(allocations, n - 1)
  }

  lemma {:induction false} AllocatedBound(allocations: seq<Allocation>, n: nat)
    ensures Allocated(allocations, n) <= |allocations|
  {
    if allocations == [] {
      AllocatedNone(n);
    } else {
      var k := |allocations| - 1;
      AllocatedBound(allocations[..k], n);
      AllocatedMore(allocations, n);
    }
  }

  lemma {:induction false} AllocatedNone(n: nat)
    ensures Allocated([], n) == 0
  {
    if n > 0 {
      AllocatedNone(n - 1);
    }
  }

  lemma {:induction false} AllocatedMore(allocations: seq<Allocation>, n: nat)
    requires allocations != []
    ensures var k := |allocations| - 1;
      Allocated(allocations, n) == Allocated(allocations[..k], n) + if allocations[k].purchase < n then 1 else 0
  {
    if n > 0 {
      AllocatedMore(allocations, n - 1);
    }
  }

  lemma OrdersHaveLeads(s: State)
    requires Inv(s)
    ensures FulfilledCount(s.purchases) <= |s.allocations|
  {
    FulfilledAllocated(s, |s.purchases|);
    AllocatedBound(s.allocations, |s.purchases|);
    assert s.purchases[..|s.purchases|] == s.purchases;
  }

  lemma {:induction false} FulfilledAllocated(s: State, n: nat)
    requires OrdersInv(s.purchases) && AllOrNothing(s) && n <= |s.purchases|
    ensures FulfilledCount(s.purchases[..n]) <= Allocated(s.allocations, n)
  {
    if n > 0 {
      FulfilledAllocated(s, n - 1);
      assert s.purchases[..n][..n - 1] == s.purchases[..n - 1];
      assert OrderValid(s.purchases[n - 1]);
    }
  }

  class AdminService {
    const db: Database
    const today: Date

    constructor (db: Database, today: Date)
      ensures this.db == db && this.today == today
    {
      this.db, this.today := db, today;
    }

    /** The page of leads and the number of rows behind it. */
    method Leads(f: LeadFilter) returns (result: Result<(nat, seq<AdminLead>), Error>)
      ensures result.Err? <==> f.minAge.Some? && f.maxAge.Some? && f.minAge.value > f.maxAge.value
      ensures result.Err? ==> result.error == DomainError
      ensures result.Ok? ==>
        var rows := MatchingRows(db.View(), today, f, |db.leads|);
        var page := Page(rows, f.offset, f.limit);
        && result.value.0 == |rows|
        && |result.value.1| == |page|
        && (forall k | 0 <= k < |page| :: page[k] < |db.leads| && result.value.1[k] == Shown(db.View(), today, page[k]))
    {
      if f.minAge.Some? && f.maxAge.Some? && f.minAge.value > f.maxAge.value {
        return Err(DomainError);
      }
      var s := db.View();
      var rows := MatchingRows(s, today, f, |s.leads|);
      var page := Page(rows, f.offset, f.limit);
      MatchingRowsExact(s, today, f, |s.leads|);
      assert forall k | 0 <= k < |page| :: page[k] in rows;
      var items := Items(page);
      return Ok((|rows|, items));
    }

    /** The loop that adds the computed columns to each row of the page. */
    method Items(page: seq<nat>) returns (items: seq<AdminLead>)
      requires forall k | 0 <= k < |page| :: page[k] < |db.leads|
      ensures |items| == |page|
      ensures forall k | 0 <= k < |page| :: items[k] == Shown(db.View(), today, page[k])
    {
      var active := ActiveList(db.rules);
      ActiveListExact(db.rules);
      items := [];
      var k := 0;
      while k < |page|
        invariant k == |items| <= |page|
        invariant forall j | 0 <= j < k :: items[j] == Shown(db.View(), today, page[j])
      {
        var lead, until := db.leads[page[k]], LastExclusion(db.allocations, page[k]);
        var rule := ApplicableRule(lead.fields.leadDate, today, db.rules, active);
        ApplicableRuleFirst(lead.fields.leadDate, today, db.rules, active);
        var price := if rule.Some? then Some(db.rules[rule.value].price) else None;
        var excluded := until.Some? && until.value > db.clock;
        items := items + [AdminLead(page[k], lead, AgeDays(lead.fields.leadDate, today), price, excluded, until)];
        k := k + 1;
      }
    }

    method Dashboard() returns (stats: Stats)
      ensures stats == StatsOf(db.View(), today)
    {
      var inventory := new InventoryService(db, today);
      var tiers := inventory.Summary(LIFE);
      var available := TotalQuantity(tiers);
      stats := Stats(Sync.ActiveCount(db.leads), FulfilledCount(db.purchases), Revenue(db.purchases), available);
    }
  }
}
