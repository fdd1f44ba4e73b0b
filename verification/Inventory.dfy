/** Which leads may be sold now, at which price, and how many there are
    (app/repositories/lead_repository.py, app/services/inventory_service.py). */
module Inventory {
  import opened Basics
  import opened Tables
  import opened Pricing

  /** The kind of lead a buyer asks for; an empty municipality asks for any. */
  datatype Demand = Demand(municipality: Option<string>, insuranceType: string)

  const LIFE := Demand(None, LIFE_INSURANCE)

  /** The date range of one rule, clamped to the calendar's first day. */
  predicate AgeCondition(r: Rule, today: Date, leadDate: Date) {
    var upper := today - r.minAge;
    if upper < 1 then false
    else
      leadDate <= upper
      && (r.maxAge.Some? ==>
            var lower := today - r.maxAge.value;
            leadDate >= if lower < 1 then 1 else lower)
  }

  /** Clamping loses nothing: the date range selects exactly the ages the rule covers. */
  lemma AgeConditionExact(r: Rule, today: Date, leadDate: Date)
    ensures r.active && AgeCondition(r, today, leadDate) <==> Covers(r, AgeDays(leadDate, today))
  {
  }

  predicate Excluded(allocations: seq<Allocation>, lead: nat, now: int) {
    exists a | 0 <= a < |allocations| :: allocations[a].lead == lead && allocations[a].excludedUntil > now
  }

  predicate InRanges(rules: seq<Rule>, ids: seq<nat>, today: Date, leadDate: Date)
    requires InTable(rules, ids)
  {
    exists k | 0 <= k < |ids| :: rules[ids[k]].active && AgeCondition(rules[ids[k]], today, leadDate)
  }

  /** Everything the eligibility query asks of a lead except its price tier. */
  predicate Sellable(s: State, today: Date, d: Demand, i: nat)
    requires i < |s.leads|
  {
    var lead := s.leads[i];
    && lead.sourceActive
    && lead.fields.insuranceType == d.insuranceType
    && lead.fields.leadDate <= today
    && !Excluded(s.allocations, i, s.clock)
    && (Truthy(d.municipality) ==> lead.fields.municipality == d.municipality)
  }

  predicate Eligible(s: State, ids: seq<nat>, today: Date, d: Demand, i: nat)
    requires InTable(s.rules, ids) && i < |s.leads|
  {
    Sellable(s, today, d, i) && InRanges(s.rules, ids, today, s.leads[i].fields.leadDate)
  }

  /** The eligible rows among the first `n`, in table order. */
  function RowsBelow(s: State, ids: seq<nat>, today: Date, d: Demand, n: nat): seq<nat>
    requires InTable(s.rules, ids) && n <= |s.leads|
  {
    if n == 0 then []
    else RowsBelow(s, ids, today, d, n - 1) + if Eligible(s, ids, today, d, n - 1) then [n - 1] else []
  }

  function EligibleRows(s: State, ids: seq<nat>, today: Date, d: Demand): seq<nat>
    requires InTable(s.rules, ids)
  {
    RowsBelow(s, ids, today, d, |s.leads|)
  }

  lemma {:induction false} RowsBelowExact(s: State, ids: seq<nat>, today: Date, d: Demand, n: nat)
    requires InTable(s.rules, ids) && n <= |s.leads|
    ensures var rows := RowsBelow(s, ids, today, d, n);
      && NoDup(rows)
      && forall i: nat :: i in rows <==> i < n && Eligible(s, ids, today, d, i)
  {
    if n > 0 {
      RowsBelowExact(s, ids, today, d, n - 1);
      assert n - 1 !in RowsBelow(s, ids, today, d, n - 1);
    }
  }

  // --- InventoryService ----------------------------------------------------

  function WithPrice(rules: seq<Rule>, ids: seq<nat>, price: int): (kept: seq<nat>)
    requires InTable(rules, ids)
    ensures InTable(rules, kept)
  {
    if ids == [] then []
    else
      var last := ids[|ids| - 1];
      WithPrice(rules, ids[..|ids| - 1], price) + if rules[last].price == price then [last] else []
  }

  lemma {:induction false} WithPriceExact(rules: seq<Rule>, ids: seq<nat>, price: int)
    requires InTable(rules, ids)
    ensures forall x :: x in WithPrice(rules, ids, price) <==> x in ids && rules[x].price == price
  {
    if ids != [] {
      WithPriceExact(rules, ids[..|ids| - 1], price);
      assert ids == ids[..|ids| - 1] + [ids[|ids| - 1]];
    }
  }

  /** The rules a query looks at. */
  function QueryRules(rules: seq<Rule>, price: Option<int>): (ids: seq<nat>)
    ensures InTable(rules, ids)
  {
    if price.None? then ActiveList(rules) else WithPrice(rules, ActiveList(rules), price.value)
  }

  function Query(s: State, today: Date, price: Option<int>, d: Demand): Result<seq<nat>, Error> {
    var ids := QueryRules(s.rules, price);
    if price.Some? && ids == [] then Err(PricingRuleNotFound)
    else Ok(EligibleRows(s, ids, today, d))
  }

  function ValidateQuantity(s: State, today: Date, quantity: int, price: int, d: Demand): Result<(), Error> {
    match Query(s, today, Some(price), d)
    case Err(e) => Err(e)
    case Ok(rows) => if quantity <= 0 || quantity > |rows| then Err(InsufficientInventory) else Ok(())
  }

  /** The position a draw selects among `n` remaining rows. */
  function Position(n: nat, draws: seq<nat>): nat
    requires n > 0
    ensures Position(n, draws) < n
  {
    if draws == [] then 0 else draws[0] % n
  }

  /** `ORDER BY random() LIMIT quantity`: each draw picks one of the remaining rows. */
  function RandomSelection(rows: seq<nat>, quantity: int, draws: seq<nat>): seq<nat>
    decreases |rows|
  {
    if quantity <= 0 || rows == [] then []
    else
      var k := Position(|rows|, draws);
      [rows[k]] + RandomSelection(RemoveAt(rows, k), quantity - 1, if draws == [] then [] else draws[1..])
  }

  lemma {:induction false} RandomSelectionLength(rows: seq<nat>, quantity: int, draws: seq<nat>)
    ensures |RandomSelection(rows, quantity, draws)|
      == if quantity <= 0 then 0 else if quantity <= |rows| then quantity else |rows|
    decreases |rows|
  {
    if quantity > 0 && rows != [] {
      var more := if draws == [] then [] else draws[1..];
      RandomSelectionLength(RemoveAt(rows, Position(|rows|, draws)), quantity - 1, more);
    }
  }

  /** Any draws give distinct rows of the query. */
  lemma {:induction false} RandomSelectionDistinct(rows: seq<nat>, quantity: int, draws: seq<nat>)
    requires NoDup(rows)
    ensures NoDup(RandomSelection(rows, quantity, draws))
    ensures forall x | x in RandomSelection(rows, quantity, draws) :: x in rows
    decreases |rows|
  {
    if quantity > 0 && rows != [] {
      var k := Position(|rows|, draws);
      var rest, more := RemoveAt(rows, k), if draws == [] then [] else draws[1..];
      RemoveAtExact(rows, k);
      RandomSelectionDistinct(rest, quantity - 1, more);
      ConsDistinct(rows[k], RandomSelection(rest, quantity - 1, more));
    }
  }

  /** Every choice of distinct rows is the outcome of some draws. */
  lemma {:induction false} RandomSelectionComplete(rows: seq<nat>, wanted: seq<nat>) returns (draws: seq<nat>)
    requires NoDup(rows) && NoDup(wanted) && forall x | x in wanted :: x in rows
    ensures RandomSelection(rows, |wanted|, draws) == wanted
    decreases |rows|
  {
    if wanted == [] {
      draws := [];
    } else {
      assert wanted[0] in rows;
      var k :| 0 <= k < |rows| && rows[k] == wanted[0];
      RemoveAtExact(rows, k);
      assert forall j | 0 <= j < |wanted[1..]| :: wanted[1..][j] == wanted[j + 1];
      var more := RandomSelectionComplete(RemoveAt(rows, k), wanted[1..]);
      draws := [k] + more;
      assert draws[1..] == more;
      PositionOf(|rows|, k, more);
    }
  }

  lemma PositionOf(n: nat, k: nat, more: seq<nat>)
    requires k < n
    ensures Position(n, [k] + more) == k
  {
  }

  function SelectRandom(s: State, today: Date, quantity: int, price: int, d: Demand, draws: seq<nat>)
    : Result<seq<nat>, Error>
  {
    match Query(s, today, Some(price), d)
    case Err(e) => Err(e)
    case Ok(rows) =>
      if |rows| < quantity then Err(InsufficientInventory)
      else
        var picked := RandomSelection(rows, quantity, draws);
        if |picked| != quantity then Err(InsufficientInventory) else Ok(picked)
  }

  /** Some active rule, of the price asked for if there is one, covers the lead's age. */
  ghost predicate PricedFor(rules: seq<Rule>, price: Option<int>, age: int) {
    exists r | 0 <= r < |rules| ::
      && rules[r].active && (price.Some? ==> rules[r].price == price.value)
      && rules[r].minAge <= age && (rules[r].maxAge.Some? ==> age <= rules[r].maxAge.value)
  }

  lemma RangesCover(rules: seq<Rule>, ids: seq<nat>, today: Date, leadDate: Date)
    requires InTable(rules, ids)
    ensures InRanges(rules, ids, today, leadDate) <==>
      exists r | r in ids :: r < |rules| && Covers(rules[r], today - leadDate)
  {
    if InRanges(rules, ids, today, leadDate) {
      var k :| 0 <= k < |ids| && rules[ids[k]].active && AgeCondition(rules[ids[k]], today, leadDate);
      AgeConditionExact(rules[ids[k]], today, leadDate);
      assert ids[k] in ids && Covers(rules[ids[k]], today - leadDate);
    }
    if r :| r in ids && r < |rules| && Covers(rules[r], today - leadDate) {
      var k :| 0 <= k < |ids| && ids[k] == r;
      AgeConditionExact(rules[ids[k]], today, leadDate);
    }
  }

  lemma QueryRulesExact(rules: seq<Rule>, price: Option<int>)
    ensures forall r: nat :: r in QueryRules(rules, price) <==>
      r < |rules| && rules[r].active && (price.Some? ==> rules[r].price == price.value)
  {
    ActiveListExact(rules);
    if price.Some? {
      WithPriceExact(rules, ActiveList(rules), price.value);
    }
  }

  lemma RangesPrice(rules: seq<Rule>, price: Option<int>, today: Date, leadDate: Date)
    ensures InRanges(rules, QueryRules(rules, price), today, leadDate) <==> PricedFor(rules, price, today - leadDate)
  {
    var ids, age := QueryRules(rules, price), today - leadDate;
    QueryRulesExact(rules, price);
    RangesCover(rules, ids, today, leadDate);
    forall r: nat | r < |rules|
      ensures r in ids && Covers(rules[r], age) <==>
        rules[r].active && (price.Some? ==> rules[r].price == price.value)
        && rules[r].minAge <= age && (rules[r].maxAge.Some? ==> age <= rules[r].maxAge.value)
    {
    }
  }

  /** Whether a lead may be sold now for this demand, leaving its price aside: it is active, of the type, of the
      municipality unless that is empty, not dated in the future, and in no exclusion window still open. */
  lemma SellableExactly(s: State, today: Date, d: Demand, i: nat)
    requires i < |s.leads|
    ensures var lead := s.leads[i];
      Sellable(s, today, d, i) <==>
        && lead.sourceActive && lead.fields.insuranceType == d.insuranceType
        && (d.municipality.None? || d.municipality == Some("") || lead.fields.municipality == d.municipality)
        && lead.fields.leadDate <= today
        && forall a | 0 <= a < |s.allocations| && s.allocations[a].lead == i ::
             s.allocations[a].excludedUntil <= s.clock
  {
  }

  /** A query fails exactly for a price that no active rule has, and otherwise returns, once each, exactly the leads
      that may be sold now and that an active rule, of the price asked for, prices. */
  lemma QueryExactly(s: State, today: Date, price: Option<int>, d: Demand)
    ensures var rows := Query(s, today, price, d);
      && (rows.Err? <==>
            price.Some? && forall r | 0 <= r < |s.rules| && s.rules[r].active :: s.rules[r].price != price.value)
      && (rows.Err? ==> rows.error == PricingRuleNotFound)
      && (rows.Ok? ==> NoDup(rows.value) && forall i: nat :: i in rows.value <==>
            i < |s.leads| && Sellable(s, today, d, i) && PricedFor(s.rules, price, today - s.leads[i].fields.leadDate))
  {
    QueryFails(s, today, price, d);
    RowsBelowExact(s, QueryRules(s.rules, price), today, d, |s.leads|);
    forall i: nat | i < |s.leads|
      ensures InRanges(s.rules, QueryRules(s.rules, price), today, s.leads[i].fields.leadDate)
        <==> PricedFor(s.rules, price, today - s.leads[i].fields.leadDate)
    {
      RangesPrice(s.rules, price, today, s.leads[i].fields.leadDate);
    }
  }

  lemma QueryFails(s: State, today: Date, price: Option<int>, d: Demand)
    ensures Query(s, today, price, d).Err? <==>
      price.Some? && forall r | 0 <= r < |s.rules| && s.rules[r].active :: s.rules[r].price != price.value
  {
    QueryRulesExact(s.rules, price);
    var ids := QueryRules(s.rules, price);
    assert ids != [] ==> ids[0] in ids;
    if r :| 0 <= r < |s.rules| && s.rules[r].active && (price.Some? ==> s.rules[r].price == price.value) {
      assert r in ids;
    }
  }

  /** A quantity is refused unless it is positive and no more than the query returns. */
  lemma QuantityExactly(s: State, today: Date, quantity: int, price: int, d: Demand)
    ensures var rows, valid := Query(s, today, Some(price), d), ValidateQuantity(s, today, quantity, price, d);
      && (valid.Ok? <==> rows.Ok? && 1 <= quantity <= |rows.value|)
      && (valid.Err? ==> valid.error == if rows.Err? then PricingRuleNotFound else InsufficientInventory)
  {
  }

  /** A sellable lead belongs to one tier only: that of the rule its age selects. */
  lemma TierOfLead(s: State, today: Date, d: Demand, i: nat, price: int)
    requires Configured(s.rules) && i < |s.leads| && Sellable(s, today, d, i)
    ensures var rule := ApplicableRule(s.leads[i].fields.leadDate, today, s.rules, ActiveList(s.rules));
      && (s.rules != [] <==> rule.Some?)
      && (rule.Some? ==> rule.value < |s.rules| && s.rules[rule.value].active)
      && (Query(s, today, Some(price), d).Ok? ==>
            (i in Query(s, today, Some(price), d).value <==>
              rule.Some? && s.rules[rule.value].price == price))
      && (rule.Some? && s.rules[rule.value].price == price ==> Query(s, today, Some(price), d).Ok?)
      && Query(s, today, None, d).Ok?
      && (i in Query(s, today, None, d).value <==> rule.Some?)
  {
    var leadDate := s.leads[i].fields.leadDate;
    var active := ActiveList(s.rules);
    var rule := ApplicableRule(leadDate, today, s.rules, active);
    ActiveListExact(s.rules);
    ApplicableRuleFirst(leadDate, today, s.rules, active);
    var ids := WithPrice(s.rules, active, price);
    WithPriceExact(s.rules, active, price);
    RowsBelowExact(s, ids, today, d, |s.leads|);
    RowsBelowExact(s, active, today, d, |s.leads|);
    ApplicableRuleUnique(leadDate, today, s.rules, 0);
    if rule.Some? {
      assert rule.value in active;
      AgeConditionExact(s.rules[rule.value], today, leadDate);
      var a :| 0 <= a < |active| && active[a] == rule.value;
      if s.rules[rule.value].price == price {
        assert rule.value in ids;
        var k :| 0 <= k < |ids| && ids[k] == rule.value;
      }
    }
    forall k | 0 <= k < |ids| && AgeCondition(s.rules[ids[k]], today, leadDate)
      ensures rule == Some(ids[k])
    {
      assert ids[k] in ids;
      AgeConditionExact(s.rules[ids[k]], today, leadDate);
      ApplicableRuleUnique(leadDate, today, s.rules, ids[k]);
    }
  }

  // --- Summary -------------------------------------------------------------

  datatype Tier = Tier(price: int, quantity: nat, ranges: seq<(int, Option<int>)>)

  predicate HasTier(tiers: seq<Tier>, price: int) {
    exists k | 0 <= k < |tiers| :: tiers[k].price == price
  }

  /** The position of a price's tier, or the next free one. */
  function TierIndex(tiers: seq<Tier>, price: int): (k: nat)
    ensures k <= |tiers| && (k < |tiers| ==> tiers[k].price == price)
    ensures forall j | 0 <= j < k :: tiers[j].price != price
  {
    if tiers == [] || tiers[0].price == price then 0 else 1 + TierIndex(tiers[1..], price)
  }

  function Counted(t: Tier, r: Rule, count: nat): Tier {
    t.(quantity := t.quantity + count, ranges := t.ranges + [(r.minAge, r.maxAge)])
  }

  /** Adds one rule's leads and age range to the tier of its price. */
  function AddToTier(tiers: seq<Tier>, r: Rule, count: nat): seq<Tier> {
    if tiers == [] then [Tier(r.price, count, [(r.minAge, r.maxAge)])]
    else if tiers[0].price == r.price then
      [Counted(tiers[0], r, count)] + tiers[1..]
    else [tiers[0]] + AddToTier(tiers[1..], r, count)
  }

  function Tiers(s: State, ids: seq<nat>, today: Date, d: Demand): seq<Tier>
    requires InTable(s.rules, ids)
  {
    if ids == [] then []
    else
      var last := ids[|ids| - 1];
      AddToTier(Tiers(s, ids[..|ids| - 1], today, d), s.rules[last], |EligibleRows(s, [last], today, d)|)
  }

  function TotalQuantity(tiers: seq<Tier>): nat {
    if tiers == [] then 0 else tiers[0].quantity + TotalQuantity(tiers[1..])
  }

  ghost predicate DistinctTiers(tiers: seq<Tier>) {
    forall a, b | 0 <= a < b < |tiers| :: tiers[a].price != tiers[b].price
  }

  /** `setdefault` followed by the two in-place additions is one step of the tally. */
  lemma {:induction false} AddToTierAt(tiers: seq<Tier>, r: Rule, count: nat, k: nat)
    requires k <= |tiers| && forall j | 0 <= j < k :: tiers[j].price != r.price
    requires k < |tiers| ==> tiers[k].price == r.price
    ensures AddToTier(tiers, r, count) ==
      if k == |tiers| then tiers + [Tier(r.price, count, [(r.minAge, r.maxAge)])]
      else tiers[k := Counted(tiers[k], r, count)]
  {
    if k > 0 {
      AddToTierAt(tiers[1..], r, count, k - 1);
      if k < |tiers| {
        var t := Counted(tiers[k], r, count);
        assert tiers[k := t] == [tiers[0]] + tiers[1..][k - 1 := t];
      } else {
        var t := Tier(r.price, count, [(r.minAge, r.maxAge)]);
        assert tiers + [t] == [tiers[0]] + (tiers[1..] + [t]);
      }
    }
  }

  lemma {:induction false} TotalQuantityGrows(tiers: seq<Tier>, k: nat, t: Tier)
    requires k <= |tiers|
    ensures k < |tiers| ==> TotalQuantity(tiers[k := t]) == TotalQuantity(tiers) - tiers[k].quantity + t.quantity
    ensures k == |tiers| ==> TotalQuantity(tiers + [t]) == TotalQuantity(tiers) + t.quantity
  {
    if k > 0 {
      TotalQuantityGrows(tiers[1..], k - 1, t);
      if k < |tiers| {
        assert tiers[k := t][1..] == tiers[1..][k - 1 := t];
      } else {
        assert (tiers + [t])[1..] == tiers[1..] + [t];
      }
    }
  }

  lemma AddToTierExact(tiers: seq<Tier>, r: Rule, count: nat)
    requires DistinctTiers(tiers)
    ensures var out := AddToTier(tiers, r, count);
      && DistinctTiers(out)
      && |out| == |tiers| + (if HasTier(tiers, r.price) then 0 else 1)
      && (forall k | 0 <= k < |tiers| :: out[k].price == tiers[k].price
            && out[k].quantity == tiers[k].quantity + (if tiers[k].price == r.price then count else 0)
            && out[k].ranges == tiers[k].ranges + if tiers[k].price == r.price then [(r.minAge, r.maxAge)] else [])
      && (|out| > |tiers| ==> out[|tiers|] == Tier(r.price, count, [(r.minAge, r.maxAge)]))
      && TotalQuantity(out) == TotalQuantity(tiers) + count
  {
    var k := TierIndex(tiers, r.price);
    AddToTierAt(tiers, r, count, k);
    if k < |tiers| {
      TierReplaced(tiers, k, Counted(tiers[k], r, count));
    } else {
      TierAppended(tiers, Tier(r.price, count, [(r.minAge, r.maxAge)]));
    }
  }

  lemma TierReplaced(tiers: seq<Tier>, k: nat, t: Tier)
    requires DistinctTiers(tiers) && k < |tiers| && t.price == tiers[k].price
    ensures var out := tiers[k := t];
      && DistinctTiers(out)
      && (forall j | 0 <= j < |tiers| && j != k :: out[j] == tiers[j] && tiers[j].price != t.price)
      && TotalQuantity(out) == TotalQuantity(tiers) - tiers[k].quantity + t.quantity
  {
    TotalQuantityGrows(tiers, k, t);
  }

  lemma TierAppended(tiers: seq<Tier>, t: Tier)
    requires DistinctTiers(tiers) && forall j | 0 <= j < |tiers| :: tiers[j].price != t.price
    ensures DistinctTiers(tiers + [t]) && TotalQuantity(tiers + [t]) == TotalQuantity(tiers) + t.quantity
  {
    TotalQuantityGrows(tiers, |tiers|, t);
  }

  /** Counting leads rule by rule adds up when no lead is in two of the ranges. */
  lemma {:induction false} RowsSplit(s: State, ids: seq<nat>, last: nat, today: Date, d: Demand, n: nat)
    requires InTable(s.rules, ids) && last < |s.rules| && n <= |s.leads|
    requires forall i | 0 <= i < n && s.leads[i].fields.leadDate <= today ::
      !(InRanges(s.rules, ids, today, s.leads[i].fields.leadDate)
        && InRanges(s.rules, [last], today, s.leads[i].fields.leadDate))
    ensures |RowsBelow(s, ids + [last], today, d, n)|
         == |RowsBelow(s, ids, today, d, n)| + |RowsBelow(s, [last], today, d, n)|
  {
    if n > 0 {
      RowsSplit(s, ids, last, today, d, n - 1);
      var leadDate := s.leads[n - 1].fields.leadDate;
      assert [last][0] == last;
      assert (ids + [last])[|ids|] == last;
      assert forall k | 0 <= k < |ids| :: (ids + [last])[k] == ids[k];
      assert InRanges(s.rules, ids + [last], today, leadDate) <==>
        InRanges(s.rules, ids, today, leadDate) || InRanges(s.rules, [last], today, leadDate);
    }
  }

  /** Distinct active rules of a configured table never claim the same nonfuture date. */
  lemma RangesDisjoint(rules: seq<Rule>, ids: seq<nat>, last: nat, today: Date, leadDate: Date)
    requires Configured(rules) && InTable(rules, ids) && last < |rules| && last !in ids
    requires leadDate <= today
    ensures !(InRanges(rules, ids, today, leadDate) && InRanges(rules, [last], today, leadDate))
  {
    if InRanges(rules, ids, today, leadDate) {
      var k :| 0 <= k < |ids| && rules[ids[k]].active && AgeCondition(rules[ids[k]], today, leadDate);
      assert ids[k] in ids;
      AgeConditionExact(rules[ids[k]], today, leadDate);
      AgeConditionExact(rules[last], today, leadDate);
      assert CoveredOnce(rules, AgeDays(leadDate, today));
      CoveredOnceAt(rules, AgeDays(leadDate, today), ids[k], last);
    }
  }

  /** There is one tier for each price among the listed rules. */
  lemma {:induction false} TiersPerPrice(s: State, ids: seq<nat>, today: Date, d: Demand)
    requires InTable(s.rules, ids)
    ensures var tiers := Tiers(s, ids, today, d);
      && DistinctTiers(tiers)
      && forall price :: HasTier(tiers, price) <==> WithPrice(s.rules, ids, price) != []
  {
    if ids != [] {
      var front, last := ids[..|ids| - 1], ids[|ids| - 1];
      var before, r := Tiers(s, front, today, d), s.rules[last];
      var count := |EligibleRows(s, [last], today, d)|;
      TiersPerPrice(s, front, today, d);
      AddToTierExact(before, r, count);
      var tiers := Tiers(s, ids, today, d);
      forall price ensures HasTier(tiers, price) <==> HasTier(before, price) || price == r.price {
        if HasTier(before, price) {
          var j :| 0 <= j < |before| && before[j].price == price;
          assert tiers[j].price == price;
        } else if price == r.price {
          assert tiers[|before|].price == price;
        }
      }
    }
  }

  /** A price's query gains exactly the last rule's leads, if the rule has that price. */
  lemma PriceRowsSplit(s: State, ids: seq<nat>, today: Date, d: Demand, price: int)
    requires Configured(s.rules) && InTable(s.rules, ids) && NoDup(ids) && ids != []
    ensures var front, last := ids[..|ids| - 1], ids[|ids| - 1];
      |EligibleRows(s, WithPrice(s.rules, ids, price), today, d)|
      == |EligibleRows(s, WithPrice(s.rules, front, price), today, d)|
         + if s.rules[last].price == price then |EligibleRows(s, [last], today, d)| else 0
  {
    var front, last := ids[..|ids| - 1], ids[|ids| - 1];
    var same := WithPrice(s.rules, front, price);
    WithPriceExact(s.rules, front, price);
    assert last !in front;
    if s.rules[last].price == price {
      SplitRows(s, same, last, today, d);
    } else {
      assert same + [] == same;
    }
  }

  /** One tier after the last rule has been counted. */
  lemma TierAfter(s: State, ids: seq<nat>, today: Date, d: Demand, k: nat)
    requires InTable(s.rules, ids) && ids != [] && k < |Tiers(s, ids, today, d)|
    ensures var front, last := ids[..|ids| - 1], ids[|ids| - 1];
      var before, tier := Tiers(s, front, today, d), Tiers(s, ids, today, d)[k];
      var count := |EligibleRows(s, [last], today, d)|;
      if k < |before| then
        tier.price == before[k].price
        && tier.quantity == before[k].quantity + (if s.rules[last].price == tier.price then count else 0)
        && tier.ranges == before[k].ranges
             + if s.rules[last].price == tier.price then [(s.rules[last].minAge, s.rules[last].maxAge)] else []
      else
        tier.price == s.rules[last].price && tier.quantity == count && WithPrice(s.rules, front, tier.price) == []
        && tier.ranges == [(s.rules[last].minAge, s.rules[last].maxAge)]
  {
    var front, last := ids[..|ids| - 1], ids[|ids| - 1];
    TiersPerPrice(s, front, today, d);
    AddToTierExact(Tiers(s, front, today, d), s.rules[last], |EligibleRows(s, [last], today, d)|);
  }

  lemma {:induction false} TierCount(s: State, ids: seq<nat>, today: Date, d: Demand, k: nat)
    requires Configured(s.rules) && InTable(s.rules, ids) && NoDup(ids)
    requires k < |Tiers(s, ids, today, d)|
    ensures var tier := Tiers(s, ids, today, d)[k];
      tier.quantity == |EligibleRows(s, WithPrice(s.rules, ids, tier.price), today, d)|
  {
    var front := ids[..|ids| - 1];
    TierAfter(s, ids, today, d, k);
    PriceRowsSplit(s, ids, today, d, Tiers(s, ids, today, d)[k].price);
    if k < |Tiers(s, front, today, d)| {
      TierCount(s, front, today, d, k);
    } else {
      NoRangesNoRows(s, today, d, |s.leads|);
    }
  }

  lemma {:induction false} TiersTotal(s: State, ids: seq<nat>, today: Date, d: Demand)
    requires Configured(s.rules) && InTable(s.rules, ids) && NoDup(ids)
    ensures TotalQuantity(Tiers(s, ids, today, d)) == |EligibleRows(s, ids, today, d)|
  {
    if ids == [] {
      NoRangesNoRows(s, today, d, |s.leads|);
    } else {
      var front, last := ids[..|ids| - 1], ids[|ids| - 1];
      TiersTotal(s, front, today, d);
      TiersPerPrice(s, front, today, d);
      AddToTierExact(Tiers(s, front, today, d), s.rules[last], |EligibleRows(s, [last], today, d)|);
      assert front + [last] == ids;
      SplitRows(s, front, last, today, d);
    }
  }

  lemma SplitRows(s: State, ids: seq<nat>, last: nat, today: Date, d: Demand)
    requires Configured(s.rules) && InTable(s.rules, ids) && last < |s.rules| && last !in ids
    ensures |EligibleRows(s, ids + [last], today, d)|
         == |EligibleRows(s, ids, today, d)| + |EligibleRows(s, [last], today, d)|
  {
    forall i | 0 <= i < |s.leads| && s.leads[i].fields.leadDate <= today
      ensures !(InRanges(s.rules, ids, today, s.leads[i].fields.leadDate)
        && InRanges(s.rules, [last], today, s.leads[i].fields.leadDate))
    {
      RangesDisjoint(s.rules, ids, last, today, s.leads[i].fields.leadDate);
    }
    RowsSplit(s, ids, last, today, d, |s.leads|);
  }

  lemma {:induction false} NoRangesNoRows(s: State, today: Date, d: Demand, n: nat)
    requires n <= |s.leads|
    ensures RowsBelow(s, [], today, d, n) == []
  {
    if n > 0 {
      NoRangesNoRows(s, today, d, n - 1);
    }
  }

  /** The summary's per-rule sums agree with the price queries a checkout would run:
      one tier per active price, each counting exactly its query, together every eligible lead. */
  lemma SummaryAgrees(s: State, today: Date, d: Demand)
    requires Configured(s.rules)
    ensures var tiers := Tiers(s, ActiveList(s.rules), today, d);
      && DistinctTiers(tiers)
      && (forall price :: HasTier(tiers, price) <==> Query(s, today, Some(price), d).Ok?)
      && (forall k | 0 <= k < |tiers| ::
            Query(s, today, Some(tiers[k].price), d).Ok?
            && tiers[k].quantity == |Query(s, today, Some(tiers[k].price), d).value|)
      && Query(s, today, None, d).Ok?
      && TotalQuantity(tiers) == |Query(s, today, None, d).value|
  {
    var active := ActiveList(s.rules);
    var tiers := Tiers(s, active, today, d);
    ActiveListExact(s.rules);
    TiersPerPrice(s, active, today, d);
    TiersTotal(s, active, today, d);
    forall price ensures HasTier(tiers, price) <==> Query(s, today, Some(price), d).Ok? {
      assert HasTier(tiers, price) <==> WithPrice(s.rules, active, price) != [];
    }
    forall k | 0 <= k < |tiers|
      ensures Query(s, today, Some(tiers[k].price), d).Ok?
      ensures tiers[k].quantity == |Query(s, today, Some(tiers[k].price), d).value|
    {
      assert HasTier(tiers, tiers[k].price);
      TierCount(s, active, today, d, k);
    }
  }

  lemma {:induction false} WithPriceOrdered(rules: seq<Rule>, ids: seq<nat>, price: int)
    requires InListOrder(rules, ids)
    ensures InListOrder(rules, WithPrice(rules, ids, price))
  {
    if ids != [] {
      var n := |ids| - 1;
      WithPriceOrdered(rules, ids[..n], price);
      WithPriceExact(rules, ids[..n], price);
      var kept := WithPrice(rules, ids[..n], price);
      forall a | 0 <= a < |kept| ensures ListedBefore(rules, kept[a], ids[n]) {
        assert kept[a] in kept;
        var k :| 0 <= k < n && ids[..n][k] == kept[a];
        assert ListedBefore(rules, ids[k], ids[n]);
      }
    }
  }

  ghost predicate ListsRanges(rules: seq<Rule>, ids: seq<nat>, ranges: seq<(int, Option<int>)>)
    requires InTable(rules, ids)
  {
    |ranges| == |ids| && forall j | 0 <= j < |ids| :: ranges[j] == (rules[ids[j]].minAge, rules[ids[j]].maxAge)
  }

  lemma {:induction false} TierRanges(s: State, ids: seq<nat>, today: Date, d: Demand, k: nat)
    requires InTable(s.rules, ids) && k < |Tiers(s, ids, today, d)|
    ensures var tier := Tiers(s, ids, today, d)[k];
      ListsRanges(s.rules, WithPrice(s.rules, ids, tier.price), tier.ranges)
  {
    var front := ids[..|ids| - 1];
    TierAfter(s, ids, today, d, k);
    if k < |Tiers(s, front, today, d)| {
      TierRanges(s, front, today, d, k);
    }
  }

  /** A tier lists the age range of every active rule at its price, once each, by sort order. */
  lemma TierListsRanges(s: State, today: Date, d: Demand, k: nat) returns (ids: seq<nat>)
    requires k < |Tiers(s, ActiveList(s.rules), today, d)|
    ensures var tier := Tiers(s, ActiveList(s.rules), today, d)[k];
      && InListOrder(s.rules, ids)
      && (forall r: nat :: r in ids <==> r < |s.rules| && s.rules[r].active && s.rules[r].price == tier.price)
      && ListsRanges(s.rules, ids, tier.ranges)
  {
    var active, price := ActiveList(s.rules), Tiers(s, ActiveList(s.rules), today, d)[k].price;
    ids := WithPrice(s.rules, active, price);
    ListsAreOrdered(s.rules);
    WithPriceOrdered(s.rules, active, price);
    WithPriceExact(s.rules, active, price);
    TierRanges(s, active, today, d, k);
  }

  class InventoryService {
    const db: Database
    const today: Date

    constructor (db: Database, today: Date)
      ensures this.db == db && this.today == today
    {
      this.db, this.today := db, today;
    }

    /** The public inventory summary, accumulated rule by rule. */
    method Summary(d: Demand) returns (tiers: seq<Tier>)
      ensures tiers == Tiers(db.View(), ActiveList(db.rules), today, d)
    {
      var s := db.View();
      var rules := ActiveList(s.rules);
      tiers := [];
      var n := 0;
      while n < |rules|
        invariant n <= |rules|
        invariant tiers == Tiers(s, rules[..n], today, d)
      {
        var rule := s.rules[rules[n]];
        var count := |EligibleRows(s, [rules[n]], today, d)|;
        assert rules[..n + 1][..n] == rules[..n];
        tiers := CountRule(tiers, rule, count);
        n := n + 1;
      }
      assert rules[..n] == rules;
    }

    /** `setdefault`, then the two in-place additions to the tier found or made. */
    method CountRule(before: seq<Tier>, rule: Rule, count: nat) returns (tiers: seq<Tier>)
      ensures tiers == AddToTier(before, rule, count)
    {
      var k := TierIndex(before, rule.price);
      AddToTierAt(before, rule, count, k);
      tiers := before;
      if k == |tiers| {
        tiers := tiers + [Tier(rule.price, 0, [])];
      }
      tiers := tiers[k := tiers[k].(quantity := tiers[k].quantity + count)];
      tiers := tiers[k := tiers[k].(ranges := tiers[k].ranges + [(rule.minAge, rule.maxAge)])];
      assert tiers[k] == AddToTier(before, rule, count)[k];
    }
  }
}
