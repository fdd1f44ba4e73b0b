/** Pricing rules: which rule prices a lead of a given age, and the edits an
    administrator may make (app/services/pricing_service.py). */
module Pricing {
  import opened Basics
  import opened Tables

  /** The constraints of `PricingRuleInput` and of the table's CHECK clauses. */
  predicate WellFormed(r: Rule) {
    && r.minAge >= 0
    && (r.maxAge.Some? ==> r.maxAge.value >= 0 && r.maxAge.value >= r.minAge)
    && r.price > 0
    && r.exclusionDays >= 0
  }

  predicate AllWellFormed(rules: seq<Rule>) {
    forall i | 0 <= i < |rules| :: WellFormed(rules[i])
  }

  function AgeDays(leadDate: Date, today: Date): int {
    today - leadDate
  }

  predicate Covers(r: Rule, age: int) {
    r.active && r.minAge <= age && (r.maxAge.Some? ==> age <= r.maxAge.value)
  }

  predicate InTable(rules: seq<Rule>, ids: seq<nat>) {
    forall k | 0 <= k < |ids| :: ids[k] < |rules|
  }

  /** The first listed rule that covers the lead's age. */
  function ApplicableRule(leadDate: Date, today: Date, rules: seq<Rule>, ids: seq<nat>): Option<nat>
    requires InTable(rules, ids)
  {
    if ids == [] then None
    else if Covers(rules[ids[0]], AgeDays(leadDate, today)) then Some(ids[0])
    else ApplicableRule(leadDate, today, rules, ids[1..])
  }

  lemma {:induction false} ApplicableRuleFirst(leadDate: Date, today: Date, rules: seq<Rule>, ids: seq<nat>)
    requires InTable(rules, ids)
    ensures match ApplicableRule(leadDate, today, rules, ids)
      case Some(r) => r in ids && r < |rules| && Covers(rules[r], AgeDays(leadDate, today))
      case None => forall r | r in ids :: !Covers(rules[r], AgeDays(leadDate, today))
  {
    if ids != [] {
      ApplicableRuleFirst(leadDate, today, rules, ids[1..]);
      assert ids == [ids[0]] + ids[1..];
    }
  }

  // --- Listing the active rules --------------------------------------------

  function ActiveRows(rules: seq<Rule>): (ids: seq<nat>)
    ensures InTable(rules, ids)
  {
    if rules == [] then []
    else
      var n := |rules| - 1;
      ActiveRows(rules[..n]) + if rules[n].active then [n] else []
  }

  /** The ids are those of the active rules, each listed once. */
  ghost predicate ListsActive(rules: seq<Rule>, ids: seq<nat>) {
    && InTable(rules, ids)
    && NoDup(ids)
    && forall i: nat :: i in ids <==> i < |rules| && rules[i].active
  }

  lemma {:induction false} ActiveRowsExact(rules: seq<Rule>)
    ensures ListsActive(rules, ActiveRows(rules))
  {
    if rules != [] {
      var n := |rules| - 1;
      ActiveRowsExact(rules[..n]);
      assert n !in ActiveRows(rules[..n]);
    }
  }

  /** `PricingRuleRepository.list(active_only=True)`: ordered by sort order, then id. */
  function ActiveList(rules: seq<Rule>): (ids: seq<nat>)
    ensures InTable(rules, ids)
  {
    SortIds(SortOrders(rules), ActiveRows(rules))
  }

  /** `PricingRuleRepository.list()`: every rule, in the same order. */
  function RuleList(rules: seq<Rule>): seq<nat> {
    SortIds(SortOrders(rules), seq(|rules|, i requires 0 <= i < |rules| => i))
  }

  function SortOrders(rules: seq<Rule>): seq<int> {
    seq(|rules|, i requires 0 <= i < |rules| => rules[i].sortOrder)
  }

  /** The active rules in the order `validate_ranges` inspects them. */
  function ActiveByAge(rules: seq<Rule>): (ids: seq<nat>)
    ensures InTable(rules, ids)
  {
    SortIds(MinAges(rules), ActiveRows(rules))
  }

  function MinAges(rules: seq<Rule>): seq<int> {
    seq(|rules|, i requires 0 <= i < |rules| => rules[i].minAge)
  }

  lemma ActiveListExact(rules: seq<Rule>)
    ensures ListsActive(rules, ActiveList(rules))
  {
    ActiveRowsExact(rules);
    SortIdsCorrect(SortOrders(rules), ActiveRows(rules));
  }

  /** By sort order, then id. */
  predicate ListedBefore(rules: seq<Rule>, i: nat, j: nat)
    requires i < |rules| && j < |rules|
  {
    rules[i].sortOrder < rules[j].sortOrder || (rules[i].sortOrder == rules[j].sortOrder && i < j)
  }

  ghost predicate InListOrder(rules: seq<Rule>, ids: seq<nat>) {
    && InTable(rules, ids)
    && forall a, b | 0 <= a < b < |ids| :: ListedBefore(rules, ids[a], ids[b])
  }

  /** The list of all rules has every row once and the list of active rules every active row once, both by
      sort order, then id. */
  lemma ListsAreOrdered(rules: seq<Rule>)
    ensures InListOrder(rules, ActiveList(rules)) && ListsActive(rules, ActiveList(rules))
    ensures InListOrder(rules, RuleList(rules)) && forall i: nat :: i in RuleList(rules) <==> i < |rules|
  {
    ActiveListExact(rules);
    ActiveRowsExact(rules);
    SortIdsCorrect(SortOrders(rules), ActiveRows(rules));
    ListOrdered(rules, ActiveList(rules));
    var all := seq(|rules|, i requires 0 <= i < |rules| => i);
    SortIdsCorrect(SortOrders(rules), all);
    forall i: nat ensures i in all <==> i < |rules| {
      assert i < |rules| ==> all[i] == i;
    }
    ListOrdered(rules, RuleList(rules));
  }

  lemma ListOrdered(rules: seq<Rule>, ids: seq<nat>)
    requires SortedIds(SortOrders(rules), ids)
    ensures InListOrder(rules, ids)
  {
    forall a, b | 0 <= a < b < |ids| ensures ListedBefore(rules, ids[a], ids[b]) {
      assert KeyBefore(SortOrders(rules), ids[a], ids[b]);
    }
  }

  lemma ActiveByAgeExact(rules: seq<Rule>)
    ensures ListsActive(rules, ActiveByAge(rules))
    ensures SortedIds(MinAges(rules), ActiveByAge(rules))
  {
    ActiveRowsExact(rules);
    SortIdsCorrect(MinAges(rules), ActiveRows(rules));
  }

  // --- Validation ----------------------------------------------------------

  predicate Adjacent(left: Rule, right: Rule) {
    left.maxAge.Some? && right.minAge == left.maxAge.value + 1
  }

  function ValidateRanges(rules: seq<Rule>): Result<(), Error> {
    var active := ActiveByAge(rules);
    if !AllWellFormed(rules) then Err(ValidationError)
    else if active == [] || rules[active[0]].minAge != 0 then Err(PricingRuleConflict)
    else if !forall k | 0 <= k < |active| - 1 :: Adjacent(rules[active[k]], rules[active[k + 1]]) then
      Err(PricingRuleConflict)
    else if rules[active[|active| - 1]].maxAge.Some? then Err(PricingRuleConflict)
    else Ok(())
  }

  ghost predicate CoveredOnce(rules: seq<Rule>, age: int) {
    exists i | 0 <= i < |rules| ::
      Covers(rules[i], age) && forall j | 0 <= j < |rules| && Covers(rules[j], age) :: j == i
  }

  /** Every age from 0 upwards is covered by exactly one active rule. */
  ghost predicate Partition(rules: seq<Rule>) {
    forall age: nat :: CoveredOnce(rules, age)
  }

  lemma CoveredOnceAt(rules: seq<Rule>, age: int, i: nat, j: nat)
    requires CoveredOnce(rules, age) && i < |rules| && j < |rules|
    ensures Covers(rules[i], age) && Covers(rules[j], age) ==> i == j
  {
  }

  /** From the rule at position `k` on, the accepted tiers reach every later age. */
  lemma {:induction false} TiersReach(rules: seq<Rule>, k: nat, age: int)
    requires ValidateRanges(rules).Ok?
    requires k < |ActiveByAge(rules)| && rules[ActiveByAge(rules)[k]].minAge <= age
    ensures exists i | 0 <= i < |rules| :: Covers(rules[i], age)
    decreases |ActiveByAge(rules)| - k
  {
    var active := ActiveByAge(rules);
    ActiveByAgeExact(rules);
    var r := rules[active[k]];
    assert active[k] in active;
    if r.maxAge.Some? && r.maxAge.value < age {
      assert Adjacent(rules[active[k]], rules[active[k + 1]]);
      TiersReach(rules, k + 1, age);
    } else {
      assert Covers(rules[active[k]], age);
    }
  }

  lemma {:induction false} TiersDisjoint(rules: seq<Rule>, a: nat, b: nat)
    requires ValidateRanges(rules).Ok? && a < b < |ActiveByAge(rules)|
    ensures var active := ActiveByAge(rules);
      rules[active[a]].maxAge.Some? && rules[active[a]].maxAge.value < rules[active[b]].minAge
  {
    var active := ActiveByAge(rules);
    assert Adjacent(rules[active[b - 1]], rules[active[b]]);
    if a < b - 1 {
      TiersDisjoint(rules, a, b - 1);
      assert WellFormed(rules[active[b - 1]]);
    }
  }

  /** No age lies in two accepted tiers. */
  lemma OneTier(rules: seq<Rule>, age: int, i: nat, j: nat)
    requires ValidateRanges(rules).Ok? && i < |rules| && j < |rules| && Covers(rules[i], age) && Covers(rules[j], age)
    ensures i == j
  {
    var active := ActiveByAge(rules);
    ActiveByAgeExact(rules);
    assert i in active && j in active;
    var a :| 0 <= a < |active| && active[a] == i;
    var b :| 0 <= b < |active| && active[b] == j;
    if a < b {
      TiersDisjoint(rules, a, b);
    } else if b < a {
      TiersDisjoint(rules, b, a);
    }
  }

  lemma ValidateRangesSound(rules: seq<Rule>)
    requires ValidateRanges(rules).Ok?
    ensures Partition(rules)
  {
    forall age: nat ensures CoveredOnce(rules, age) {
      TiersReach(rules, 0, age);
      var i :| 0 <= i < |rules| && Covers(rules[i], age);
      forall j | 0 <= j < |rules| && Covers(rules[j], age) ensures j == i {
        OneTier(rules, age, i, j);
      }
    }
  }

  /** In a partition, the rule after a bounded one starts the day after it ends. */
  lemma NextTier(rules: seq<Rule>, active: seq<nat>, k: nat)
    requires AllWellFormed(rules) && Partition(rules)
    requires ListsActive(rules, active) && SortedIds(MinAges(rules), active) && k < |active|
    ensures rules[active[k]].maxAge.Some? ==>
      k + 1 < |active| && rules[active[k + 1]].minAge == rules[active[k]].maxAge.value + 1
    ensures rules[active[k]].maxAge.None? ==> k + 1 == |active|
  {
    var left := rules[active[k]];
    assert WellFormed(left) && active[k] in active;
    if k + 1 < |active| {
      var right := rules[active[k + 1]];
      assert WellFormed(right) && active[k + 1] in active;
      SortedKeys(MinAges(rules), active, k, k + 1);
      assert active[k] != active[k + 1];
      // Two rules never cover the first day of the later one.
      assert CoveredOnce(rules, right.minAge);
      CoveredOnceAt(rules, right.minAge, active[k], active[k + 1]);
    }
    if left.maxAge.Some? {
      var age := left.maxAge.value + 1;
      assert CoveredOnce(rules, age) && CoveredOnce(rules, left.minAge);
      var i :| 0 <= i < |rules| && Covers(rules[i], age);
      assert i in active && WellFormed(rules[i]);
      var m :| 0 <= m < |active| && active[m] == i;
      CoveredOnceAt(rules, left.minAge, active[k], i);
      SortedKeys(MinAges(rules), active, m, k);
      assert m > k;
      SortedKeys(MinAges(rules), active, k + 1, m);
    }
  }

  lemma ValidateRangesComplete(rules: seq<Rule>)
    requires AllWellFormed(rules) && Partition(rules)
    ensures ValidateRanges(rules).Ok?
  {
    var active := ActiveByAge(rules);
    ActiveByAgeExact(rules);
    assert CoveredOnce(rules, 0);
    var i :| 0 <= i < |rules| && Covers(rules[i], 0);
    assert i in active;
    var m :| 0 <= m < |active| && active[m] == i;
    SortedKeys(MinAges(rules), active, 0, m);
    assert WellFormed(rules[active[0]]) && WellFormed(rules[i]);
    forall k | 0 <= k < |active| - 1 ensures Adjacent(rules[active[k]], rules[active[k + 1]]) {
      NextTier(rules, active, k);
    }
    NextTier(rules, active, |active| - 1);
  }

  /** The adjacency scan over the sorted rules accepts exactly the partitions of all ages. */
  lemma ValidateRangesExact(rules: seq<Rule>)
    ensures ValidateRanges(rules).Ok? <==> AllWellFormed(rules) && Partition(rules)
  {
    if ValidateRanges(rules).Ok? {
      ValidateRangesSound(rules);
    } else if AllWellFormed(rules) && Partition(rules) {
      ValidateRangesComplete(rules);
    }
  }

  /** `slot` sends each position of `a` to a position of `b` holding the same rule, one to one and onto. */
  ghost predicate Rearranged(a: seq<Rule>, b: seq<Rule>, slot: seq<nat>) {
    && |slot| == |a|
    && NoDup(slot)
    && (forall k | 0 <= k < |a| :: slot[k] < |b| && b[slot[k]] == a[k])
    && (forall j: nat | j < |b| :: j in slot)
  }

  lemma PartitionRearranged(a: seq<Rule>, b: seq<Rule>, slot: seq<nat>)
    requires Rearranged(a, b, slot) && AllWellFormed(a) && Partition(a)
    ensures AllWellFormed(b) && Partition(b)
  {
    forall j | 0 <= j < |b| ensures WellFormed(b[j]) {
      assert j in slot;
      var k :| 0 <= k < |slot| && slot[k] == j;
      assert WellFormed(a[k]);
    }
    forall age: nat ensures CoveredOnce(b, age) {
      assert CoveredOnce(a, age);
      var i :| 0 <= i < |a| && Covers(a[i], age);
      assert Covers(b[slot[i]], age);
      forall j | 0 <= j < |b| && Covers(b[j], age) ensures j == slot[i] {
        assert j in slot;
        var k :| 0 <= k < |slot| && slot[k] == j;
        CoveredOnceAt(a, age, i, k);
      }
    }
  }

  /** The rearrangement also goes back. */
  lemma PartitionArranged(a: seq<Rule>, b: seq<Rule>, slot: seq<nat>)
    requires Rearranged(a, b, slot) && AllWellFormed(b) && Partition(b)
    ensures AllWellFormed(a) && Partition(a)
  {
    forall k | 0 <= k < |a| ensures WellFormed(a[k]) {
      assert WellFormed(b[slot[k]]);
    }
    forall age: nat ensures CoveredOnce(a, age) {
      assert CoveredOnce(b, age);
      var j :| 0 <= j < |b| && Covers(b[j], age);
      assert j in slot;
      var k :| 0 <= k < |slot| && slot[k] == j;
      assert Covers(a[k], age);
      forall m | 0 <= m < |a| && Covers(a[m], age) ensures m == k {
        CoveredOnceAt(b, age, j, slot[m]);
      }
    }
  }

  /** Acceptance does not depend on the order in which the rules are submitted. */
  lemma ValidateRangesOrderFree(a: seq<Rule>, b: seq<Rule>, slot: seq<nat>)
    requires Rearranged(a, b, slot)
    ensures ValidateRanges(a).Ok? <==> ValidateRanges(b).Ok?
  {
    ValidateRangesExact(a);
    ValidateRangesExact(b);
    if ValidateRanges(a).Ok? {
      PartitionRearranged(a, b, slot);
    }
    if ValidateRanges(b).Ok? {
      PartitionArranged(a, b, slot);
    }
  }

  /** Before the first configuration there are no rules; afterwards they always partition all ages. */
  ghost predicate Configured(rules: seq<Rule>) {
    rules == [] || (AllWellFormed(rules) && Partition(rules))
  }

  // --- Single edits --------------------------------------------------------

  /** A PATCH body. `None` is an absent field; a present `maxAge` may itself be null. */
  datatype Patch = Patch(
    minAge: Option<int>,
    maxAge: Option<Option<int>>,
    price: Option<int>,
    exclusionDays: Option<int>,
    sortOrder: Option<int>,
    active: Option<bool>)

  function Patched<T>(given: Option<T>, stored: T): T {
    if given.Some? then given.value else stored
  }

  function Merge(r: Rule, p: Patch): Rule {
    Rule(Patched(p.minAge, r.minAge), Patched(p.maxAge, r.maxAge), Patched(p.price, r.price),
      Patched(p.exclusionDays, r.exclusionDays), Patched(p.sortOrder, r.sortOrder), Patched(p.active, r.active))
  }

  function Create(rules: seq<Rule>, data: Rule): Result<seq<Rule>, Error> {
    match ValidateRanges(rules + [data])
    case Err(e) => Err(e)
    case Ok(_) => Ok(rules + [data])
  }

  predicate PriceTaken(rules: seq<Rule>, id: nat, price: int) {
    exists j | 0 <= j < |rules| :: j != id && rules[j].active && rules[j].price == price
  }

  function Update(rules: seq<Rule>, id: nat, patch: Patch): Result<seq<Rule>, Error> {
    if id >= |rules| then Err(NotFoundError)
    else if patch.price.Some? && patch.price.value != rules[id].price && PriceTaken(rules, id, patch.price.value) then
      Err(PricingRuleConflict)
    else if !WellFormed(Merge(rules[id], patch)) then Err(DomainError)
    else
      var edited := rules[id := Merge(rules[id], patch)];
      match ValidateRanges(edited)
      case Err(e) => Err(e)
      case Ok(_) => Ok(edited)
  }

  /** The active rules all have different prices. */
  ghost predicate DistinctPrices(rules: seq<Rule>) {
    forall i, j | 0 <= i < j < |rules| && rules[i].active && rules[j].active :: rules[i].price != rules[j].price
  }

  /** Appending a rule to a partition is accepted only when the rule is inactive. */
  lemma CreateIsRigid(rules: seq<Rule>, data: Rule)
    requires Partition(rules) && Create(rules, data).Ok?
    ensures !data.active
    ensures forall age: int, i: nat | i <= |rules| ::
      Covers((rules + [data])[i], age) <==> i < |rules| && Covers(rules[i], age)
    ensures DistinctPrices(rules) ==> DistinctPrices(Create(rules, data).value)
  {
    var after := rules + [data];
    ValidateRangesExact(after);
    assert WellFormed(after[|rules|]);
    assert CoveredOnce(rules, data.minAge) && CoveredOnce(after, data.minAge);
    var i :| 0 <= i < |rules| && Covers(rules[i], data.minAge);
    assert after[i] == rules[i];
    CoveredOnceAt(after, data.minAge, i, |rules|);
  }

  /** An accepted edit of one rule in a partition leaves every age with the rule it had. */
  lemma UpdateIsRigid(rules: seq<Rule>, id: nat, patch: Patch)
    requires AllWellFormed(rules) && Partition(rules) && Update(rules, id, patch).Ok?
    ensures var after := Update(rules, id, patch).value;
      && |after| == |rules|
      && after[id].active == rules[id].active
      && (rules[id].active ==> after[id].minAge == rules[id].minAge && after[id].maxAge == rules[id].maxAge)
      && (forall age: nat, i: nat | i < |rules| :: Covers(after[i], age) <==> Covers(rules[i], age))
      && (DistinctPrices(rules) ==> DistinctPrices(after))
  {
    var was, now := rules[id], Merge(rules[id], patch);
    var after := rules[id := now];
    ValidateRangesExact(after);
    forall age: nat ensures Covers(now, age) <==> Covers(was, age) {
      SameCover(rules, id, now, age);
    }
    assert WellFormed(was) && WellFormed(now);
    SameRange(was, now);
    if DistinctPrices(rules) {
      forall i, j | 0 <= i < j < |after| && after[i].active && after[j].active
        ensures after[i].price != after[j].price
      {
        if (i == id || j == id) && now.price != was.price {
          assert !PriceTaken(rules, id, now.price);
        }
      }
    }
  }

  /** Two rules that cover the same ages are both inactive or have the same range. */
  lemma SameRange(was: Rule, now: Rule)
    requires WellFormed(was) && WellFormed(now)
    requires forall age: nat :: Covers(now, age) <==> Covers(was, age)
    ensures now.active == was.active
    ensures was.active ==> now.minAge == was.minAge && now.maxAge == was.maxAge
  {
    assert Covers(now, was.minAge) <==> Covers(was, was.minAge);
    assert Covers(now, now.minAge) <==> Covers(was, now.minAge);
    var wasEnd := if was.maxAge.Some? then was.maxAge.value else 0;
    var nowEnd := if now.maxAge.Some? then now.maxAge.value else 0;
    assert Covers(now, wasEnd) <==> Covers(was, wasEnd);
    assert Covers(now, wasEnd + 1) <==> Covers(was, wasEnd + 1);
    assert Covers(now, nowEnd) <==> Covers(was, nowEnd);
    assert Covers(now, nowEnd + 1) <==> Covers(was, nowEnd + 1);
  }

  lemma SameCover(rules: seq<Rule>, id: nat, now: Rule, age: int)
    requires id < |rules| && CoveredOnce(rules, age) && CoveredOnce(rules[id := now], age)
    ensures Covers(now, age) <==> Covers(rules[id], age)
  {
    var after := rules[id := now];
    if Covers(now, age) {
      var i :| 0 <= i < |rules| && Covers(rules[i], age);
      CoveredOnceAt(after, age, id, if Covers(after[i], age) then i else id);
    } else {
      var j :| 0 <= j < |after| && Covers(after[j], age);
      CoveredOnceAt(rules, age, j, if Covers(rules[id], age) then id else j);
    }
  }

  lemma SingleRuleCovers(data: Rule)
    requires WellFormed(data)
    ensures Partition([data]) <==> data.active && data.minAge == 0 && data.maxAge.None?
  {
    var rules := [data];
    if data.active && data.minAge == 0 && data.maxAge.None? {
      forall age: nat ensures CoveredOnce(rules, age) {
        assert Covers(rules[0], age);
      }
    }
    if Partition(rules) {
      assert CoveredOnce(rules, 0);
      assert data.maxAge.Some? ==> CoveredOnce(rules, data.maxAge.value + 1);
    }
  }

  /** An age is still covered once when the same rows cover it and no new row does. */
  lemma CoveredOnceSame(a: seq<Rule>, b: seq<Rule>, age: int)
    requires CoveredOnce(a, age) && |a| <= |b|
    requires forall i | 0 <= i < |b| :: Covers(b[i], age) <==> i < |a| && Covers(a[i], age)
    ensures CoveredOnce(b, age)
  {
    var i :| 0 <= i < |a| && Covers(a[i], age) && forall j | 0 <= j < |a| && Covers(a[j], age) :: j == i;
    assert Covers(b[i], age);
  }

  lemma InactiveAdded(rules: seq<Rule>, data: Rule)
    requires Partition(rules) && !data.active
    ensures Partition(rules + [data])
  {
    forall age: nat ensures CoveredOnce(rules + [data], age) {
      assert CoveredOnce(rules, age);
      CoveredOnceSame(rules, rules + [data], age);
    }
  }

  /** Exactly which rules can be created: the first must cover every age, any later one must be inactive. */
  lemma CreateAcceptedExactly(rules: seq<Rule>, data: Rule)
    requires Configured(rules)
    ensures Create(rules, data).Ok? <==>
      && data.minAge >= 0 && (data.maxAge.Some? ==> data.minAge <= data.maxAge.value)
      && data.price > 0 && data.exclusionDays >= 0
      && if rules == [] then data.active && data.minAge == 0 && data.maxAge.None? else !data.active
    ensures Create(rules, data).Ok? ==> Create(rules, data).value == rules + [data]
  {
    var after := rules + [data];
    ValidateRangesExact(after);
    assert after[|rules|] == data;
    if rules == [] {
      assert after == [data];
      if WellFormed(data) {
        SingleRuleCovers(data);
      }
    } else if !data.active {
      InactiveAdded(rules, data);
    } else if Create(rules, data).Ok? {
      CreateIsRigid(rules, data);
    }
  }

  lemma SameRangeReplaced(rules: seq<Rule>, id: nat, now: Rule)
    requires Partition(rules) && id < |rules|
    requires now.active == rules[id].active
    requires now.active ==> now.minAge == rules[id].minAge && now.maxAge == rules[id].maxAge
    ensures Partition(rules[id := now])
  {
    var after := rules[id := now];
    forall age: nat ensures CoveredOnce(after, age) {
      assert CoveredOnce(rules, age);
      CoveredOnceSame(rules, after, age);
    }
  }

  /** Exactly which patches of one rule are accepted: those that keep its activity and active range, stay
      well formed, and do not move its price onto another active rule's. An accepted patch writes every field
      it gives, a null upper age included, and keeps the rest and every other rule. */
  lemma UpdateAcceptedExactly(rules: seq<Rule>, id: nat, patch: Patch)
    requires Configured(rules) && id < |rules|
    ensures var was := rules[id];
      var minAge := if patch.minAge.Some? then patch.minAge.value else was.minAge;
      var maxAge := if patch.maxAge.Some? then patch.maxAge.value else was.maxAge;
      var price := if patch.price.Some? then patch.price.value else was.price;
      var exclusionDays := if patch.exclusionDays.Some? then patch.exclusionDays.value else was.exclusionDays;
      var sortOrder := if patch.sortOrder.Some? then patch.sortOrder.value else was.sortOrder;
      var active := if patch.active.Some? then patch.active.value else was.active;
      && (Update(rules, id, patch).Ok? <==>
            && minAge >= 0 && (maxAge.Some? ==> minAge <= maxAge.value) && price > 0 && exclusionDays >= 0
            && active == was.active
            && (was.active ==> minAge == was.minAge && maxAge == was.maxAge)
            && (price != was.price ==>
                  forall j | 0 <= j < |rules| && j != id && rules[j].active :: rules[j].price != price))
      && (Update(rules, id, patch).Ok? ==>
            Update(rules, id, patch).value
              == rules[id := Rule(minAge, maxAge, price, exclusionDays, sortOrder, active)])
  {
    var was, now := rules[id], Merge(rules[id], patch);
    MergedAccepted(rules, id, patch);
    PatchWritten(was, patch);
  }

  lemma PatchWritten(was: Rule, patch: Patch)
    ensures var now := Merge(was, patch);
      && now.minAge == (if patch.minAge.Some? then patch.minAge.value else was.minAge)
      && now.maxAge == (if patch.maxAge.Some? then patch.maxAge.value else was.maxAge)
      && now.price == (if patch.price.Some? then patch.price.value else was.price)
      && now.exclusionDays == (if patch.exclusionDays.Some? then patch.exclusionDays.value else was.exclusionDays)
      && now.sortOrder == (if patch.sortOrder.Some? then patch.sortOrder.value else was.sortOrder)
      && now.active == (if patch.active.Some? then patch.active.value else was.active)
  {
  }

  lemma MergedAccepted(rules: seq<Rule>, id: nat, patch: Patch)
    requires Configured(rules) && id < |rules|
    ensures var was, now := rules[id], Merge(rules[id], patch);
      Update(rules, id, patch).Ok? <==>
        && WellFormed(now)
        && now.active == was.active
        && (was.active ==> now.minAge == was.minAge && now.maxAge == was.maxAge)
        && (now.price != was.price ==> !PriceTaken(rules, id, now.price))
    ensures Update(rules, id, patch).Ok? ==> Update(rules, id, patch).value == rules[id := Merge(rules[id], patch)]
  {
    var was, now := rules[id], Merge(rules[id], patch);
    ValidateRangesExact(rules[id := now]);
    if Update(rules, id, patch).Ok? {
      UpdateIsRigid(rules, id, patch);
    } else if now.active == was.active && (was.active ==> now.minAge == was.minAge && now.maxAge == was.maxAge) {
      SameRangeReplaced(rules, id, now);
    }
  }

  /** Which error a rejected edit raises: a rule that is not well formed is invalid on creation and a bad range on
      an edit, a missing rule is not found, and anything else is a conflict. */
  lemma EditErrors(rules: seq<Rule>, data: Rule, id: nat, patch: Patch)
    requires Configured(rules)
    ensures Create(rules, data).Err? ==>
      Create(rules, data).error == if WellFormed(data) then PricingRuleConflict else ValidationError
    ensures id >= |rules| ==> Update(rules, id, patch) == Err(NotFoundError)
    ensures id < |rules| && Update(rules, id, patch).Err? ==>
      var price := if patch.price.Some? then patch.price.value else rules[id].price;
      var taken := price != rules[id].price
        && exists j | 0 <= j < |rules| :: j != id && rules[j].active && rules[j].price == price;
      Update(rules, id, patch).error
        == if taken || WellFormed(Merge(rules[id], patch)) then PricingRuleConflict else DomainError
  {
    var after := rules + [data];
    assert AllWellFormed(after) <==> WellFormed(data) by {
      assert after[|rules|] == data;
    }
    if id < |rules| {
      PatchWritten(rules[id], patch);
    }
  }

  // --- Whole-configuration edits -------------------------------------------

  datatype Item = Item(id: Option<nat>, rule: Rule)

  function ItemRules(items: seq<Item>): seq<Rule> {
    seq(|items|, k requires 0 <= k < |items| => items[k].rule)
  }

  /** Every existing id is submitted, none twice, and no other id is. */
  predicate IdsComplete(n: nat, items: seq<Item>) {
    && (forall a, b | 0 <= a < b < |items| && items[a].id.Some? :: items[a].id != items[b].id)
    && (forall k | 0 <= k < |items| && items[k].id.Some? :: items[k].id.value < n)
    && (forall i: nat | i < n :: exists k | 0 <= k < |items| :: items[k].id == Some(i))
  }

  function ApplyItem(rules: seq<Rule>, item: Item): seq<Rule> {
    if item.id.Some? && item.id.value < |rules| then rules[item.id.value := item.rule]
    else rules + [item.rule]
  }

  function ApplyItems(rules: seq<Rule>, items: seq<Item>): seq<Rule> {
    if items == [] then rules
    else ApplyItem(ApplyItems(rules, items[..|items| - 1]), items[|items| - 1])
  }

  function UpdateBatch(rules: seq<Rule>, items: seq<Item>): Result<seq<Rule>, Error> {
    if !IdsComplete(|rules|, items) then Err(DomainError)
    else
      match ValidateRanges(ItemRules(items))
      case Err(e) => Err(e)
      case Ok(_) => Ok(ApplyItems(rules, items))
  }

  function NewCount(items: seq<Item>): nat {
    if items == [] then 0
    else NewCount(items[..|items| - 1]) + if items[|items| - 1].id.None? then 1 else 0
  }

  /** The row where item `k` ends up: its own id, or the next free row. */
  function Slot(n: nat, items: seq<Item>, k: nat): nat
    requires k < |items|
  {
    if items[k].id.Some? then items[k].id.value else n + NewCount(items[..k])
  }

  lemma {:induction false} NewCountMonotone(items: seq<Item>, a: nat, b: nat)
    requires a <= b <= |items|
    ensures NewCount(items[..a]) <= NewCount(items[..b])
    ensures a < b && items[a].id.None? ==> NewCount(items[..a]) < NewCount(items[..b])
  {
    if a < b {
      NewCountMonotone(items, a, b - 1);
      assert items[..b][..b - 1] == items[..b - 1];
    }
  }

  function Slots(n: nat, items: seq<Item>): seq<nat> {
    seq(|items|, k requires 0 <= k < |items| => Slot(n, items, k))
  }

  lemma SlotsDiffer(n: nat, items: seq<Item>)
    requires IdsComplete(n, items)
    ensures NoDup(Slots(n, items))
  {
    var slots := Slots(n, items);
    forall a, b | 0 <= a < b < |slots| ensures slots[a] != slots[b] {
      NewCountMonotone(items, a, b);
    }
  }

  /** The first `k` submitted rules sit in their slots, and every row from `known` on is one of those slots. */
  ghost predicate Placed(known: nat, slots: seq<nat>, submitted: seq<Rule>, k: nat, table: seq<Rule>)
    requires k <= |slots| == |submitted|
  {
    && (forall m | 0 <= m < k :: slots[m] < |table| && table[slots[m]] == submitted[m])
    && (forall j: nat | known <= j < |table| :: j in slots[..k])
  }

  lemma {:induction false} ApplyItemsPlaced(rules: seq<Rule>, items: seq<Item>, k: nat)
    requires IdsComplete(|rules|, items) && k <= |items|
    ensures Placed(|rules|, Slots(|rules|, items), ItemRules(items), k, ApplyItems(rules, items[..k]))
  {
    if k > 0 {
      ApplyItemsPlaced(rules, items, k - 1);
      AppliedItem(rules, items, k - 1);
      SlotsDiffer(|rules|, items);
      assert Slots(|rules|, items)[k - 1] == Slot(|rules|, items, k - 1);
      PlacedNext(|rules|, Slots(|rules|, items), ItemRules(items), k - 1,
        ApplyItems(rules, items[..k - 1]), ApplyItems(rules, items[..k]));
    }
  }

  /** Writing one slot leaves the earlier slots as they are, and a new row is that slot. */
  lemma PlacedNext(
    known: nat, slots: seq<nat>, submitted: seq<Rule>, k: nat, before: seq<Rule>, table: seq<Rule>)
    requires NoDup(slots) && k < |slots| == |submitted| && Placed(known, slots, submitted, k, before)
    requires if slots[k] < |before| then table == before[slots[k] := submitted[k]]
             else slots[k] == |before| && table == before + [submitted[k]]
    ensures Placed(known, slots, submitted, k + 1, table)
  {
    forall m | 0 <= m < k + 1 ensures slots[m] < |table| && table[slots[m]] == submitted[m] {
      assert m < k ==> slots[m] != slots[k];
    }
    NewRowsPlaced(slots[..k], slots[k], known, |before|, |table|);
    assert slots[..k + 1] == slots[..k] + [slots[k]];
  }

  lemma NewRowsPlaced(slots: seq<nat>, slot: nat, known: nat, before: nat, after: nat)
    requires forall j: nat | known <= j < before :: j in slots
    requires after == before || (after == before + 1 && slot == before)
    ensures forall j: nat | known <= j < after :: j in slots + [slot]
  {
  }

  /** One round of the batch loop: the row it writes is the item's slot. */
  lemma {:induction false} AppliedItem(rules: seq<Rule>, items: seq<Item>, k: nat)
    requires IdsComplete(|rules|, items) && k < |items|
    ensures var before := ApplyItems(rules, items[..k]);
      && |before| == |rules| + NewCount(items[..k])
      && ApplyItems(rules, items[..k + 1]) == ApplyItem(before, items[k])
      && NewCount(items[..k + 1]) == NewCount(items[..k]) + (if items[k].id.None? then 1 else 0)
      && (items[k].id.Some? ==> items[k].id.value < |before|)
  {
    assert items[..k + 1][..k] == items[..k];
    if k > 0 {
      AppliedItem(rules, items, k - 1);
    }
  }

  lemma BatchRearranges(rules: seq<Rule>, items: seq<Item>)
    requires IdsComplete(|rules|, items)
    ensures Rearranged(ItemRules(items), ApplyItems(rules, items), Slots(|rules|, items))
    ensures |ApplyItems(rules, items)| >= |rules|
  {
    var after := ApplyItems(rules, items);
    var slots := Slots(|rules|, items);
    assert items[..|items|] == items && slots[..|items|] == slots;
    ApplyItemsPlaced(rules, items, |items|);
    SlotsDiffer(|rules|, items);
    if items != [] {
      AppliedItem(rules, items, |items| - 1);
    }
    forall j: nat | j < |after| ensures j in slots {
      if j < |rules| {
        var k :| 0 <= k < |items| && items[k].id == Some(j);
        assert slots[k] == j;
      } else {
        assert j in slots[..|items|];
      }
    }
  }

  /** A batch is accepted exactly when it names every existing rule once and its rules, each well formed,
      partition the ages. */
  lemma BatchAcceptedExactly(rules: seq<Rule>, items: seq<Item>)
    ensures UpdateBatch(rules, items).Ok? <==>
      && (forall a, b | 0 <= a < b < |items| && items[a].id.Some? :: items[a].id != items[b].id)
      && (forall k | 0 <= k < |items| && items[k].id.Some? :: items[k].id.value < |rules|)
      && (forall i: nat | i < |rules| :: exists k | 0 <= k < |items| :: items[k].id == Some(i))
      && (forall k | 0 <= k < |items| ::
            var r := items[k].rule;
            r.minAge >= 0 && (r.maxAge.Some? ==> r.minAge <= r.maxAge.value) && r.price > 0 && r.exclusionDays >= 0)
      && Partition(seq(|items|, k requires 0 <= k < |items| => items[k].rule))
  {
    var submitted := seq(|items|, k requires 0 <= k < |items| => items[k].rule);
    assert ItemRules(items) == submitted;
    ValidateRangesExact(submitted);
    forall k | 0 <= k < |items| ensures submitted[k] == items[k].rule {
    }
  }

  /** The rule was submitted without an id. */
  ghost predicate SubmittedNew(items: seq<Item>, rule: Rule) {
    exists k | 0 <= k < |items| :: items[k].id.None? && items[k].rule == rule
  }

  /** A submitted id holds its rule afterwards, and any further row holds a rule submitted without one. */
  lemma BatchRows(rules: seq<Rule>, items: seq<Item>, after: seq<Rule>)
    requires IdsComplete(|rules|, items) && Rearranged(ItemRules(items), after, Slots(|rules|, items))
    ensures forall k | 0 <= k < |items| && items[k].id.Some? ::
      items[k].id.value < |after| && after[items[k].id.value] == items[k].rule
    ensures forall j | |rules| <= j < |after| :: SubmittedNew(items, after[j])
  {
    var slots := Slots(|rules|, items);
    forall k | 0 <= k < |items| && items[k].id.Some?
      ensures items[k].id.value < |after| && after[items[k].id.value] == items[k].rule
    {
      assert slots[k] == items[k].id.value;
    }
    forall j | |rules| <= j < |after| ensures SubmittedNew(items, after[j]) {
      assert j in slots;
      var k :| 0 <= k < |slots| && slots[k] == j;
      assert items[k].id.None? && items[k].rule == after[j];
    }
  }

  /** An accepted batch leaves exactly the submitted rules, a partition, with every existing id kept. */
  lemma UpdateBatchExact(rules: seq<Rule>, items: seq<Item>)
    requires UpdateBatch(rules, items).Ok?
    ensures var after := UpdateBatch(rules, items).value;
      && Rearranged(ItemRules(items), after, Slots(|rules|, items))
      && |after| >= |rules|
      && (forall k | 0 <= k < |items| && items[k].id.Some? ::
            items[k].id.value < |rules| && after[items[k].id.value] == items[k].rule)
      && (forall j | |rules| <= j < |after| :: SubmittedNew(items, after[j]))
      && AllWellFormed(after)
      && Partition(after)
  {
    var after := ApplyItems(rules, items);
    var slots := Slots(|rules|, items);
    BatchRearranges(rules, items);
    BatchRows(rules, items, after);
    ValidateRangesExact(ItemRules(items));
    PartitionRearranged(ItemRules(items), after, slots);
  }

  lemma PricesRearranged(a: seq<Rule>, b: seq<Rule>, slot: seq<nat>)
    requires Rearranged(a, b, slot)
    ensures DistinctPrices(a) <==> DistinctPrices(b)
  {
    if DistinctPrices(a) {
      forall i, j | 0 <= i < j < |b| && b[i].active && b[j].active ensures b[i].price != b[j].price {
        assert i in slot && j in slot;
        var k :| 0 <= k < |slot| && slot[k] == i;
        var m :| 0 <= m < |slot| && slot[m] == j;
        assert k < m || m < k;
      }
    }
    if DistinctPrices(b) {
      forall k, m | 0 <= k < m < |a| && a[k].active && a[m].active ensures a[k].price != a[m].price {
        assert slot[k] != slot[m];
        assert b[slot[k]] == a[k] && b[slot[m]] == a[m];
      }
    }
  }

  /** A single edit keeps tiers at different prices apart; a batch does so exactly when the submitted
      active rules have different prices, which it does not check. */
  lemma BatchPricesExactly(rules: seq<Rule>, items: seq<Item>)
    requires UpdateBatch(rules, items).Ok?
    ensures DistinctPrices(UpdateBatch(rules, items).value) <==> DistinctPrices(ItemRules(items))
  {
    BatchRearranges(rules, items);
    PricesRearranged(ItemRules(items), ApplyItems(rules, items), Slots(|rules|, items));
  }

  const SHARED_PRICE := [
    Item(None, Rule(0, Some(1), 500, 30, 0, true)),
    Item(None, Rule(2, None, 500, 30, 1, true))]

  /** A batch that sells two age groups at one price is accepted. */
  lemma BatchMaySharePrice()
    ensures UpdateBatch([], SHARED_PRICE).Ok?
    ensures !DistinctPrices(UpdateBatch([], SHARED_PRICE).value)
  {
    var rules := ItemRules(SHARED_PRICE);
    assert rules == [SHARED_PRICE[0].rule, SHARED_PRICE[1].rule];
    assert AllWellFormed(rules);
    forall age: nat ensures CoveredOnce(rules, age) {
      assert Covers(rules[if age <= 1 then 0 else 1], age);
    }
    ValidateRangesExact(rules);
    BatchPricesExactly([], SHARED_PRICE);
    assert rules[0].price == rules[1].price;
  }

  // --- What every edit keeps --------------------------------------------------

  /** Every accepted edit leaves a partition, whatever was there before. */
  lemma EditsLeaveAPartition(rules: seq<Rule>, data: Rule, id: nat, patch: Patch, items: seq<Item>)
    ensures Create(rules, data).Ok? ==> Configured(Create(rules, data).value)
    ensures Update(rules, id, patch).Ok? ==> Configured(Update(rules, id, patch).value)
    ensures UpdateBatch(rules, items).Ok? ==> Configured(UpdateBatch(rules, items).value)
  {
    ValidateRangesExact(rules + [data]);
    if id < |rules| {
      ValidateRangesExact(rules[id := Merge(rules[id], patch)]);
    }
    if UpdateBatch(rules, items).Ok? {
      UpdateBatchExact(rules, items);
    }
  }

  /** In a configured table exactly one active rule covers a nonnegative age: the one looked up. */
  lemma ApplicableRuleUnique(leadDate: Date, today: Date, rules: seq<Rule>, r: nat)
    requires Configured(rules)
    ensures leadDate <= today && r < |rules| && Covers(rules[r], AgeDays(leadDate, today)) ==>
      ApplicableRule(leadDate, today, rules, ActiveList(rules)) == Some(r)
    ensures leadDate <= today && rules != [] ==> ApplicableRule(leadDate, today, rules, ActiveList(rules)).Some?
    ensures leadDate > today ==> ApplicableRule(leadDate, today, rules, ActiveList(rules)).None?
  {
    var age := AgeDays(leadDate, today);
    ActiveListExact(rules);
    ApplicableRuleFirst(leadDate, today, rules, ActiveList(rules));
    if leadDate <= today && rules != [] {
      assert CoveredOnce(rules, age);
    }
  }

  // --- The service ---------------------------------------------------------

  function RuleEvents(n: nat, items: seq<Item>, at: int): seq<Audit> {
    if items == [] then []
    else
      var k := |items| - 1;
      RuleEvents(n, items[..k], at) +
      [Audit(if items[k].id.Some? then RuleUpdated(Slot(n, items, k)) else RuleCreated(Slot(n, items, k)), at)]
  }

  /** One entry for each submitted item, in order, naming the row it was written to. */
  lemma {:induction false} RuleEventsExact(rules: seq<Rule>, items: seq<Item>, at: int)
    requires IdsComplete(|rules|, items)
    ensures var events := RuleEvents(|rules|, items, at);
      && |events| == |items|
      && forall k | 0 <= k < |items| ::
           var row := if items[k].id.Some? then items[k].id.value else |ApplyItems(rules, items[..k])|;
           events[k] == Audit(if items[k].id.Some? then RuleUpdated(row) else RuleCreated(row), at)
  {
    RuleEventsAt(|rules|, items, |items|, at);
    assert items[..|items|] == items;
    forall k | 0 <= k < |items| && items[k].id.None?
      ensures Slot(|rules|, items, k) == |ApplyItems(rules, items[..k])|
    {
      AppliedItem(rules, items, k);
    }
  }

  lemma {:induction false} RuleEventsAt(n: nat, items: seq<Item>, m: nat, at: int)
    requires m <= |items|
    ensures var events := RuleEvents(n, items[..m], at);
      && |events| == m
      && forall k | 0 <= k < m ::
           events[k].at == at
           && events[k].event == if items[k].id.Some? then RuleUpdated(items[k].id.value)
                                 else RuleCreated(Slot(n, items, k))
  {
    if m > 0 {
      RuleEventsAt(n, items, m - 1, at);
      assert items[..m][..m - 1] == items[..m - 1];
    }
  }

  /** One administrator transaction on the pricing table. */
  class PricingService {
    const db: Database

    constructor (db: Database)
      ensures this.db == db
    {
      this.db := db;
    }

    method CreateRule(data: Rule) returns (result: Result<nat, Error>)
      modifies db
      ensures match Create(old(db.rules), data)
        case Err(e) => result == Err(e) && db.View() == old(db.View())
        case Ok(table) =>
          && result == Ok(|old(db.rules)|)
          && db.View() == old(db.View()).(
            rules := table,
            audit := old(db.audit) + [Audit(RuleCreated(|old(db.rules)|), db.clock)])
    {
      match ValidateRanges(db.rules + [data])
      case Err(e) => return Err(e);
      case Ok(_) =>
        var id := |db.rules|;
        db.rules := db.rules + [data];
        db.Record(RuleCreated(id));
        return Ok(id);
    }

    method UpdateRule(id: nat, patch: Patch) returns (result: Result<nat, Error>)
      modifies db
      ensures match Update(old(db.rules), id, patch)
        case Err(e) => result == Err(e) && db.View() == old(db.View())
        case Ok(table) =>
          && result == Ok(id)
          && db.View() == old(db.View()).(
            rules := table, audit := old(db.audit) + [Audit(RuleUpdated(id), db.clock)])
    {
      var saved := db.View();
      if id >= |db.rules| {
        return Err(NotFoundError);
      }
      if patch.price.Some? && patch.price.value != db.rules[id].price {
        if PriceTaken(db.rules, id, patch.price.value) {
          return Err(PricingRuleConflict);
        }
      }
      var merged := Merge(db.rules[id], patch);
      if !WellFormed(merged) {
        return Err(DomainError);
      }
      db.rules := db.rules[id := merged];
      var verdict := ValidateRanges(db.rules);
      if verdict.Err? {
        db.Rollback(saved);
        return Err(verdict.error);
      }
      db.Record(RuleUpdated(id));
      return Ok(id);
    }

    method UpdateRules(items: seq<Item>) returns (result: Result<seq<nat>, Error>)
      modifies db
      ensures match UpdateBatch(old(db.rules), items)
        case Err(e) => result == Err(e) && db.View() == old(db.View())
        case Ok(table) =>
          && result == Ok(RuleList(table))
          && db.View() == old(db.View()).(
            rules := table, audit := old(db.audit) + RuleEvents(|old(db.rules)|, items, db.clock))
    {
      if !IdsComplete(|db.rules|, items) {
        return Err(DomainError);
      }
      var verdict := ValidateRanges(ItemRules(items));
      if verdict.Err? {
        return Err(verdict.error);
      }
      WriteItems(items);
      result := Ok(RuleList(db.rules));
    }

    /** The loop of `update_batch` over the submitted items. */
    method WriteItems(items: seq<Item>)
      requires IdsComplete(|db.rules|, items)
      modifies db
      ensures db.View() == old(db.View()).(
        rules := ApplyItems(old(db.rules), items),
        audit := old(db.audit) + RuleEvents(|old(db.rules)|, items, db.clock))
    {
      var n := |db.rules|;
      ghost var before := db.View();
      var k := 0;
      while k < |items|
        invariant k <= |items|
        invariant db.View() == before.(
          rules := ApplyItems(before.rules, items[..k]),
          audit := before.audit + RuleEvents(n, items[..k], before.clock))
      {
        AppliedItem(before.rules, items, k);
        assert items[..k + 1][..k] == items[..k];
        WriteItem(items[k]);
        k := k + 1;
      }
      assert items[..k] == items;
    }

    /** One round of that loop: set the fields of the row named, or add a row. */
    method WriteItem(item: Item)
      requires item.id.Some? ==> item.id.value < |db.rules|
      modifies db
      ensures db.View() == old(db.View()).(
        rules := ApplyItem(old(db.rules), item),
        audit := old(db.audit)
          + [Audit(if item.id.Some? then RuleUpdated(item.id.value) else RuleCreated(|old(db.rules)|), db.clock)])
    {
      if item.id.Some? {
        db.rules := db.rules[item.id.value := item.rule];
        db.Record(RuleUpdated(item.id.value));
      } else {
        db.rules := db.rules + [item.rule];
        db.Record(RuleCreated(|db.rules| - 1));
      }
    }
  }
}
