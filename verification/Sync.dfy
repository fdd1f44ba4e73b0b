/** Merging one parsed snapshot into the lead table, and the life of a sync run
    (app/services/lead_sync_service.py). */
module Sync {
  import opened Basics
  import opened Tables
  import opened Text
  import opened SheetParser

  /** The row of `by_external_id`; the column is unique. */
  function FindLead(leads: seq<Lead>, id: string, n: nat): Option<nat>
    requires n <= |leads|
  {
    if n == 0 then None
    else if leads[n - 1].fields.externalId == id then Some(n - 1)
    else FindLead(leads, id, n - 1)
  }

  lemma {:induction false} FindLeadExact(leads: seq<Lead>, id: string, n: nat)
    requires n <= |leads|
    ensures match FindLead(leads, id, n)
      case Some(i) => i < n && leads[i].fields.externalId == id
      case None => forall i | 0 <= i < n :: leads[i].fields.externalId != id
  {
    if n > 0 && leads[n - 1].fields.externalId != id {
      FindLeadExact(leads, id, n - 1);
    }
  }

  ghost predicate DistinctLeads(leads: seq<Lead>) {
    forall i, j | 0 <= i < j < |leads| :: leads[i].fields.externalId != leads[j].fields.externalId
  }

  predicate Carries(records: seq<Record>, id: string) {
    exists k | 0 <= k < |records| :: records[k].externalId == id
  }

  datatype Table = Table(leads: seq<Lead>, counters: Counters)

  /** One record of the snapshot: refresh its row, or add one. */
  function MergeRecord(existing: seq<Lead>, t: Table, record: Record, now: int): Table {
    var row := FindLead(existing, record.externalId, |existing|);
    if row.Some? && row.value < |t.leads| then
      Table(
        t.leads[row.value := Lead(record, true, Some(now), now)],
        t.counters.(
          updated := t.counters.updated + 1,
          reactivated := t.counters.reactivated + if t.leads[row.value].sourceActive then 0 else 1))
    else
      Table(t.leads + [Lead(record, true, Some(now), now)], t.counters.(created := t.counters.created + 1))
  }

  function MergeAll(existing: seq<Lead>, records: seq<Record>, now: int): Table {
    if records == [] then Table(existing, Counters(0, 0, 0, 0))
    else MergeRecord(existing, MergeAll(existing, records[..|records| - 1], now), records[|records| - 1], now)
  }

  /** Deactivating the first `n` rows that the snapshot does not mention. */
  function Retire(t: Table, records: seq<Record>, n: nat, now: int): Table
    requires n <= |t.leads|
  {
    if n == 0 then t
    else
      var before := Retire(t, records, n - 1, now);
      if |before.leads| == |t.leads| && before.leads[n - 1].sourceActive
          && !Carries(records, before.leads[n - 1].fields.externalId) then
        Table(
          before.leads[n - 1 := before.leads[n - 1].(sourceActive := false, updatedAt := now)],
          before.counters.(deactivated := before.counters.deactivated + 1))
      else before
  }

  /** An id that is new to the table and comes up twice would be added twice. */
  predicate RepeatsNew(existing: seq<Lead>, records: seq<Record>) {
    exists a, b | 0 <= a < b < |records| ::
      records[a].externalId == records[b].externalId && FindLead(existing, records[a].externalId, |existing|).None?
  }

  /** `_apply`: merge the records, then retire the rest unless a row was rejected. A snapshot that repeats
      a new id violates the unique column and is rolled back; a repeated known id is updated again. */
  function Apply(existing: seq<Lead>, parsed: ParseResult, now: int): Result<Table, Error> {
    if RepeatsNew(existing, parsed.leads) then Err(IntegrityError)
    else Ok(Snapshot(existing, parsed, now))
  }

  /** The two loops of `_apply`. */
  function Snapshot(existing: seq<Lead>, parsed: ParseResult, now: int): Table {
    var merged := MergeAll(existing, parsed.leads, now);
    if parsed.rejected == [] && |existing| <= |merged.leads| then Retire(merged, parsed.leads, |existing|, now)
    else merged
  }

  // --- What the merge does to each row ------------------------------------------

  /** The snapshot's record with this id. */
  function FindRecord(records: seq<Record>, id: string): Option<Record> {
    if records == [] then None
    else
      var last := records[|records| - 1];
      if last.externalId == id then Some(last) else FindRecord(records[..|records| - 1], id)
  }

  lemma {:induction false} FindRecordExact(records: seq<Record>, id: string)
    ensures FindRecord(records, id).Some? ==> FindRecord(records, id).value in records
    ensures FindRecord(records, id).Some? ==> FindRecord(records, id).value.externalId == id
    ensures FindRecord(records, id).Some? <==> Carries(records, id)
  {
    if records != [] {
      var n := |records| - 1;
      FindRecordExact(records[..n], id);
      if Carries(records, id) && records[n].externalId != id {
        var k :| 0 <= k < |records| && records[k].externalId == id;
        assert records[..n][k].externalId == id;
      }
      if Carries(records[..n], id) {
        var k :| 0 <= k < n && records[..n][k].externalId == id;
        assert records[k].externalId == id;
      }
    }
  }

  function Fresh(record: Record, now: int): Lead {
    Lead(record, true, Some(now), now)
  }

  /** A row after the merge: the record with its id if there is one, else the row it was. */
  predicate Refreshed(before: Lead, after: Lead, records: seq<Record>, now: int) {
    match FindRecord(records, before.fields.externalId)
    case Some(record) => after == Fresh(record, now)
    case None => after == before
  }

  predicate Added(existing: seq<Lead>, row: Lead, records: seq<Record>, now: int) {
    && FindRecord(records, row.fields.externalId) == Some(row.fields)
    && row == Fresh(row.fields, now)
    && FindLead(existing, row.fields.externalId, |existing|).None?
  }

  ghost predicate Merged(existing: seq<Lead>, records: seq<Record>, now: int, leads: seq<Lead>) {
    && |existing| <= |leads|
    && (forall i | 0 <= i < |existing| :: Refreshed(existing[i], leads[i], records, now))
    && (forall i | |existing| <= i < |leads| :: Added(existing, leads[i], records, now))
    && (forall record | Latest(records, record) :: Fresh(record, now) in leads)
    && DistinctLeads(leads)
  }

  /** The last record with its id. */
  predicate Latest(records: seq<Record>, record: Record) {
    FindRecord(records, record.externalId) == Some(record)
  }

  lemma LatestDistinct(records: seq<Record>)
    requires DistinctIds(records)
    ensures forall record :: Latest(records, record) <==> record in records
  {
    forall record ensures Latest(records, record) <==> record in records {
      FindRecordExact(records, record.externalId);
      if record in records {
        var k :| 0 <= k < |records| && records[k] == record;
        assert Carries(records, record.externalId);
        var m :| 0 <= m < |records| && records[m] == FindRecord(records, record.externalId).value;
      }
    }
  }

  lemma {:induction false} MergeAllExact(existing: seq<Lead>, records: seq<Record>, now: int)
    requires DistinctLeads(existing) && !RepeatsNew(existing, records)
    ensures Merged(existing, records, now, MergeAll(existing, records, now).leads)
  {
    if records != [] {
      var front, record := records[..|records| - 1], records[|records| - 1];
      var t := MergeAll(existing, front, now);
      assert forall k | 0 <= k < |front| :: front[k] == records[k];
      MergeAllExact(existing, front, now);
      assert KnownOrNew(existing, front, record);
      MergeStepRows(existing, records, record, t, now);
      MergeStepPlaces(existing, records, record, t, now);
    }
  }

  predicate KnownOrNew(existing: seq<Lead>, front: seq<Record>, record: Record) {
    FindLead(existing, record.externalId, |existing|).Some? || !Carries(front, record.externalId)
  }

  /** Only the row with the record's id changes, or one row is added. */
  lemma MergeStepShape(existing: seq<Lead>, front: seq<Record>, record: Record, t: Table, now: int)
    requires DistinctLeads(existing) && Merged(existing, front, now, t.leads)
    requires KnownOrNew(existing, front, record)
    ensures var after := MergeRecord(existing, t, record, now).leads;
      var row := FindLead(existing, record.externalId, |existing|);
      var at := if row.Some? then row.value else |t.leads|;
      && |after| == (if row.Some? then |t.leads| else |t.leads| + 1)
      && at < |after| && after[at] == Fresh(record, now)
      && (at < |t.leads| ==> t.leads[at].fields.externalId == record.externalId)
      && (forall i | 0 <= i < |t.leads| && i != at ::
            after[i] == t.leads[i] && t.leads[i].fields.externalId != record.externalId)
  {
    var row := FindLead(existing, record.externalId, |existing|);
    FindLeadExact(existing, record.externalId, |existing|);
    FindRecordExact(front, record.externalId);
    forall i | 0 <= i < |t.leads|
      ensures i < |existing| ==> t.leads[i].fields.externalId == existing[i].fields.externalId
    {
      MergedIds(existing, front, now, t.leads, i);
    }
    forall i | |existing| <= i < |t.leads| ensures t.leads[i].fields.externalId != record.externalId {
      assert Added(existing, t.leads[i], front, now);
    }
  }

  lemma MergeStepRows(existing: seq<Lead>, records: seq<Record>, record: Record, t: Table, now: int)
    requires records != [] && record == records[|records| - 1]
    requires DistinctLeads(existing) && Merged(existing, records[..|records| - 1], now, t.leads)
    requires KnownOrNew(existing, records[..|records| - 1], record)
    ensures var after := MergeRecord(existing, t, record, now).leads;
      && |existing| <= |after|
      && (forall i | 0 <= i < |existing| :: Refreshed(existing[i], after[i], records, now))
      && (forall i | |existing| <= i < |after| :: Added(existing, after[i], records, now))
      && DistinctLeads(after)
  {
    var front := records[..|records| - 1];
    var after := MergeRecord(existing, t, record, now).leads;
    FindLeadExact(existing, record.externalId, |existing|);
    MergeStepShape(existing, front, record, t, now);
    forall i | 0 <= i < |existing| ensures Refreshed(existing[i], after[i], records, now) {
      MergedIds(existing, front, now, t.leads, i);
      assert Refreshed(existing[i], t.leads[i], front, now);
    }
    forall i | |existing| <= i < |after| ensures Added(existing, after[i], records, now) {
      assert i < |t.leads| ==> Added(existing, t.leads[i], front, now);
    }
  }

  lemma MergeStepPlaces(existing: seq<Lead>, records: seq<Record>, record: Record, t: Table, now: int)
    requires records != [] && record == records[|records| - 1]
    requires DistinctLeads(existing) && Merged(existing, records[..|records| - 1], now, t.leads)
    requires KnownOrNew(existing, records[..|records| - 1], record)
    ensures var after := MergeRecord(existing, t, record, now).leads;
      forall r | Latest(records, r) :: Fresh(r, now) in after
  {
    var front := records[..|records| - 1];
    var after := MergeRecord(existing, t, record, now).leads;
    MergeStepShape(existing, front, record, t, now);
    forall r | Latest(records, r) ensures Fresh(r, now) in after {
      if r != record {
        assert Latest(front, r);
        var i :| 0 <= i < |t.leads| && t.leads[i] == Fresh(r, now);
        assert after[i] == t.leads[i];
      }
    }
  }

  /** The merge never changes a row's id. */
  lemma MergedIds(existing: seq<Lead>, records: seq<Record>, now: int, leads: seq<Lead>, i: nat)
    requires Merged(existing, records, now, leads) && i < |leads|
    ensures i < |existing| ==> leads[i].fields.externalId == existing[i].fields.externalId
  {
    if i < |existing| {
      assert Refreshed(existing[i], leads[i], records, now);
      FindRecordExact(records, existing[i].fields.externalId);
    }
  }

  /** Retiring touches only the active flag of unmentioned rows. */
  ghost predicate Retired(before: Lead, after: Lead, records: seq<Record>, now: int) {
    if before.sourceActive && !Carries(records, before.fields.externalId) then
      after == before.(sourceActive := false, updatedAt := now)
    else after == before
  }

  lemma {:induction false} RetireExact(t: Table, records: seq<Record>, n: nat, now: int)
    requires n <= |t.leads|
    ensures var after := Retire(t, records, n, now).leads;
      && |after| == |t.leads|
      && (forall i | 0 <= i < n :: Retired(t.leads[i], after[i], records, now))
      && (forall i | n <= i < |t.leads| :: after[i] == t.leads[i])
  {
    if n > 0 {
      RetireExact(t, records, n - 1, now);
    }
  }

  // --- Snapshot agreement ---------------------------------------------------------

  ghost predicate ActiveRecord(leads: seq<Lead>, record: Record) {
    exists i | 0 <= i < |leads| :: leads[i].sourceActive && leads[i].fields == record
  }

  /** After a run with no rejected row the active leads are exactly the snapshot, the last record of each
      id, whatever was there before; no row is ever removed and none changes its id. */
  lemma {:induction false} CleanSnapshotAgrees(existing: seq<Lead>, parsed: ParseResult, now: int)
    requires DistinctLeads(existing) && parsed.rejected == [] && Apply(existing, parsed, now).Ok?
    ensures var after := Apply(existing, parsed, now).value.leads;
      && |existing| <= |after|
      && DistinctLeads(after)
      && (forall i | 0 <= i < |existing| :: after[i].fields.externalId == existing[i].fields.externalId)
      && (forall record :: ActiveRecord(after, record) <==> Latest(parsed.leads, record))
      && (DistinctIds(parsed.leads) ==> forall record :: ActiveRecord(after, record) <==> record in parsed.leads)
  {
    var records := parsed.leads;
    var merged := MergeAll(existing, records, now);
    MergeAllExact(existing, records, now);
    RetireExact(merged, records, |existing|, now);
    var after := Apply(existing, parsed, now).value.leads;
    forall i | 0 <= i < |after|
      ensures after[i].fields == merged.leads[i].fields
      ensures after[i].sourceActive <==> merged.leads[i].sourceActive && Carries(records, after[i].fields.externalId)
    {
      SnapshotRow(existing, records, merged.leads, i, now);
      assert i < |existing| ==> Retired(merged.leads[i], after[i], records, now);
    }
    forall i | 0 <= i < |existing| ensures after[i].fields.externalId == existing[i].fields.externalId {
      MergedIds(existing, records, now, merged.leads, i);
    }
    if DistinctIds(records) {
      LatestDistinct(records);
    }
    forall record ensures ActiveRecord(after, record) <==> Latest(records, record) {
      if Latest(records, record) {
        var i :| 0 <= i < |merged.leads| && merged.leads[i] == Fresh(record, now);
        FindRecordExact(records, record.externalId);
        assert after[i].sourceActive && after[i].fields == record;
      }
      if ActiveRecord(after, record) {
        var i :| 0 <= i < |after| && after[i].sourceActive && after[i].fields == record;
        SnapshotRow(existing, records, merged.leads, i, now);
      }
    }
  }

  /** A merged row whose id the snapshot mentions holds the snapshot's record. */
  lemma SnapshotRow(existing: seq<Lead>, records: seq<Record>, leads: seq<Lead>, i: nat, now: int)
    requires Merged(existing, records, now, leads) && i < |leads|
    ensures i >= |existing| ==> Carries(records, leads[i].fields.externalId)
    ensures Carries(records, leads[i].fields.externalId) ==> Latest(records, leads[i].fields)
  {
    FindRecordExact(records, leads[i].fields.externalId);
    if i < |existing| {
      MergedIds(existing, records, now, leads, i);
      assert Refreshed(existing[i], leads[i], records, now);
    } else {
      assert Added(existing, leads[i], records, now);
    }
  }

  /** With a rejected row nothing is deactivated: a row is active afterwards exactly when it was
      active before or the snapshot mentions it. */
  lemma {:induction false} PartialSnapshotOnlyAdds(existing: seq<Lead>, parsed: ParseResult, now: int)
    requires DistinctLeads(existing) && parsed.rejected != [] && Apply(existing, parsed, now).Ok?
    ensures var after := Apply(existing, parsed, now).value.leads;
      && |existing| <= |after|
      && DistinctLeads(after)
      && (forall i | 0 <= i < |existing| :: after[i].fields.externalId == existing[i].fields.externalId
            && (after[i].sourceActive <==>
                 existing[i].sourceActive || Carries(parsed.leads, existing[i].fields.externalId)))
      && (forall record | Latest(parsed.leads, record) :: ActiveRecord(after, record))
      && (forall i | 0 <= i < |existing| && !Carries(parsed.leads, existing[i].fields.externalId) ::
            after[i] == existing[i])
      && Apply(existing, parsed, now).value.counters.deactivated == 0
  {
    var records := parsed.leads;
    var after := MergeAll(existing, records, now).leads;
    MergeAllExact(existing, records, now);
    MergeNeverDeactivates(existing, records, now);
    forall i | 0 <= i < |existing|
      ensures after[i].fields.externalId == existing[i].fields.externalId
      ensures after[i].sourceActive <==> existing[i].sourceActive || Carries(records, existing[i].fields.externalId)
      ensures !Carries(records, existing[i].fields.externalId) ==> after[i] == existing[i]
    {
      assert Refreshed(existing[i], after[i], records, now);
      FindRecordExact(records, existing[i].fields.externalId);
    }
    forall record | Latest(records, record) ensures ActiveRecord(after, record) {
      assert Fresh(record, now) in after;
      var i :| 0 <= i < |after| && after[i] == Fresh(record, now);
      assert after[i].sourceActive && after[i].fields == record;
    }
  }

  lemma {:induction false} MergeNeverDeactivates(existing: seq<Lead>, records: seq<Record>, now: int)
    ensures MergeAll(existing, records, now).counters.deactivated == 0
  {
    if records != [] {
      MergeNeverDeactivates(existing, records[..|records| - 1], now);
    }
  }

  // --- Counters ---------------------------------------------------------------------

  function ActiveCount(leads: seq<Lead>): nat {
    if leads == [] then 0
    else ActiveCount(leads[..|leads| - 1]) + if leads[|leads| - 1].sourceActive then 1 else 0
  }

  lemma {:induction false} ActiveCountUpdate(leads: seq<Lead>, i: nat, row: Lead)
    requires i < |leads|
    ensures ActiveCount(leads[i := row]) == ActiveCount(leads)
      - (if leads[i].sourceActive then 1 else 0) + (if row.sourceActive then 1 else 0)
  {
    var n := |leads| - 1;
    if i < n {
      assert leads[i := row][..n] == leads[..n][i := row];
      ActiveCountUpdate(leads[..n], i, row);
    } else {
      assert leads[i := row][..n] == leads[..n];
    }
  }

  lemma {:induction false} MergeCounts(existing: seq<Lead>, records: seq<Record>, now: int)
    ensures var t := MergeAll(existing, records, now);
      && |existing| <= |t.leads|
      && t.counters.created + t.counters.updated == |records|
      && |t.leads| == |existing| + t.counters.created
      && ActiveCount(t.leads) == ActiveCount(existing) + t.counters.created + t.counters.reactivated
      && t.counters.reactivated <= t.counters.updated
  {
    if records != [] {
      var front, record := records[..|records| - 1], records[|records| - 1];
      MergeCounts(existing, front, now);
      var t := MergeAll(existing, front, now);
      var row := FindLead(existing, record.externalId, |existing|);
      FindLeadExact(existing, record.externalId, |existing|);
      if row.Some? {
        ActiveCountUpdate(t.leads, row.value, Lead(record, true, Some(now), now));
      } else {
        assert (t.leads + [Lead(record, true, Some(now), now)])[..|t.leads|] == t.leads;
      }
    }
  }

  lemma {:induction false} RetireCounts(t: Table, records: seq<Record>, n: nat, now: int)
    requires n <= |t.leads|
    ensures var after := Retire(t, records, n, now);
      && |after.leads| == |t.leads|
      && ActiveCount(after.leads) + after.counters.deactivated == ActiveCount(t.leads) + t.counters.deactivated
      && after.counters == t.counters.(deactivated := after.counters.deactivated)
  {
    if n > 0 {
      RetireCounts(t, records, n - 1, now);
      var before := Retire(t, records, n - 1, now);
      ActiveCountUpdate(before.leads, n - 1, before.leads[n - 1].(sourceActive := false, updatedAt := now));
    }
  }

  /** The run's counters account for every parsed lead and for the change in active leads. */
  lemma {:induction false} CountersBalance(existing: seq<Lead>, parsed: ParseResult, now: int)
    requires Apply(existing, parsed, now).Ok?
    ensures var t := Apply(existing, parsed, now).value;
      && t.counters.created + t.counters.updated == |parsed.leads|
      && |t.leads| == |existing| + t.counters.created
      && t.counters.reactivated <= t.counters.updated
      && ActiveCount(t.leads)
           == ActiveCount(existing) + t.counters.created + t.counters.reactivated - t.counters.deactivated
  {
    MergeCounts(existing, parsed.leads, now);
    MergeNeverDeactivates(existing, parsed.leads, now);
    RetireCounts(MergeAll(existing, parsed.leads, now), parsed.leads, |existing|, now);
  }

  // --- Idempotence -------------------------------------------------------------------

  predicate ActiveId(leads: seq<Lead>, id: string) {
    exists i | 0 <= i < |leads| :: leads[i].sourceActive && leads[i].fields.externalId == id
  }

  /** Re-merging records whose ids are all active already creates and reactivates nothing. */
  lemma {:induction false} MergeAgain(existing: seq<Lead>, records: seq<Record>, now: int)
    requires DistinctLeads(existing)
    requires forall k | 0 <= k < |records| :: ActiveId(existing, records[k].externalId)
    ensures var t := MergeAll(existing, records, now);
      && |t.leads| == |existing| && t.counters.created == 0 && t.counters.reactivated == 0
      && (forall i | 0 <= i < |existing| :: t.leads[i].sourceActive == existing[i].sourceActive)
  {
    if records != [] {
      var front, record := records[..|records| - 1], records[|records| - 1];
      assert forall k | 0 <= k < |front| :: front[k] == records[k];
      MergeAgain(existing, front, now);
      var row := FindLead(existing, record.externalId, |existing|);
      FindLeadExact(existing, record.externalId, |existing|);
      var i :| 0 <= i < |existing| && existing[i].sourceActive && existing[i].fields.externalId == record.externalId;
      assert row == Some(i);
    }
  }

  lemma {:induction false} RetireNothing(t: Table, records: seq<Record>, n: nat, now: int)
    requires n <= |t.leads|
    requires forall i | 0 <= i < n && t.leads[i].sourceActive :: Carries(records, t.leads[i].fields.externalId)
    ensures Retire(t, records, n, now) == t
  {
    if n > 0 {
      RetireNothing(t, records, n - 1, now);
    }
  }

  /** Applying a clean snapshot twice: the second run creates, reactivates and deactivates nothing,
      and leaves every row's fields and flag as they were. */
  lemma {:induction false} SnapshotIdempotent(existing: seq<Lead>, parsed: ParseResult, now: int, later: int)
    requires DistinctLeads(existing) && parsed.rejected == [] && Apply(existing, parsed, now).Ok?
    ensures var once := Apply(existing, parsed, now).value.leads;
      var again := Apply(once, parsed, later);
      && again.Ok?
      && again.value.counters == Counters(0, |parsed.leads|, 0, 0)
      && |again.value.leads| == |once|
      && (forall i | 0 <= i < |once| ::
            again.value.leads[i].fields == once[i].fields && again.value.leads[i].sourceActive == once[i].sourceActive)
  {
    var once := Apply(existing, parsed, now).value.leads;
    CleanSnapshotAgrees(existing, parsed, now);
    SnapshotIds(once, parsed.leads);
    MergeAgain(once, parsed.leads, later);
    MergeNeverDeactivates(once, parsed.leads, later);
    MergeCounts(once, parsed.leads, later);
    var merged := MergeAll(once, parsed.leads, later);
    MergeAllExact(once, parsed.leads, later);
    forall i | 0 <= i < |once|
      ensures merged.leads[i].fields == once[i].fields
      ensures merged.leads[i].sourceActive ==> Carries(parsed.leads, merged.leads[i].fields.externalId)
    {
      AlreadyLatest(once, parsed.leads, i);
      assert Refreshed(once[i], merged.leads[i], parsed.leads, later);
    }
    RetireNothing(merged, parsed.leads, |once|, later);
  }

  /** In a table that agrees with the snapshot every id of the snapshot is known and active. */
  lemma SnapshotIds(leads: seq<Lead>, records: seq<Record>)
    requires DistinctLeads(leads) && forall record :: ActiveRecord(leads, record) <==> Latest(records, record)
    ensures forall k | 0 <= k < |records| :: ActiveId(leads, records[k].externalId)
    ensures !RepeatsNew(leads, records)
  {
    forall k | 0 <= k < |records|
      ensures ActiveId(leads, records[k].externalId)
      ensures FindLead(leads, records[k].externalId, |leads|).Some?
    {
      var id := records[k].externalId;
      assert Carries(records, id);
      FindRecordExact(records, id);
      assert Latest(records, FindRecord(records, id).value);
      assert ActiveRecord(leads, FindRecord(records, id).value);
      FindLeadExact(leads, id, |leads|);
    }
  }

  /** There a mentioned row already holds its record, and an active row is mentioned. */
  lemma AlreadyLatest(leads: seq<Lead>, records: seq<Record>, i: nat)
    requires DistinctLeads(leads) && i < |leads|
    requires forall record :: ActiveRecord(leads, record) <==> Latest(records, record)
    ensures var record := FindRecord(records, leads[i].fields.externalId);
      && (record.Some? ==> record.value == leads[i].fields)
      && (leads[i].sourceActive ==> Carries(records, leads[i].fields.externalId))
  {
    var id := leads[i].fields.externalId;
    FindRecordExact(records, id);
    if FindRecord(records, id).Some? {
      var record := FindRecord(records, id).value;
      assert Latest(records, record);
      var j :| 0 <= j < |leads| && leads[j].sourceActive && leads[j].fields == record;
      assert j == i;
    }
    if leads[i].sourceActive {
      assert ActiveRecord(leads, leads[i].fields);
    }
  }

  // --- The life of a run ------------------------------------------------------------

  /** What the Sheet read gave: another sync held the lock, the read failed, or cells. */
  datatype Fetch = Busy | Unreadable(error: Error) | Values(values: seq<seq<Cell>>)

  function NewRun(now: int): SyncRun {
    SyncRun(now, None, Running, 0, Counters(0, 0, 0, 0), Quiet)
  }

  function StartRun(s: State, manual: bool): State {
    s.(runs := s.runs + [NewRun(s.clock)],
       audit := s.audit + if manual then [Audit(SyncInvoked(|s.runs|), s.clock)] else [])
  }

  function Finished(run: SyncRun, parsed: ParseResult, counters: Counters, now: int): SyncRun {
    run.(
      counters := counters,
      status := if parsed.rejected == [] then Succeeded else RunFailed,
      completedAt := Some(now),
      note := if parsed.rejected == [] && parsed.warnings == [] then run.note
              else Report(parsed.rejected, parsed.warnings))
  }

  /** The transaction that applies a parsed snapshot to run `r`. */
  function FinishRun(s: State, r: nat, parsed: ParseResult): Result<State, Error>
    requires r < |s.runs|
  {
    match Apply(s.leads, parsed, s.clock)
    case Err(e) => Err(e)
    case Ok(t) => Ok(s.(leads := t.leads, runs := s.runs[r := Finished(s.runs[r], parsed, t.counters, s.clock)]))
  }

  function FailRun(s: State, r: nat, e: Error): State
    requires r < |s.runs|
  {
    s.(runs := s.runs[r := s.runs[r].(status := RunFailed, completedAt := Some(s.clock), note := Aborted(e))])
  }

  function Receive(s: State, r: nat, n: nat): State
    requires r < |s.runs|
  {
    s.(runs := s.runs[r := s.runs[r].(rowsReceived := n)])
  }

  /** What the handler raises: a configuration error stays one, anything else is a sync error. */
  function Surfaced(e: Error): Error {
    if e == ConfigurationError then e else SheetSyncError
  }

  /** `sync` without interference: start, read, count the rows, parse, apply; or record the failure. */
  function Sync(s: State, lib: Library, manual: bool, fetch: Fetch): (State, Result<nat, Error>) {
    var r, started := |s.runs|, StartRun(s, manual);
    match fetch
    case Busy => (FailRun(started, r, SheetSyncError), Err(SheetSyncError))
    case Unreadable(e) => (FailRun(started, r, e), Err(Surfaced(e)))
    case Values(values) =>
      match ValuesToRows(values)
      case Err(e) => (FailRun(started, r, e), Err(Surfaced(e)))
      case Ok(rows) =>
        Import(Receive(started, r, |rows|), r, ParseRows(lib, rows))
  }

  /** The end of a sync whose Sheet could be read. */
  function Import(s: State, r: nat, parsed: Result<ParseResult, Error>): (State, Result<nat, Error>)
    requires r < |s.runs|
  {
    match parsed
    case Err(e) => (FailRun(s, r, e), Err(Surfaced(e)))
    case Ok(snapshot) =>
      match FinishRun(s, r, snapshot)
      case Err(e) => (FailRun(s, r, e), Err(Surfaced(e)))
      case Ok(after) => (after, Ok(r))
  }

  /** A parsed snapshot never violates the unique column. */
  lemma ParsedApplies(existing: seq<Lead>, lib: Library, rows: seq<SheetParser.Row>, now: int)
    requires ParseRows(lib, rows).Ok?
    ensures Apply(existing, ParseRows(lib, rows).value, now).Ok?
  {
    ParsedIdsApart(lib, rows);
  }

  /** After a clean parsed snapshot the active leads are exactly its leads. */
  lemma ParsedSnapshotAgrees(existing: seq<Lead>, lib: Library, rows: seq<SheetParser.Row>, now: int)
    requires DistinctLeads(existing) && ParseRows(lib, rows).Ok? && ParseRows(lib, rows).value.rejected == []
    ensures var parsed := ParseRows(lib, rows).value;
      && Apply(existing, parsed, now).Ok?
      && var after := Apply(existing, parsed, now).value.leads;
      && DistinctLeads(after)
      && forall record :: ActiveRecord(after, record) <==> record in parsed.leads
  {
    ParsedApplies(existing, lib, rows, now);
    ParsedIdsApart(lib, rows);
    CleanSnapshotAgrees(existing, ParseRows(lib, rows).value, now);
  }

  /** A sync that was read and parsed applies its snapshot, and succeeds exactly when no row was
      rejected; any other sync leaves every lead as it was and its run failed. */
  lemma {:induction false} SyncExact(s: State, lib: Library, manual: bool, fetch: Fetch)
    ensures var (after, result) := Sync(s, lib, manual, fetch);
      var parsed := fetch.Values? && ValuesToRows(fetch.values).Ok?
        && ParseRows(lib, ValuesToRows(fetch.values).value).Ok?;
      && (result.Ok? <==> parsed)
      && |after.runs| == |s.runs| + 1 && after.runs[..|s.runs|] == s.runs
      && after.runs[|s.runs|].status != Running
      && (after.runs[|s.runs|].status == Succeeded <==>
            parsed && ParseRows(lib, ValuesToRows(fetch.values).value).value.rejected == [])
      && (!parsed ==> after.leads == s.leads)
      && (parsed ==>
            var snapshot := ParseRows(lib, ValuesToRows(fetch.values).value).value;
            && Apply(s.leads, snapshot, s.clock).Ok?
            && after.leads == Apply(s.leads, snapshot, s.clock).value.leads
            && after.runs[|s.runs|].counters == Apply(s.leads, snapshot, s.clock).value.counters
            && after.runs[|s.runs|].rowsReceived == |ValuesToRows(fetch.values).value|)
  {
    if fetch.Values? && ValuesToRows(fetch.values).Ok? && ParseRows(lib, ValuesToRows(fetch.values).value).Ok? {
      ParsedApplies(s.leads, lib, ValuesToRows(fetch.values).value, s.clock);
    }
  }

  /** What a sync leaves besides the leads: one finished run, stamped, with the rows it read and what it reports, one
      audit entry when an administrator asked for it, and the error it raises. */
  lemma SyncRecord(s: State, lib: Library, manual: bool, fetch: Fetch)
    ensures var (after, result) := Sync(s, lib, manual, fetch);
      var r := |s.runs|;
      var rows := if fetch.Values? then ValuesToRows(fetch.values) else Err(SheetSyncError);
      var parsed := if rows.Ok? then ParseRows(lib, rows.value) else Err(SheetSyncError);
      && after == s.(leads := after.leads, runs := after.runs, audit := after.audit)
      && after.audit == s.audit + (if manual then [Audit(SyncInvoked(r), s.clock)] else [])
      && |after.runs| == r + 1
      && var run := after.runs[r];
      && run.startedAt == s.clock && run.completedAt == Some(s.clock)
      && run.rowsReceived == (if rows.Ok? then |rows.value| else 0)
      && (if parsed.Err? then
            && result == Err(if fetch == Unreadable(ConfigurationError) then ConfigurationError else SheetSyncError)
            && run.status == RunFailed && run.counters == Counters(0, 0, 0, 0)
            && run.note == Aborted(if fetch.Unreadable? then fetch.error else SheetSyncError)
          else
            && result == Ok(r)
            && run.status == (if parsed.value.rejected == [] then Succeeded else RunFailed)
            && run.note == if parsed.value.rejected == [] && parsed.value.warnings == [] then Quiet
                           else Report(parsed.value.rejected, parsed.value.warnings))
  {
    SyncExact(s, lib, manual, fetch);
    if fetch.Values? {
      ReadExactly(fetch.values);
      if ValuesToRows(fetch.values).Ok? {
        ParsePrefixSeen(lib, ValuesToRows(fetch.values).value, |ValuesToRows(fetch.values).value|);
      }
    }
  }

  /** Every row after a snapshot: a mentioned one holds its latest record, active and stamped; an unmentioned active
      one is deactivated, unless a row was rejected; any other is as it was; and added ones are new. */
  lemma SnapshotRows(existing: seq<Lead>, parsed: ParseResult, now: int, i: nat)
    requires DistinctLeads(existing) && Apply(existing, parsed, now).Ok?
    requires i < |Apply(existing, parsed, now).value.leads|
    ensures var row := Apply(existing, parsed, now).value.leads[i];
      if i < |existing| then
        var record := FindRecord(parsed.leads, existing[i].fields.externalId);
        if record.Some? then row == Lead(record.value, true, Some(now), now)
        else if existing[i].sourceActive && parsed.rejected == [] then
          row == existing[i].(sourceActive := false, updatedAt := now)
        else row == existing[i]
      else
        && row == Lead(row.fields, true, Some(now), now) && Latest(parsed.leads, row.fields)
        && forall j | 0 <= j < |existing| :: existing[j].fields.externalId != row.fields.externalId
  {
    var records := parsed.leads;
    var merged := MergeAll(existing, records, now);
    MergeAllExact(existing, records, now);
    if parsed.rejected == [] {
      RetireExact(merged, records, |existing|, now);
    }
    if i < |existing| {
      assert Refreshed(existing[i], merged.leads[i], records, now);
      FindRecordExact(records, existing[i].fields.externalId);
      MergedIds(existing, records, now, merged.leads, i);
      assert parsed.rejected == [] ==>
        Retired(merged.leads[i], Apply(existing, parsed, now).value.leads[i], records, now);
    } else {
      assert Added(existing, merged.leads[i], records, now);
      FindLeadExact(existing, merged.leads[i].fields.externalId, |existing|);
    }
  }

  class LeadSyncService {
    const db: Database
    const lib: Library

    constructor (db: Database, lib: Library)
      ensures this.db == db && this.lib == lib
    {
      this.db, this.lib := db, lib;
    }

    method Fail(r: nat, e: Error)
      requires r < |db.runs|
      modifies db
      ensures db.View() == FailRun(old(db.View()), r, e)
    {
      db.runs := db.runs[r := db.runs[r].(status := RunFailed)];
      db.runs := db.runs[r := db.runs[r].(completedAt := Some(db.clock))];
      db.runs := db.runs[r := db.runs[r].(note := Aborted(e))];
      assert db.runs == FailRun(old(db.View()), r, e).runs;
    }

    method SyncSheet(manual: bool, fetch: Fetch) returns (result: Result<nat, Error>)
      modifies db
      ensures (db.View(), result) == Sync(old(db.View()), lib, manual, fetch)
    {
      var r := |db.runs|;
      db.runs := db.runs + [NewRun(db.clock)];
      if manual {
        db.Record(SyncInvoked(r));
      }
      assert db.View() == StartRun(old(db.View()), manual);
      match fetch
      case Busy =>
        Fail(r, SheetSyncError);
        return Err(SheetSyncError);
      case Unreadable(e) =>
        Fail(r, e);
        return Err(Surfaced(e));
      case Values(values) =>
        var rows := ReadValues(values);
        if rows.Err? {
          Fail(r, rows.error);
          return Err(Surfaced(rows.error));
        }
        db.runs := db.runs[r := db.runs[r].(rowsReceived := |rows.value|)];
        var parsed := Parse(lib, rows.value);
        if parsed.Err? {
          Fail(r, parsed.error);
          return Err(Surfaced(parsed.error));
        }
        var applied := ApplyParsed(r, parsed.value);
        if applied.Err? {
          Fail(r, applied.error);
          return Err(Surfaced(applied.error));
        }
        return Ok(r);
    }

    /** The snapshot transaction. */
    method ApplyParsed(r: nat, parsed: ParseResult) returns (result: Result<(), Error>)
      requires r < |db.runs| && db.runs[r].counters == Counters(0, 0, 0, 0)
      modifies db
      ensures match FinishRun(old(db.View()), r, parsed)
        case Err(e) => result == Err(e) && db.View() == old(db.View())
        case Ok(after) => result == Ok(()) && db.View() == after
    {
      var saved := db.View();
      MergeSnapshot(r, parsed);
      MarkFinished(r, parsed);
      // The unique column is checked when the rows are flushed.
      if RepeatsNew(saved.leads, parsed.leads) {
        db.Rollback(saved);
        return Err(IntegrityError);
      }
      assert db.runs == FinishRun(saved, r, parsed).value.runs;
      return Ok(());
    }

    method MergeSnapshot(r: nat, parsed: ParseResult)
      requires r < |db.runs| && db.runs[r].counters == Counters(0, 0, 0, 0)
      modifies db`leads, db`runs
      ensures var t := Snapshot(old(db.leads), parsed, db.clock);
        db.leads == t.leads && db.runs == old(db.runs)[r := old(db.runs)[r].(counters := t.counters)]
    {
      var existing := db.leads;
      var seen := MergeRecords(r, parsed.leads);
      MergeCounts(existing, parsed.leads, db.clock);
      if parsed.rejected == [] {
        RetireUnseen(r, parsed.leads, seen, |existing|);
      }
    }

    method MarkFinished(r: nat, parsed: ParseResult)
      requires r < |db.runs|
      modifies db`runs
      ensures db.runs == old(db.runs)[r := Finished(old(db.runs)[r], parsed, old(db.runs)[r].counters, db.clock)]
    {
      db.runs := db.runs[r := db.runs[r].(status := if parsed.rejected == [] then Succeeded else RunFailed)];
      db.runs := db.runs[r := db.runs[r].(completedAt := Some(db.clock))];
      if parsed.rejected != [] || parsed.warnings != [] {
        db.runs := db.runs[r := db.runs[r].(note := Report(parsed.rejected, parsed.warnings))];
      }
    }

    /** The first loop of `_apply`. */
    method MergeRecords(r: nat, records: seq<Record>) returns (seen: set<string>)
      requires r < |db.runs| && db.runs[r].counters == Counters(0, 0, 0, 0)
      modifies db`leads, db`runs
      ensures var t := MergeAll(old(db.leads), records, db.clock);
        db.leads == t.leads && db.runs == old(db.runs)[r := old(db.runs)[r].(counters := t.counters)]
      ensures seen == set k | 0 <= k < |records| :: records[k].externalId
    {
      var existing, runs := db.leads, db.runs;
      seen := {};
      var k := 0;
      while k < |records|
        invariant k <= |records|
        invariant seen == set j | 0 <= j < k :: records[j].externalId
        invariant db.runs == runs[r := runs[r].(counters := MergeAll(existing, records[..k], db.clock).counters)]
        invariant Table(db.leads, db.runs[r].counters) == MergeAll(existing, records[..k], db.clock)
      {
        assert records[..k + 1][..k] == records[..k];
        MergeCounts(existing, records[..k], db.clock);
        seen := seen + {records[k].externalId};
        MergeOne(r, existing, records[k]);
        k := k + 1;
      }
      assert records[..k] == records;
    }

    /** One round of that loop: update the row that has the id, or add one. */
    method MergeOne(r: nat, existing: seq<Lead>, record: Record)
      requires r < |db.runs| && |existing| <= |db.leads|
      modifies db`leads, db`runs
      ensures var t := MergeRecord(existing, Table(old(db.leads), old(db.runs)[r].counters), record, db.clock);
        db.leads == t.leads && db.runs == old(db.runs)[r := old(db.runs)[r].(counters := t.counters)]
    {
      FindLeadExact(existing, record.externalId, |existing|);
      var counts := db.runs[r].counters;
      var lead := FindLead(existing, record.externalId, |existing|);
      if lead.None? {
        db.leads := db.leads + [Fresh(record, db.clock)];
        counts := counts.(created := counts.created + 1);
      } else {
        if !db.leads[lead.value].sourceActive {
          counts := counts.(reactivated := counts.reactivated + 1);
        }
        db.leads := db.leads[lead.value := Fresh(record, db.clock)];
        counts := counts.(updated := counts.updated + 1);
      }
      db.runs := db.runs[r := db.runs[r].(counters := counts)];
    }

    /** The second loop of `_apply`, over the rows that existed before it. */
    method RetireUnseen(r: nat, records: seq<Record>, seen: set<string>, n: nat)
      requires r < |db.runs| && n <= |db.leads|
      requires seen == set k | 0 <= k < |records| :: records[k].externalId
      modifies db`leads, db`runs
      ensures var t := Retire(Table(old(db.leads), old(db.runs)[r].counters), records, n, db.clock);
        db.leads == t.leads && db.runs == old(db.runs)[r := old(db.runs)[r].(counters := t.counters)]
    {
      var runs := db.runs;
      ghost var before := Table(db.leads, db.runs[r].counters);
      var i := 0;
      while i < n
        invariant i <= n
        invariant db.runs == runs[r := runs[r].(counters := Retire(before, records, i, db.clock).counters)]
        invariant |db.leads| == |before.leads|
        invariant Table(db.leads, db.runs[r].counters) == Retire(before, records, i, db.clock)
      {
        var lead := db.leads[i];
        assert lead.fields.externalId in seen <==> Carries(records, lead.fields.externalId);
        if lead.fields.externalId !in seen && lead.sourceActive {
          db.leads := db.leads[i := lead.(sourceActive := false, updatedAt := db.clock)];
          var counts := db.runs[r].counters;
          db.runs := db.runs[r := db.runs[r].(counters := counts.(deactivated := counts.deactivated + 1))];
        }
        i := i + 1;
      }
    }
  }
}
