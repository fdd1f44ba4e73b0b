/** Adding one lead by hand: append it to the Sheet, then synchronize, then report
    (app/services/lead_entry_service.py). */
module LeadEntry {
  import opened Basics
  import opened Tables
  import opened Text
  import opened Pricing
  import opened Inventory
  import opened SheetParser
  import opened SheetWriter
  import opened Sync

  /** The validated form. */
  datatype Entry = Entry(
    firstName: string,
    lastName: Option<string>,
    phone: string,
    email: Option<string>,
    municipality: string,
    leadDate: Date)

  /** What `LeadEntryInput` guarantees: stripped fields and an email its validator returned. */
  ghost predicate ValidEntry(lib: Library, e: Entry) {
    && e.firstName != "" && Stripped(e.firstName)
    && e.phone != "" && Stripped(e.phone)
    && Tidy(e.lastName) && Tidy(e.email) && Stripped(e.municipality)
    && (Truthy(e.email) ==> lib.parseEmail(e.email.value) == e.email)
  }

  /** The upper-case hexadecimal digits of the request's UUID. */
  predicate HexDigits(hex: string) {
    |hex| == 32 && forall i | 0 <= i < |hex| :: '0' <= hex[i] <= '9' || 'A' <= hex[i] <= 'F'
  }

  const PREFIX := "LEAD-"

  function LeadOf(e: Entry, hex: string): Record {
    Record(PREFIX + hex, e.leadDate, e.firstName, e.phone, e.lastName, e.email, Some(e.municipality),
      LIFE_INSURANCE, Some("Admin"), None, Some("es"), None)
  }

  lemma LeadIsNormalized(lib: Library, e: Entry, hex: string)
    requires ValidEntry(lib, e) && HexDigits(hex)
    ensures Normalized(lib, LeadOf(e, hex))
  {
    var id := PREFIX + hex;
    assert id[0] == 'L' && id[|id| - 1] == hex[31];
  }

  datatype EntryResponse = EntryResponse(
    externalId: string,
    appended: bool,
    synced: bool,
    available: bool,
    syncRun: Option<nat>)

  /** What is reported once the sync has returned run `r`. */
  function ReportRun(s: State, id: string, appended: bool, r: nat, today: Date): EntryResponse {
    var row := FindLead(s.leads, id, |s.leads|);
    var synced := r < |s.runs| && s.runs[r].status == Succeeded
      && row.Some? && row.value < |s.leads| && s.leads[row.value].sourceActive;
    var rows := Query(s, today, None, LIFE);
    EntryResponse(id, appended, synced, synced && rows.Ok? && row.value in rows.value, Some(r))
  }

  /** `create`: a failed append is reported as such, a failed sync only leaves the entry pending. */
  function CreateEntry(s: State, lib: Library, sheet: seq<seq<Cell>>, e: Entry, hex: string,
                       busy: bool, reply: AppendReply, fetch: Fetch, today: Date)
    : (State, seq<seq<Cell>>, Result<EntryResponse, Error>)
  {
    var lead := LeadOf(e, hex);
    if busy then (s, sheet, Err(LeadEntryBusy))
    else
      var (appended, after) := Append(lib, sheet, lead, reply);
      match appended
      case Err(error) => (s, after, Err(error))
      case Ok(added) =>
        var (synced, run) := Sync.Sync(s, lib, true, fetch);
        match run
        case Err(_) => (synced, after, Ok(EntryResponse(lead.externalId, added, false, false, None)))
        case Ok(r) => (synced, after, Ok(ReportRun(synced, lead.externalId, added, r, today)))
  }

  // --- What the report means ------------------------------------------------------

  /** Exactly one row of the Sheet carries the id. */
  ghost predicate InSheet(values: seq<seq<Cell>>, id: string) {
    ValuesToRows(values).Ok? && |Matches(ValuesToRows(values).value, id)| == 1
  }

  lemma AppendedIsInSheet(lib: Library, sheet: seq<seq<Cell>>, lead: Record, reply: AppendReply)
    requires Lawful(lib) && Normalized(lib, lead) && Append(lib, sheet, lead, reply).0.Ok?
    ensures InSheet(Append(lib, sheet, lead, reply).1, lead.externalId)
  {
    if Append(lib, sheet, lead, reply).1 != sheet {
      WrittenIsFound(lib, sheet, lead, reply);
    }
    FoundIsInSheet(lib, Append(lib, sheet, lead, reply).1, lead);
  }

  lemma FoundIsInSheet(lib: Library, sheet: seq<seq<Cell>>, lead: Record)
    requires Plan(lib, sheet, lead) == Ok(None)
    ensures InSheet(sheet, lead.externalId)
  {
  }

  /** Whatever the lock, the network and the sync do: an answer means the Sheet has exactly one row for
      the entry; "synced" means a successful run left it active in the local table; "available" means a
      sale would find it; and the local leads change only through a completed sync. */
  lemma {:induction false} ReportIsTrue(s: State, lib: Library, sheet: seq<seq<Cell>>, e: Entry, hex: string,
                     busy: bool, reply: AppendReply, fetch: Fetch, today: Date)
    requires Lawful(lib) && ValidEntry(lib, e) && HexDigits(hex)
    ensures var (t, after, result) := CreateEntry(s, lib, sheet, e, hex, busy, reply, fetch, today);
      && (result.Err? ==> t == s)
      && (result.Ok? ==> InSheet(after, PREFIX + hex))
      && (result.Ok? && result.value.appended ==> |after| == |sheet| + 1 && sheet <= after)
      && (result.Ok? && !result.value.appended ==> after == sheet)
      && (result.Ok? && result.value.synced ==>
            exists i | 0 <= i < |t.leads| :: t.leads[i].fields.externalId == PREFIX + hex && t.leads[i].sourceActive)
      && (result.Ok? && result.value.available ==> result.value.synced)
  {
    var lead := LeadOf(e, hex);
    var (t, after, result) := CreateEntry(s, lib, sheet, e, hex, busy, reply, fetch, today);
    LeadIsNormalized(lib, e, hex);
    if result.Ok? {
      AppendedIsInSheet(lib, sheet, lead, reply);
      AppendAddsOnce(lib, sheet, lead, reply);
      FindLeadExact(t.leads, lead.externalId, |t.leads|);
    }
  }

  /** A busy lock and a refused append are errors that touch no local table; a failed sync only leaves the entry
      pending. */
  lemma EntryAnswers(s: State, lib: Library, sheet: seq<seq<Cell>>, e: Entry, hex: string,
                     busy: bool, reply: AppendReply, fetch: Fetch, today: Date)
    ensures var (t, after, result) := CreateEntry(s, lib, sheet, e, hex, busy, reply, fetch, today);
      var (appended, written) := Append(lib, sheet, LeadOf(e, hex), reply);
      && (busy ==> result == Err(LeadEntryBusy) && t == s && after == sheet)
      && (!busy ==> after == written)
      && (!busy && appended.Err? ==> result == Err(appended.error) && t == s)
      && (!busy && appended.Ok? ==>
            && t == Sync.Sync(s, lib, true, fetch).0
            && result.Ok? && result.value.externalId == "LEAD-" + hex && result.value.appended == appended.value
            && (Sync.Sync(s, lib, true, fetch).1.Err? ==>
                  !result.value.synced && !result.value.available && result.value.syncRun == None)
            && var imported := exists i | 0 <= i < |t.leads| ::
                 FindLead(t.leads, "LEAD-" + hex, |t.leads|) == Some(i) && t.leads[i].sourceActive;
            && (Sync.Sync(s, lib, true, fetch).1.Ok? ==> result.value.syncRun == Some(|s.runs|))
            && (Sync.Sync(s, lib, true, fetch).1.Ok? ==>
                  |t.runs| > |s.runs|
                  && (result.value.synced <==> t.runs[|s.runs|].status == Succeeded && imported)))
  {
    SyncRecord(s, lib, true, fetch);
    ReportedSynced(Sync.Sync(s, lib, true, fetch).0, "LEAD-" + hex, |s.runs|);
  }

  lemma ReportedSynced(t: State, id: string, r: nat)
    requires r < |t.runs|
    ensures forall appended, today ::
      var report := ReportRun(t, id, appended, r, today);
      && report.externalId == id && report.appended == appended && report.syncRun == Some(r)
      && var imported := exists i | 0 <= i < |t.leads| ::
           FindLead(t.leads, id, |t.leads|) == Some(i) && t.leads[i].sourceActive;
      (report.synced <==> t.runs[r].status == Succeeded && imported)
  {
    FindLeadExact(t.leads, id, |t.leads|);
  }

  // --- From the form to the local table ----------------------------------------------

  lemma NobodyHasId(rows: seq<Row>, id: string)
    requires Matches(rows, id) == []
    ensures forall i | 0 <= i < |rows| :: !HasId(rows, i, id)
  {
    MatchesExact(rows, id, |rows|);
    forall i | 0 <= i < |rows| ensures !HasId(rows, i, id) {
      assert i !in Matches(rows, id);
    }
  }

  /** A Sheet that carries the written row parses to what it did before plus the entry. */
  lemma WrittenParses(lib: Library, sheet: seq<seq<Cell>>, lead: Record, reply: AppendReply)
    requires Lawful(lib) && Normalized(lib, lead)
    requires Append(lib, sheet, lead, reply).1 != sheet
    requires ParseRows(lib, ValuesToRows(sheet).value).Ok?
    ensures var after := Append(lib, sheet, lead, reply).1;
      var before := ParseRows(lib, ValuesToRows(sheet).value).value;
      && ValuesToRows(after).Ok?
      && ParseRows(lib, ValuesToRows(after).value)
           == Ok(before.(leads := before.leads + [OnColumns(Headers(sheet[0]), lead)]))
  {
    WrittenShape(lib, sheet, lead, reply);
    var rows := ValuesToRows(sheet).value;
    var line := Line(lib, Headers(sheet[0]), lead);
    NobodyHasId(rows, lead.externalId);
    AppendRoundTrip(lib, sheet, lead, CellsOf(line));
  }

  ghost predicate CleanSheet(lib: Library, values: seq<seq<Cell>>) {
    && ValuesToRows(values).Ok? && ParseRows(lib, ValuesToRows(values).value).Ok?
    && ParseRows(lib, ValuesToRows(values).value).value.rejected == []
  }

  /** A clean Sheet is synchronized successfully, and its leads are then the active ones. */
  lemma CleanSheetSyncs(s: State, lib: Library, values: seq<seq<Cell>>)
    requires DistinctLeads(s.leads) && CleanSheet(lib, values)
    ensures var (t, run) := Sync.Sync(s, lib, true, Values(values));
      && run == Ok(|s.runs|) && |t.runs| == |s.runs| + 1 && t.runs[|s.runs|].status == Succeeded
      && t == s.(leads := t.leads, runs := t.runs, audit := t.audit)
      && DistinctLeads(t.leads)
      && forall record :: ActiveRecord(t.leads, record) <==>
           record in ParseRows(lib, ValuesToRows(values).value).value.leads
  {
    SyncExact(s, lib, true, Values(values));
    ParsedSnapshotAgrees(s.leads, lib, ValuesToRows(values).value, s.clock);
  }

  /** A clean snapshot that holds a record leaves it active under its id, and a sale finds it exactly
      when some rule prices it and no exclusion window or future date hides it. */
  lemma {:induction false} SnapshotReports(
    s: State, lib: Library, values: seq<seq<Cell>>, record: Record, appended: bool, today: Date)
    requires DistinctLeads(s.leads) && Configured(s.rules) && CleanSheet(lib, values)
    requires record in ParseRows(lib, ValuesToRows(values).value).value.leads
    requires record.insuranceType == LIFE_INSURANCE
    ensures var (t, run) := Sync.Sync(s, lib, true, Values(values));
      && run == Ok(|s.runs|)
      && var report := ReportRun(t, record.externalId, appended, run.value, today);
      var row := FindLead(t.leads, record.externalId, |t.leads|);
      && row.Some? && row.value < |t.leads|
      && t.leads[row.value].fields == record
      && report == EntryResponse(record.externalId, appended, true, report.available, Some(|s.runs|))
      && (report.available <==>
            s.rules != [] && record.leadDate <= today && !Excluded(s.allocations, row.value, s.clock))
  {
    var t := Sync.Sync(s, lib, true, Values(values)).0;
    CleanSheetSyncs(s, lib, values);
    assert ActiveRecord(t.leads, record);
    ImportedRow(t, record);
    AvailableExactly(t, record, FindLead(t.leads, record.externalId, |t.leads|).value, today);
  }

  lemma ImportedRow(t: State, record: Record)
    requires DistinctLeads(t.leads) && ActiveRecord(t.leads, record)
    ensures var row := FindLead(t.leads, record.externalId, |t.leads|);
      row.Some? && row.value < |t.leads| && t.leads[row.value].fields == record && t.leads[row.value].sourceActive
  {
    FindLeadExact(t.leads, record.externalId, |t.leads|);
    var i :| 0 <= i < |t.leads| && t.leads[i].sourceActive && t.leads[i].fields == record;
    assert t.leads[i].fields.externalId == record.externalId;
  }

  lemma AvailableExactly(t: State, record: Record, row: nat, today: Date)
    requires Configured(t.rules) && row < |t.leads|
    requires t.leads[row].fields == record && t.leads[row].sourceActive && record.insuranceType == LIFE_INSURANCE
    ensures var rows := Query(t, today, None, LIFE);
      && rows.Ok?
      && (row in rows.value <==> t.rules != [] && record.leadDate <= today && !Excluded(t.allocations, row, t.clock))
  {
    RowsBelowExact(t, ActiveList(t.rules), today, LIFE, |t.leads|);
    if Sellable(t, today, LIFE, row) {
      TierOfLead(t, today, LIFE, row, 0);
    }
  }

  /** What the local table is to hold of a form: its own data under the request's id, with an empty optional field as
      none, and the fixed source and language where the Sheet has a column for them. */
  function Stored(names: seq<string>, e: Entry, hex: string): Record {
    Record(
      "LEAD-" + hex, e.leadDate, e.firstName, e.phone,
      if e.lastName == Some("") then None else e.lastName,
      if e.email == Some("") then None else e.email,
      if e.municipality == "" then None else Some(e.municipality),
      "Life Insurance",
      if "source" in names then Some("Admin") else None,
      None,
      if "language" in names then Some("es") else None,
      None)
  }

  lemma StoredFromForm(lib: Library, sheet: seq<seq<Cell>>, e: Entry, hex: string, reply: AppendReply)
    requires Append(lib, sheet, LeadOf(e, hex), reply).1 != sheet
    ensures sheet != [] && OnColumns(Headers(sheet[0]), LeadOf(e, hex)) == Stored(Headers(sheet[0]), e, hex)
  {
    AppendAnswers(lib, sheet, LeadOf(e, hex), reply);
    LineExactly(lib, sheet[0], LeadOf(e, hex));
    StoredColumns(Headers(sheet[0]), e, hex);
  }

  lemma StoredColumns(names: seq<string>, e: Entry, hex: string)
    requires Truthy(e.lastName) ==> "last_name" in names
    requires Truthy(e.email) ==> "email" in names
    requires e.municipality != "" ==> "municipality" in names
    ensures OnColumns(names, LeadOf(e, hex)) == Stored(names, e, hex)
  {
  }

  /** Once the row is in the Sheet, whether or not its write was confirmed, any later attempt with the
      same form and request id, from any local state, appends nothing, and with a clean Sheet it reports
      the entry as synced: the local table then holds the form's data under the request's id. The first
      attempt reports the same when its write is confirmed. */
  lemma {:induction false} EntryLands(s: State, lib: Library, sheet: seq<seq<Cell>>, e: Entry, hex: string,
                   first: AppendReply, later: AppendReply, today: Date)
    requires Lawful(lib) && ValidEntry(lib, e) && HexDigits(hex)
    requires DistinctLeads(s.leads) && Configured(s.rules)
    requires Append(lib, sheet, LeadOf(e, hex), first).1 != sheet
    requires ParseRows(lib, ValuesToRows(sheet).value).Ok?
    requires ParseRows(lib, ValuesToRows(sheet).value).value.rejected == []
    ensures var written := Append(lib, sheet, LeadOf(e, hex), first).1;
      var (t, after, result) := CreateEntry(s, lib, written, e, hex, false, later, Values(written), today);
      var record := Stored(Headers(sheet[0]), e, hex);
      var row := FindLead(t.leads, PREFIX + hex, |t.leads|);
      && after == written
      && row.Some? && row.value < |t.leads| && t.leads[row.value].fields == record
      && var available := s.rules != [] && e.leadDate <= today && !Excluded(s.allocations, row.value, s.clock);
      && result == Ok(EntryResponse(PREFIX + hex, false, true, available, Some(|s.runs|)))
      && (first == Confirmed ==>
            CreateEntry(s, lib, sheet, e, hex, false, first, Values(written), today)
              == (t, written, Ok(EntryResponse(PREFIX + hex, true, true, available, Some(|s.runs|)))))
  {
    var lead := LeadOf(e, hex);
    var written := Append(lib, sheet, lead, first).1;
    LeadIsNormalized(lib, e, hex);
    StoredFromForm(lib, sheet, e, hex, first);
    WrittenParses(lib, sheet, lead, first);
    RetryAfterUncertainWrite(lib, sheet, lead, first, [], later);
    SnapshotReports(s, lib, written, OnColumns(Headers(sheet[0]), lead), false, today);
    SnapshotReports(s, lib, written, OnColumns(Headers(sheet[0]), lead), true, today);
  }

  class LeadEntryService {
    const db: Database
    const client: GoogleSheetsClient
    const sync: LeadSyncService

    constructor (db: Database, client: GoogleSheetsClient, sync: LeadSyncService)
      requires sync.db == db && sync.lib == client.lib
      ensures this.db == db && this.client == client && Wired()
    {
      this.db, this.client, this.sync := db, client, sync;
    }

    ghost predicate Wired() {
      sync.db == db && sync.lib == client.lib
    }

    method Create(e: Entry, hex: string, busy: bool, reply: AppendReply, fetch: Fetch, today: Date)
      returns (result: Result<EntryResponse, Error>)
      requires Wired()
      modifies db, client
      ensures (db.View(), client.sheet, result)
        == CreateEntry(old(db.View()), client.lib, old(client.sheet), e, hex, busy, reply, fetch, today)
    {
      if busy {
        return Err(LeadEntryBusy);
      }
      var lead := LeadOf(e, hex);
      var appended := client.AppendLead(lead, reply);
      if appended.Err? {
        return Err(appended.error);
      }
      var run := sync.SyncSheet(true, fetch);
      if run.Err? {
        // The Sheet already owns this lead; the failed sync leaves it pending.
        return Ok(EntryResponse(lead.externalId, appended.value, false, false, None));
      }
      var response := FillResponse(lead.externalId, appended.value, run.value, today);
      return Ok(response);
    }

    /** `result.status` and `result.available`, filled in from the local tables. */
    method FillResponse(id: string, appended: bool, run: nat, today: Date) returns (response: EntryResponse)
      ensures response == ReportRun(db.View(), id, appended, run, today)
    {
      response := EntryResponse(id, appended, false, false, Some(run));
      var imported := FindLead(db.leads, id, |db.leads|);
      FindLeadExact(db.leads, id, |db.leads|);
      if run < |db.runs| && db.runs[run].status == Succeeded
          && imported.Some? && db.leads[imported.value].sourceActive {
        response := response.(synced := true);
        var eligible := Query(db.View(), today, None, LIFE);
        response := response.(available := eligible.Ok? && imported.value in eligible.value);
      }
    }
  }
}
