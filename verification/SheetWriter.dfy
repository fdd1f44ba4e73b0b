/** Appending one lead to the Sheet (app/integrations/google_sheets/client.py). */
module SheetWriter {
  import opened Basics
  import opened Tables
  import opened Text
  import opened SheetParser

  /** `model_dump(mode="json").get(name)`. */
  function Data(lib: Library, lead: Record, name: string): Option<string> {
    if name == "external_id" then Some(lead.externalId)
    else if name == "lead_date" then Some(lib.isoDate(lead.leadDate))
    else if name == "first_name" then Some(lead.firstName)
    else if name == "phone" then Some(lead.phone)
    else if name == "last_name" then lead.lastName
    else if name == "email" then lead.email
    else if name == "municipality" then lead.municipality
    else if name == "insurance_type" then Some(lead.insuranceType)
    else if name == "source" then lead.source
    else if name == "campaign" then lead.campaign
    else if name == "language" then lead.language
    else if name == "notes" then lead.notes
    else None
  }

  const CONTACT := ["last_name", "email", "municipality"]

  function Line(lib: Library, names: seq<string>, lead: Record): seq<string> {
    seq(|names|, i requires 0 <= i < |names| => Or(Data(lib, lead, names[i]), ""))
  }

  function RowForHeaders(lib: Library, headers: seq<Cell>, lead: Record): Result<seq<string>, Error> {
    var names := Headers(headers);
    if ValuesToRows([headers]).Err? then Err(SheetSyncError)
    else if exists k | 0 <= k < |CONTACT| :: Truthy(Data(lib, lead, CONTACT[k])) && CONTACT[k] !in names then
      Err(SheetWriteError)
    else Ok(Line(lib, names, lead))
  }

  /** A line can be written exactly when the header is accepted and has a column for each piece of contact data the
      lead carries. */
  lemma LineExactly(lib: Library, headers: seq<Cell>, lead: Record)
    ensures var names, line := Headers(headers), RowForHeaders(lib, headers, lead);
      && (line.Ok? <==>
            && ValuesToRows([headers]).Ok?
            && (lead.lastName.Some? && lead.lastName.value != "" ==> "last_name" in names)
            && (lead.email.Some? && lead.email.value != "" ==> "email" in names)
            && (lead.municipality.Some? && lead.municipality.value != "" ==> "municipality" in names))
      && (line.Err? ==> line.error == if ValuesToRows([headers]).Ok? then SheetWriteError else SheetSyncError)
  {
    assert CONTACT[0] == "last_name" && CONTACT[1] == "email" && CONTACT[2] == "municipality";
  }

  /** Each column of the written line holds the lead's own field, an absent one as nothing; other columns are blank. */
  lemma LineByColumn(lib: Library, headers: seq<Cell>, lead: Record, i: nat)
    requires RowForHeaders(lib, headers, lead).Ok? && i < |headers|
    ensures |RowForHeaders(lib, headers, lead).value| == |headers|
    ensures var name, text := Headers(headers)[i], RowForHeaders(lib, headers, lead).value[i];
      && (name == "external_id" ==> text == lead.externalId)
      && (name == "lead_date" ==> text == lib.isoDate(lead.leadDate))
      && (name == "first_name" ==> text == lead.firstName)
      && (name == "phone" ==> text == lead.phone)
      && (name == "last_name" ==> text == if lead.lastName.Some? then lead.lastName.value else "")
      && (name == "email" ==> text == if lead.email.Some? then lead.email.value else "")
      && (name == "municipality" ==> text == if lead.municipality.Some? then lead.municipality.value else "")
      && (name == "insurance_type" ==> text == lead.insuranceType)
      && (name == "source" ==> text == if lead.source.Some? then lead.source.value else "")
      && (name == "campaign" ==> text == if lead.campaign.Some? then lead.campaign.value else "")
      && (name == "language" ==> text == if lead.language.Some? then lead.language.value else "")
      && (name == "notes" ==> text == if lead.notes.Some? then lead.notes.value else "")
      && (name !in FIELDS ==> text == "")
  {
    var name := Headers(headers)[i];
    assert RowForHeaders(lib, headers, lead).value[i] == Or(Data(lib, lead, name), "");
    KnownFields(name);
  }

  lemma KnownFields(name: string)
    ensures name in FIELDS <==>
      || name == "external_id" || name == "lead_date" || name == "first_name" || name == "phone"
      || OptionalColumn(name)
  {
    OptionalFields();
    assert "external_id" in REQUIRED && "lead_date" in REQUIRED && "first_name" in REQUIRED && "phone" in REQUIRED;
    assert FIELDS[0] == "external_id" && FIELDS[1] == "lead_date" && FIELDS[2] == "first_name" && FIELDS[3] == "phone";
  }

  // --- Round trip --------------------------------------------------------------

  /** Writing a date gives ISO text that reads back as the same date. */
  ghost predicate Lawful(lib: Library) {
    forall d: Date :: lib.parseDate(lib.isoDate(d)) == Some(d) && lib.isoDate(d) != "" && Stripped(lib.isoDate(d))
  }

  predicate Tidy(text: Option<string>) {
    text.Some? ==> Stripped(text.value)
  }

  /** A `NormalizedLead`: stripped fields, nonempty where required, and an already normalised email. */
  ghost predicate Normalized(lib: Library, lead: Record) {
    && lead.externalId != "" && Stripped(lead.externalId)
    && lead.firstName != "" && Stripped(lead.firstName)
    && lead.phone != "" && Stripped(lead.phone)
    && Tidy(lead.lastName) && Tidy(lead.email) && Tidy(lead.municipality) && Stripped(lead.insuranceType)
    && Tidy(lead.source) && Tidy(lead.campaign) && Tidy(lead.language) && Tidy(lead.notes)
    && (Truthy(lead.email) ==> lib.parseEmail(lead.email.value) == lead.email)
  }

  function Kept(names: seq<string>, name: string, text: Option<string>): Option<string> {
    if name in names && Truthy(text) then text else None
  }

  /** What can be read back of a lead: its fields on the columns the Sheet has. */
  function OnColumns(names: seq<string>, lead: Record): Record {
    Record(lead.externalId, lead.leadDate, lead.firstName, lead.phone,
      Kept(names, "last_name", lead.lastName),
      Kept(names, "email", lead.email),
      Kept(names, "municipality", lead.municipality),
      if "insurance_type" in names && lead.insuranceType != "" then lead.insuranceType else LIFE_INSURANCE,
      Kept(names, "source", lead.source),
      Kept(names, "campaign", lead.campaign),
      Kept(names, "language", lead.language),
      Kept(names, "notes", lead.notes))
  }

  /** The API may drop trailing empty cells of the written line when it is read back. */
  ghost predicate ReadsBack(line: seq<string>, cells: seq<Cell>) {
    && |cells| <= |line|
    && (forall i | 0 <= i < |cells| :: cells[i] == Words(line[i]))
    && (forall i | |cells| <= i < |line| :: line[i] == "")
  }

  lemma DataTidy(lib: Library, lead: Record, name: string)
    requires Lawful(lib) && Normalized(lib, lead)
    ensures Tidy(Data(lib, lead, name))
  {
  }

  /** Whatever the header order, reading a column of the written line gives the lead's field. */
  lemma CleanedField(lib: Library, headers: seq<string>, lead: Record, cells: seq<Cell>, name: string)
    requires Lawful(lib) && Normalized(lib, lead) && name != ""
    requires ReadsBack(Line(lib, headers, lead), cells)
    ensures Cleaned(RowMap(headers, cells), name) == Kept(headers, name, Data(lib, lead, name))
    ensures !Bad(RowMap(headers, cells), name)
  {
    var row := RowMap(headers, cells);
    if name in headers {
      var i := IndexOf(headers, name);
      DataTidy(lib, lead, name);
      assert Line(lib, headers, lead)[i] == Or(Data(lib, lead, name), "");
      assert Get(row, name) == CellAt(cells, i);
      StripStripped(Line(lib, headers, lead)[i]);
    }
  }

  lemma RequiredNames(headers: seq<string>)
    requires HeadersAccepted(headers)
    ensures "external_id" in headers && "lead_date" in headers && "first_name" in headers && "phone" in headers
  {
    assert "external_id" in REQUIRED && "lead_date" in REQUIRED && "first_name" in REQUIRED && "phone" in REQUIRED;
  }

  lemma WrittenRowValid(lib: Library, headers: seq<string>, lead: Record, cells: seq<Cell>)
    requires Lawful(lib) && Normalized(lib, lead) && HeadersAccepted(headers)
    requires ReadsBack(Line(lib, headers, lead), cells)
    ensures var row := RowMap(headers, cells);
      && !BlankRow(row)
      && Invalid(lib, row) == {}
      && Cleaned(row, "external_id") == Some(lead.externalId)
      && Cleaned(row, "first_name") == Some(lead.firstName)
      && Cleaned(row, "phone") == Some(lead.phone)
      && DateOf(lib, row) == Some(lead.leadDate)
  {
    var row := RowMap(headers, cells);
    RequiredNames(headers);
    CleanedField(lib, headers, lead, cells, "external_id");
    CleanedField(lib, headers, lead, cells, "lead_date");
    CleanedField(lib, headers, lead, cells, "first_name");
    CleanedField(lib, headers, lead, cells, "phone");
    NotBlank(row);
    NothingInvalid(lib, row);
  }

  lemma NotBlank(row: Row)
    requires Cleaned(row, "external_id").Some?
    ensures !BlankRow(row)
  {
    assert "external_id" in row && !BlankCell(row["external_id"]);
  }

  lemma NothingInvalid(lib: Library, row: Row)
    requires !Bad(row, "external_id") && !Bad(row, "lead_date") && !Bad(row, "first_name") && !Bad(row, "phone")
    requires Cleaned(row, "external_id").Some? && Cleaned(row, "first_name").Some? && Cleaned(row, "phone").Some?
    requires DateOf(lib, row).Some?
    ensures Invalid(lib, row) == {}
  {
  }

  lemma WrittenRow(lib: Library, headers: seq<string>, lead: Record, cells: seq<Cell>)
    requires Lawful(lib) && Normalized(lib, lead) && HeadersAccepted(headers)
    requires ReadsBack(Line(lib, headers, lead), cells)
    ensures var row := RowMap(headers, cells);
      && !BlankRow(row)
      && Cleaned(row, "external_id") == Some(lead.externalId)
      && Invalid(lib, row) == {}
      && RecordOf(lib, row) == OnColumns(headers, lead)
  {
    WrittenRowValid(lib, headers, lead, cells);
    WrittenContact(lib, headers, lead, cells);
    CleanedField(lib, headers, lead, cells, "source");
    CleanedField(lib, headers, lead, cells, "campaign");
    CleanedField(lib, headers, lead, cells, "language");
    CleanedField(lib, headers, lead, cells, "notes");
  }

  lemma WrittenContact(lib: Library, headers: seq<string>, lead: Record, cells: seq<Cell>)
    requires Lawful(lib) && Normalized(lib, lead)
    requires ReadsBack(Line(lib, headers, lead), cells)
    ensures var row := RowMap(headers, cells);
      && Cleaned(row, "last_name") == OnColumns(headers, lead).lastName
      && EmailOf(lib, row) == OnColumns(headers, lead).email
      && Cleaned(row, "municipality") == OnColumns(headers, lead).municipality
      && Or(Cleaned(row, "insurance_type"), LIFE_INSURANCE) == OnColumns(headers, lead).insuranceType
  {
    CleanedField(lib, headers, lead, cells, "last_name");
    CleanedField(lib, headers, lead, cells, "email");
    CleanedField(lib, headers, lead, cells, "municipality");
    CleanedField(lib, headers, lead, cells, "insurance_type");
    if Truthy(lead.email) {
      StripStripped(lead.email.value);
    }
  }

  lemma RowMapsAppend(headers: seq<string>, lines: seq<seq<Cell>>, cells: seq<Cell>)
    requires |cells| <= |headers| && RowMaps(headers, lines).Ok?
    ensures RowMaps(headers, lines + [cells]) == Ok(RowMaps(headers, lines).value + [RowMap(headers, cells)])
  {
    assert (lines + [cells])[..|lines|] == lines;
  }

  lemma {:induction false} PrefixUnchanged(lib: Library, rows: seq<Row>, more: seq<Row>, n: nat)
    requires n <= |rows|
    ensures ParsePrefix(lib, rows + more, n) == ParsePrefix(lib, rows, n)
  {
    if n > 0 {
      PrefixUnchanged(lib, rows, more, n - 1);
    }
  }

  lemma {:induction false} NoWarnings(row: Row, number: nat, names: seq<string>)
    requires forall name | name in names :: !Bad(row, name)
    ensures CellWarnings(row, number, names) == []
  {
    if names != [] {
      assert names[|names| - 1] in names;
      NoWarnings(row, number, names[..|names| - 1]);
    }
  }

  /** Appending the line written for a lead and reading the Sheet again gives the old result
      followed by that lead, whatever the order of the columns and whatever unknown ones there are. */
  lemma {:induction false} AppendRoundTrip(lib: Library, values: seq<seq<Cell>>, lead: Record, cells: seq<Cell>)
    requires Lawful(lib) && Normalized(lib, lead)
    requires ValuesToRows(values).Ok? && ParseRows(lib, ValuesToRows(values).value).Ok?
    requires RowForHeaders(lib, values[0], lead).Ok? && ReadsBack(RowForHeaders(lib, values[0], lead).value, cells)
    requires forall i | 0 <= i < |ValuesToRows(values).value| :: !HasId(ValuesToRows(values).value, i, lead.externalId)
    ensures ValuesToRows(values + [cells]).Ok?
    ensures var before := ParseRows(lib, ValuesToRows(values).value).value;
      ParseRows(lib, ValuesToRows(values + [cells]).value)
        == Ok(before.(leads := before.leads + [OnColumns(Headers(values[0]), lead)]))
  {
    var headers := Headers(values[0]);
    var rows := ValuesToRows(values).value;
    var row := RowMap(headers, cells);
    AppendedValues(values, cells);
    WrittenRow(lib, headers, lead, cells);
    WrittenQuietly(lib, headers, lead, cells, |rows| + 2);
    ParseOneMore(lib, rows, row, lead.externalId);
  }

  /** A usable row with a new id extends a finished parse by its own lead. */
  lemma ParseOneMore(lib: Library, rows: seq<Row>, row: Row, id: string)
    requires ParseRows(lib, rows).Ok?
    requires !BlankRow(row) && Invalid(lib, row) == {} && RowWarnings(lib, row, |rows| + 2) == []
    requires Cleaned(row, "external_id") == Some(id) && forall i | 0 <= i < |rows| :: !HasId(rows, i, id)
    ensures ParseRows(lib, rows + [row])
      == Ok(ParseRows(lib, rows).value.(leads := ParseRows(lib, rows).value.leads + [RecordOf(lib, row)]))
  {
    var n := |rows|;
    PrefixUnchanged(lib, rows, [row], n);
    var p := ParsePrefix(lib, rows, n).value;
    assert (rows + [row])[n] == row;
    assert ParsePrefix(lib, rows + [row], n + 1) == ParseRow(lib, p, row, n);
    NewIdUnseen(lib, rows, id);
    ParseAccepts(lib, p, row, n);
  }

  lemma NewIdUnseen(lib: Library, rows: seq<Row>, id: string)
    requires ParsePrefix(lib, rows, |rows|).Ok? && forall i | 0 <= i < |rows| :: !HasId(rows, i, id)
    ensures id !in ParsePrefix(lib, rows, |rows|).value.seen
  {
    ParsePrefixSeen(lib, rows, |rows|);
    IdsSeenExact(rows, |rows|);
  }

  lemma AppendedValues(values: seq<seq<Cell>>, cells: seq<Cell>)
    requires ValuesToRows(values).Ok? && |cells| <= |values[0]|
    ensures ValuesToRows(values + [cells]) == Ok(ValuesToRows(values).value + [RowMap(Headers(values[0]), cells)])
  {
    assert (values + [cells])[1..] == values[1..] + [cells] && (values + [cells])[0] == values[0];
    RowMapsAppend(Headers(values[0]), values[1..], cells);
  }

  lemma ParseAccepts(lib: Library, p: Progress, row: Row, i: nat)
    requires !BlankRow(row) && Invalid(lib, row) == {} && RowWarnings(lib, row, i + 2) == []
    requires Cleaned(row, "external_id").Some? && Cleaned(row, "external_id").value !in p.seen
    ensures ParseRow(lib, p, row, i).Ok?
    ensures ParseRow(lib, p, row, i).value.result == p.result.(leads := p.result.leads + [RecordOf(lib, row)])
  {
  }

  lemma WrittenQuietly(lib: Library, headers: seq<string>, lead: Record, cells: seq<Cell>, number: nat)
    requires Lawful(lib) && Normalized(lib, lead)
    requires ReadsBack(Line(lib, headers, lead), cells)
    ensures RowWarnings(lib, RowMap(headers, cells), number) == []
  {
    var row := RowMap(headers, cells);
    forall name | name in FIELDS ensures !Bad(row, name) {
      CleanedField(lib, headers, lead, cells, name);
    }
    NoWarnings(row, number, FIELDS);
    CleanedField(lib, headers, lead, cells, "email");
  }

  // --- append_lead -----------------------------------------------------------------

  /** What happened to the append request: confirmed, an answer without one updated row,
      or an exception; in the last two `written` says whether the row is there all the same. */
  datatype AppendReply = Confirmed | Unconfirmed(written: bool) | Lost(written: bool)

  const COMPARED := ["first_name", "last_name", "phone", "email", "municipality", "lead_date"]

  /** `clean_cell` of a cell, or nothing for a value it refuses. */
  predicate CleansTo(cell: Cell, text: Option<string>) {
    CleanCell(cell) == Ok(text)
  }

  function Matches(rows: seq<Row>, id: string): seq<nat> {
    MatchesBelow(rows, id, |rows|)
  }

  function MatchesBelow(rows: seq<Row>, id: string, n: nat): seq<nat>
    requires n <= |rows|
  {
    if n == 0 then []
    else MatchesBelow(rows, id, n - 1) + if CleansTo(Get(rows[n - 1], "external_id"), Some(id)) then [n - 1] else []
  }

  function Expected(names: seq<string>, line: seq<string>, name: string): Option<string>
    requires |line| == |names|
  {
    if name in names then NonEmpty(Strip(line[IndexOf(names, name)])) else None
  }

  /** A comparison that meets a non-scalar cell raises, and the handler reports a write error. */
  predicate Unreadable(rows: seq<Row>) {
    exists i | 0 <= i < |rows| :: Bad(rows[i], "external_id")
  }

  function CellsOf(line: seq<string>): seq<Cell> {
    seq(|line|, i requires 0 <= i < |line| => Words(line[i]))
  }

  /** Comparing the found row with the lead, column by column; `Ok` means they agree. */
  function CompareFrom(names: seq<string>, line: seq<string>, row: Row, k: nat): Result<(), Error>
    requires |line| == |names| && k <= |COMPARED|
    decreases |COMPARED| - k
  {
    if k == |COMPARED| then Ok(())
    else if Bad(row, COMPARED[k]) then Err(SheetWriteError)
    else if !CleansTo(Get(row, COMPARED[k]), Expected(names, line, COMPARED[k])) then Err(SheetIdentityConflict)
    else CompareFrom(names, line, row, k + 1)
  }

  /** The identity check: the row that already carries the id is compared, not written again. */
  function CheckIdentity(names: seq<string>, line: seq<string>, rows: seq<Row>, id: string): Result<bool, Error>
    requires |line| == |names|
  {
    var matches := Matches(rows, id);
    if Unreadable(rows) then Err(SheetWriteError)
    else if |matches| > 1 then Err(SheetIdentityConflict)
    else if matches == [] then Ok(true)
    else
      MatchesExact(rows, id, |rows|);
      assert matches[0] in matches;
      match CompareFrom(names, line, rows[matches[0]], 0)
      case Err(e) => Err(e)
      case Ok(_) => Ok(false)
  }

  /** What to append, if anything. */
  function Plan(lib: Library, values: seq<seq<Cell>>, lead: Record): Result<Option<seq<string>>, Error> {
    match ValuesToRows(values)
    case Err(_) => Err(SheetWriteError)
    case Ok(rows) =>
      match RowForHeaders(lib, values[0], lead)
      case Err(_) => Err(SheetWriteError)
      case Ok(line) =>
        match CheckIdentity(Headers(values[0]), line, rows, lead.externalId)
        case Err(e) => Err(e)
        case Ok(missing) => Ok(if missing then Some(line) else None)
  }

  function Reply(reply: AppendReply): (Result<bool, Error>, bool) {
    match reply
    case Confirmed => (Ok(true), true)
    case Unconfirmed(written) => (Err(SheetWriteError), written)
    case Lost(written) => (Err(SheetWriteError), written)
  }

  /** Check, then append at most one row; the second component is the Sheet afterwards. */
  function Append(lib: Library, values: seq<seq<Cell>>, lead: Record, reply: AppendReply)
    : (Result<bool, Error>, seq<seq<Cell>>)
  {
    match Plan(lib, values, lead)
    case Err(e) => (Err(e), values)
    case Ok(None) => (Ok(false), values)
    case Ok(Some(line)) =>
      var (result, written) := Reply(reply);
      (result, if written then values + [CellsOf(line)] else values)
  }

  lemma {:induction false} MatchesExact(rows: seq<Row>, id: string, n: nat)
    requires n <= |rows|
    ensures NoDup(MatchesBelow(rows, id, n))
    ensures forall i: nat :: i in MatchesBelow(rows, id, n) <==>
      i < n && CleansTo(Get(rows[i], "external_id"), Some(id))
  {
    if n > 0 {
      MatchesExact(rows, id, n - 1);
      assert n - 1 !in MatchesBelow(rows, id, n - 1);
    }
  }

  predicate UsableIn(row: Row, name: string) {
    name in row ==> !row[name].Other?
  }

  /** The row found and the line to write have the same stripped text in this column. */
  predicate SameText(names: seq<string>, line: seq<string>, row: Row, name: string)
    requires |line| == |names|
  {
    && (name !in names ==> Cleaned(row, name).None?)
    && forall i | 0 <= i < |names| && names[i] == name ::
         Cleaned(row, name) == if Strip(line[i]) == "" then None else Some(Strip(line[i]))
  }

  lemma SameTextCompared(names: seq<string>, line: seq<string>, row: Row, name: string)
    requires |line| == |names| && name != ""
    requires forall a, b | 0 <= a < b < |names| && names[a] != "" :: names[a] != names[b]
    ensures UsableIn(row, name) <==> !Bad(row, name)
    ensures UsableIn(row, name) ==>
      (SameText(names, line, row, name) <==> CleansTo(Get(row, name), Expected(names, line, name)))
  {
    if name in names {
      var i := IndexOf(names, name);
      forall k | 0 <= k < |names| && names[k] == name ensures k == i {
      }
    }
  }

  /** The contact columns and the date, none of them holding a value that cannot be read. */
  predicate ContactUsable(row: Row) {
    && UsableIn(row, "first_name") && UsableIn(row, "last_name") && UsableIn(row, "phone")
    && UsableIn(row, "email") && UsableIn(row, "municipality") && UsableIn(row, "lead_date")
  }

  predicate SameContact(names: seq<string>, line: seq<string>, row: Row)
    requires |line| == |names|
  {
    && SameText(names, line, row, "first_name") && SameText(names, line, row, "last_name")
    && SameText(names, line, row, "phone") && SameText(names, line, row, "email")
    && SameText(names, line, row, "municipality") && SameText(names, line, row, "lead_date")
  }

  lemma ComparedExactly(names: seq<string>, line: seq<string>, row: Row)
    requires |line| == |names|
    requires forall a, b | 0 <= a < b < |names| && names[a] != "" :: names[a] != names[b]
    ensures CompareFrom(names, line, row, 0).Ok? <==> ContactUsable(row) && SameContact(names, line, row)
    ensures ContactUsable(row) && !SameContact(names, line, row) ==>
      CompareFrom(names, line, row, 0) == Err(SheetIdentityConflict)
  {
    ComparedColumns();
    forall k | 0 <= k < |COMPARED|
      ensures UsableIn(row, COMPARED[k]) <==> !Bad(row, COMPARED[k])
      ensures UsableIn(row, COMPARED[k]) ==>
        (SameText(names, line, row, COMPARED[k]) <==>
          CleansTo(Get(row, COMPARED[k]), Expected(names, line, COMPARED[k])))
    {
      SameTextCompared(names, line, row, COMPARED[k]);
    }
    ComparedAll(names, line, row, 0);
  }

  lemma ComparedColumns()
    ensures |COMPARED| == 6 && COMPARED[0] == "first_name" && COMPARED[1] == "last_name" && COMPARED[2] == "phone"
    ensures COMPARED[3] == "email" && COMPARED[4] == "municipality" && COMPARED[5] == "lead_date"
    ensures forall k | 0 <= k < |COMPARED| :: COMPARED[k] != ""
  {
  }

  lemma {:induction false} ComparedAll(names: seq<string>, line: seq<string>, row: Row, k: nat)
    requires |line| == |names| && k <= |COMPARED|
    ensures CompareFrom(names, line, row, k).Ok? <==>
      forall m | k <= m < |COMPARED| ::
        !Bad(row, COMPARED[m]) && CleansTo(Get(row, COMPARED[m]), Expected(names, line, COMPARED[m]))
    ensures CompareFrom(names, line, row, k).Err? && (forall m | k <= m < |COMPARED| :: !Bad(row, COMPARED[m])) ==>
      CompareFrom(names, line, row, k).error == SheetIdentityConflict
    decreases |COMPARED| - k
  {
    if k < |COMPARED| {
      ComparedAll(names, line, row, k + 1);
    }
  }

  /** The identity check on readable ids: no row with the id may be written, one that agrees on names, phone, email,
      municipality and date counts as saved, and one that differs, or a second one, is a conflict. */
  lemma IdentityExactly(names: seq<string>, line: seq<string>, rows: seq<Row>, id: string)
    requires |line| == |names|
    requires forall a, b | 0 <= a < b < |names| && names[a] != "" :: names[a] != names[b]
    requires forall i | 0 <= i < |rows| :: UsableIn(rows[i], "external_id")
    ensures var checked := CheckIdentity(names, line, rows, id);
      && (checked == Ok(true) <==> forall i | 0 <= i < |rows| :: Cleaned(rows[i], "external_id") != Some(id))
      && (forall i | 0 <= i < |rows| && OnlyRow(rows, id, i) && ContactUsable(rows[i]) ::
            checked == if SameContact(names, line, rows[i]) then Ok(false) else Err(SheetIdentityConflict))
      && (checked == Ok(false) ==> exists i | 0 <= i < |rows| ::
            OnlyRow(rows, id, i) && ContactUsable(rows[i]) && SameContact(names, line, rows[i]))
      && ((exists i, j | 0 <= i < j < |rows| ::
             Cleaned(rows[i], "external_id") == Some(id) && Cleaned(rows[j], "external_id") == Some(id))
          ==> checked == Err(SheetIdentityConflict))
  {
    var matches := Matches(rows, id);
    MatchesExact(rows, id, |rows|);
    forall i: nat | i < |rows| ensures i in matches <==> Cleaned(rows[i], "external_id") == Some(id) {
      assert UsableIn(rows[i], "external_id");
    }
    assert !Unreadable(rows);
    ManyMatches(rows, id, matches);
    if |matches| == 1 {
      assert matches[0] in matches;
      ComparedExactly(names, line, rows[matches[0]]);
      assert OnlyRow(rows, id, matches[0]);
    }
  }

  /** Row `i` is the one row with this id. */
  ghost predicate OnlyRow(rows: seq<Row>, id: string, i: nat) {
    && i < |rows| && Cleaned(rows[i], "external_id") == Some(id)
    && forall j | 0 <= j < |rows| && j != i :: Cleaned(rows[j], "external_id") != Some(id)
  }

  lemma ManyMatches(rows: seq<Row>, id: string, matches: seq<nat>)
    requires NoDup(matches)
    requires forall i: nat :: i in matches <==> i < |rows| && Cleaned(rows[i], "external_id") == Some(id)
    ensures forall i | 0 <= i < |rows| && OnlyRow(rows, id, i) :: matches == [i]
    ensures forall i, j | 0 <= i < j < |rows| && Cleaned(rows[i], "external_id") == Some(id)
      && Cleaned(rows[j], "external_id") == Some(id) :: |matches| > 1
    ensures |matches| == 1 ==> OnlyRow(rows, id, matches[0])
    ensures matches == [] <==> forall i | 0 <= i < |rows| :: Cleaned(rows[i], "external_id") != Some(id)
  {
    assert forall k | 0 <= k < |matches| :: matches[k] in matches;
    forall i: nat | i < |rows| && OnlyRow(rows, id, i) ensures matches == [i] {
      assert i in matches;
      NoDupSize(matches, {i});
    }
    forall i: nat | i < |rows| && Cleaned(rows[i], "external_id") == Some(id) ensures matches != [] {
      assert i in matches;
    }
    if matches != [] {
      assert matches[0] in matches;
      assert Cleaned(rows[matches[0]], "external_id") == Some(id);
    }
  }

  /** For the line of a lead, the same text means the lead's own data, on the columns there are. */
  lemma SameContactAsLead(lib: Library, names: seq<string>, lead: Record, row: Row)
    requires Lawful(lib) && Normalized(lib, lead) && HeadersAccepted(names)
    ensures SameContact(names, Line(lib, names, lead), row) <==>
      && Cleaned(row, "first_name") == Some(lead.firstName)
      && Cleaned(row, "phone") == Some(lead.phone)
      && Cleaned(row, "lead_date") == Some(lib.isoDate(lead.leadDate))
      && Cleaned(row, "last_name") == Kept(names, "last_name", lead.lastName)
      && Cleaned(row, "email") == Kept(names, "email", lead.email)
      && Cleaned(row, "municipality") == Kept(names, "municipality", lead.municipality)
  {
    RequiredNames(names);
    SameTextAsLead(lib, names, lead, row, "first_name");
    SameTextAsLead(lib, names, lead, row, "phone");
    SameTextAsLead(lib, names, lead, row, "lead_date");
    SameTextAsLead(lib, names, lead, row, "last_name");
    SameTextAsLead(lib, names, lead, row, "email");
    SameTextAsLead(lib, names, lead, row, "municipality");
  }

  lemma SameTextAsLead(lib: Library, names: seq<string>, lead: Record, row: Row, name: string)
    requires Lawful(lib) && Normalized(lib, lead) && name != ""
    ensures SameText(names, Line(lib, names, lead), row, name)
      <==> Cleaned(row, name) == Kept(names, name, Data(lib, lead, name))
  {
    var line := Line(lib, names, lead);
    DataTidy(lib, lead, name);
    StripStripped(Or(Data(lib, lead, name), ""));
    forall i | 0 <= i < |names| && names[i] == name ensures line[i] == Or(Data(lib, lead, name), "") {
    }
    if name in names {
      assert names[IndexOf(names, name)] == name;
    }
  }

  /** Every answer of an append, and whether the row is there afterwards. */
  lemma AppendAnswers(lib: Library, values: seq<seq<Cell>>, lead: Record, reply: AppendReply)
    ensures var (result, after) := Append(lib, values, lead, reply);
      if ValuesToRows(values).Err? || RowForHeaders(lib, values[0], lead).Err? then
        result == Err(SheetWriteError) && after == values
      else
        var line := RowForHeaders(lib, values[0], lead).value;
        match CheckIdentity(Headers(values[0]), line, ValuesToRows(values).value, lead.externalId)
        case Err(e) => result == Err(e) && after == values
        case Ok(false) => result == Ok(false) && after == values
        case Ok(true) =>
          var there := reply.Confirmed? || reply == Unconfirmed(true) || reply == Lost(true);
          && result == (if reply.Confirmed? then Ok(true) else Err(SheetWriteError))
          && after == values + if there then [seq(|line|, i requires 0 <= i < |line| => Words(line[i]))] else []
  {
  }

  /** The Sheet writer; `sheet` is the upstream worksheet, which no local rollback reverts. */
  class GoogleSheetsClient {
    var sheet: seq<seq<Cell>>
    const lib: Library

    constructor (lib: Library, sheet: seq<seq<Cell>>)
      ensures this.lib == lib && this.sheet == sheet
    {
      this.lib, this.sheet := lib, sheet;
    }

    method AppendLead(lead: Record, reply: AppendReply) returns (result: Result<bool, Error>)
      modifies this
      ensures (result, sheet) == Append(lib, old(sheet), lead, reply)
    {
      var read := ReadValues(sheet);
      if read.Err? {
        return Err(SheetWriteError);
      }
      var row := RowForHeaders(lib, sheet[0], lead);
      if row.Err? {
        return Err(SheetWriteError);
      }
      var missing := FindOrCompare(Headers(sheet[0]), row.value, read.value, lead.externalId);
      if missing.Err? {
        return Err(missing.error);
      }
      if !missing.value {
        return Ok(false);
      }
      var (answer, written) := Reply(reply);
      if written {
        sheet := sheet + [CellsOf(row.value)];
      }
      return answer;
    }

    /** True when no row carries the id; false when one does and agrees on the contact data. */
    method FindOrCompare(names: seq<string>, newRow: seq<string>, rows: seq<Row>, id: string)
      returns (missing: Result<bool, Error>)
      requires |newRow| == |names|
      ensures missing == CheckIdentity(names, newRow, rows, id)
    {
      if Unreadable(rows) {
        return Err(SheetWriteError);
      }
      var matches := Matches(rows, id);
      MatchesExact(rows, id, |rows|);
      if |matches| > 1 {
        return Err(SheetIdentityConflict);
      }
      if matches == [] {
        return Ok(true);
      }
      assert matches[0] in matches;
      var found := rows[matches[0]];
      var k := 0;
      while k < |COMPARED|
        invariant k <= |COMPARED|
        invariant CompareFrom(names, newRow, found, 0) == CompareFrom(names, newRow, found, k)
      {
        var cell := CleanCell(Get(found, COMPARED[k]));
        if cell.Err? {
          return Err(SheetWriteError);
        }
        if cell != Ok(Expected(names, newRow, COMPARED[k])) {
          return Err(SheetIdentityConflict);
        }
        k := k + 1;
      }
      return Ok(false);
    }
  }

  // --- At most once ------------------------------------------------------------------

  ghost predicate CarriesId(headers: seq<string>, line: seq<Cell>, id: string) {
    CleansTo(Get(RowMap(headers, line), "external_id"), Some(id))
  }

  /** At most one row below the header carries this id. */
  ghost predicate AtMostOne(values: seq<seq<Cell>>, id: string) {
    values != [] ==>
      forall i, j | 1 <= i < j < |values| && CarriesId(Headers(values[0]), values[i], id) ::
        !CarriesId(Headers(values[0]), values[j], id)
  }

  /** One attempt, whatever the network does, leaves every existing row alone, adds at most one
      row, and adds it only when no row carried the id. */
  lemma {:induction false} AppendAddsOnce(lib: Library, values: seq<seq<Cell>>, lead: Record, reply: AppendReply)
    requires Lawful(lib) && Normalized(lib, lead)
    ensures var (result, after) := Append(lib, values, lead, reply);
      && (after == values || (values != [] && |after| == |values| + 1 && after[..|values|] == values
            && CarriesId(Headers(values[0]), after[|values|], lead.externalId)
            && forall i | 1 <= i < |values| :: !CarriesId(Headers(values[0]), values[i], lead.externalId)))
      && (result == Ok(true) ==> after != values)
      && (result == Ok(false) ==> after == values)
  {
    var after := Append(lib, values, lead, reply).1;
    if after != values {
      WrittenShape(lib, values, lead, reply);
      CarriesWritten(lib, Headers(values[0]), lead);
      NobodyCarries(values, lead.externalId);
    }
  }

  lemma CarriesWritten(lib: Library, headers: seq<string>, lead: Record)
    requires Lawful(lib) && Normalized(lib, lead) && HeadersAccepted(headers)
    ensures CarriesId(headers, CellsOf(Line(lib, headers, lead)), lead.externalId)
  {
    RequiredNames(headers);
    CleanedField(lib, headers, lead, CellsOf(Line(lib, headers, lead)), "external_id");
  }

  lemma NobodyCarries(values: seq<seq<Cell>>, id: string)
    requires ValuesToRows(values).Ok? && Matches(ValuesToRows(values).value, id) == []
    ensures forall i | 1 <= i < |values| :: !CarriesId(Headers(values[0]), values[i], id)
  {
    var rows := ValuesToRows(values).value;
    MatchesExact(rows, id, |rows|);
    forall i | 1 <= i < |values| ensures !CarriesId(Headers(values[0]), values[i], id) {
      RowMapsAt(Headers(values[0]), values[1..], i - 1);
      assert i - 1 !in Matches(rows, id);
    }
  }

  datatype Attempt = Attempt(lead: Record, reply: AppendReply)

  function Attempts(lib: Library, values: seq<seq<Cell>>, tries: seq<Attempt>): seq<seq<Cell>> {
    if tries == [] then values
    else
      var n := |tries| - 1;
      Append(lib, Attempts(lib, values, tries[..n]), tries[n].lead, tries[n].reply).1
  }

  ghost predicate AllNormalized(lib: Library, tries: seq<Attempt>) {
    forall k | 0 <= k < |tries| :: Normalized(lib, tries[k].lead)
  }

  lemma CellIdFunctional(headers: seq<string>, line: seq<Cell>, a: string, b: string)
    requires CarriesId(headers, line, a) && CarriesId(headers, line, b)
    ensures a == b
  {
  }

  /** Over any schedule of retries and restarts of any leads, with any answers lost, an id that starts
      with at most one row keeps at most one, and the rows already there are never altered. */
  lemma {:induction false} AtMostOnce(lib: Library, values: seq<seq<Cell>>, tries: seq<Attempt>, id: string)
    requires Lawful(lib) && AllNormalized(lib, tries) && AtMostOne(values, id)
    ensures values <= Attempts(lib, values, tries)
    ensures AtMostOne(Attempts(lib, values, tries), id)
    ensures values == [] ==> Attempts(lib, values, tries) == []
  {
    if tries != [] {
      var n := |tries| - 1;
      AtMostOnce(lib, values, tries[..n], id);
      var before := Attempts(lib, values, tries[..n]);
      AppendAddsOnce(lib, before, tries[n].lead, tries[n].reply);
      AtMostOneStep(before, Attempts(lib, values, tries), id, tries[n].lead.externalId);
    }
  }

  lemma AtMostOneStep(before: seq<seq<Cell>>, after: seq<seq<Cell>>, id: string, written: string)
    requires AtMostOne(before, id)
    requires after == before || (before != [] && |after| == |before| + 1 && after[..|before|] == before
      && CarriesId(Headers(before[0]), after[|before|], written)
      && forall i | 1 <= i < |before| :: !CarriesId(Headers(before[0]), before[i], written))
    ensures before <= after && AtMostOne(after, id)
    ensures before == [] ==> after == []
  {
    if after != before {
      var n, headers := |before|, Headers(before[0]);
      assert forall i | 0 <= i < n :: after[..n][i] == after[i];
      if CarriesId(headers, after[n], id) {
        CellIdFunctional(headers, after[n], id, written);
      }
      forall i, j | 1 <= i < j < |after| && CarriesId(headers, after[i], id) ensures !CarriesId(headers, after[j], id) {
        assert after[i] == before[i] && (j < n ==> after[j] == before[j]);
      }
    }
  }

  /** At most once needs the first write to have taken effect, or not, by the time of the retry's read: a lost
      append that the Sheet applies only after the retry's own append gives the id a second row. */
  lemma LateWriteRepeats(lib: Library, values: seq<seq<Cell>>, lead: Record)
    requires Lawful(lib) && Normalized(lib, lead) && Plan(lib, values, lead).Ok? && Plan(lib, values, lead).value.Some?
    ensures var row := CellsOf(Plan(lib, values, lead).value.value);
      && Append(lib, values, lead, Lost(false)) == (Err(SheetWriteError), values)
      && Append(lib, values, lead, Confirmed) == (Ok(true), values + [row])
      && !AtMostOne(values + [row] + [row], lead.externalId)
  {
    CarriesWritten(lib, Headers(values[0]), lead);
    TwiceWritten(values, CellsOf(Plan(lib, values, lead).value.value), lead.externalId);
  }

  lemma TwiceWritten(values: seq<seq<Cell>>, row: seq<Cell>, id: string)
    requires values != [] && CarriesId(Headers(values[0]), row, id)
    ensures !AtMostOne(values + [row] + [row], id)
  {
    var twice := values + [row] + [row];
    assert twice[0] == values[0] && twice[|values|] == row && twice[|values| + 1] == row;
  }

  /** The written line holds the contact data the retry will compare it with. */
  lemma {:induction false} WrittenLineMatches(lib: Library, headers: seq<string>, lead: Record, k: nat)
    requires Lawful(lib) && Normalized(lib, lead) && k <= |COMPARED|
    ensures var line := Line(lib, headers, lead);
      CompareFrom(headers, line, RowMap(headers, CellsOf(line)), k).Ok?
    decreases |COMPARED| - k
  {
    if k < |COMPARED| {
      var line, name := Line(lib, headers, lead), COMPARED[k];
      WrittenLineMatches(lib, headers, lead, k + 1);
      if name in headers {
        assert Get(RowMap(headers, CellsOf(line)), name) == Words(line[IndexOf(headers, name)]);
      }
    }
  }

  lemma WrittenIsFound(lib: Library, values: seq<seq<Cell>>, lead: Record, first: AppendReply)
    requires Lawful(lib) && Normalized(lib, lead)
    requires Append(lib, values, lead, first).1 != values
    ensures Plan(lib, Append(lib, values, lead, first).1, lead) == Ok(None)
  {
    var headers := Headers(values[0]);
    var line := Line(lib, headers, lead);
    var after := values + [CellsOf(line)];
    assert Append(lib, values, lead, first).1 == after && after[0] == values[0];
    AppendedValues(values, CellsOf(line));
    assert RowForHeaders(lib, after[0], lead) == Ok(line);
    FoundAgain(lib, headers, ValuesToRows(values).value, lead);
  }

  /** A lead that has been found keeps being found, whatever other attempts write. */
  lemma FoundStays(lib: Library, values: seq<seq<Cell>>, lead: Record, other: Record, reply: AppendReply)
    requires Lawful(lib) && Normalized(lib, lead) && Normalized(lib, other)
    requires Plan(lib, values, lead) == Ok(None)
    ensures Plan(lib, Append(lib, values, other, reply).1, lead) == Ok(None)
  {
    var after := Append(lib, values, other, reply).1;
    if after != values {
      var headers := Headers(values[0]);
      var line, written := Line(lib, headers, lead), Line(lib, headers, other);
      WrittenShape(lib, values, other, reply);
      AppendedValues(values, CellsOf(written));
      CarriesWritten(lib, headers, other);
      StillMatched(headers, line, ValuesToRows(values).value, RowMap(headers, CellsOf(written)),
        lead.externalId, other.externalId);
      StillPlanned(lib, values, after, lead);
    }
  }

  lemma WrittenShape(lib: Library, values: seq<seq<Cell>>, other: Record, reply: AppendReply)
    requires Append(lib, values, other, reply).1 != values
    ensures ValuesToRows(values).Ok? && values != []
    ensures HeadersAccepted(Headers(values[0]))
    ensures Append(lib, values, other, reply).1 == values + [CellsOf(Line(lib, Headers(values[0]), other))]
    ensures Matches(ValuesToRows(values).value, other.externalId) == []
  {
  }

  /** The plan depends only on the header line and on what the identity check finds. */
  lemma StillPlanned(lib: Library, values: seq<seq<Cell>>, after: seq<seq<Cell>>, lead: Record)
    requires Plan(lib, values, lead) == Ok(None) && ValuesToRows(after).Ok?
    requires |after| > |values| > 0 && after[0] == values[0]
    requires var headers := Headers(values[0]);
      CheckIdentity(headers, Line(lib, headers, lead), ValuesToRows(after).value, lead.externalId) == Ok(false)
    ensures Plan(lib, after, lead) == Ok(None)
  {
  }

  lemma StillReadable(rows: seq<Row>, row: Row)
    requires !Unreadable(rows) && !Bad(row, "external_id")
    ensures !Unreadable(rows + [row])
  {
    assert forall k | 0 <= k < |rows| :: (rows + [row])[k] == rows[k];
  }

  lemma StillMatched(names: seq<string>, line: seq<string>, rows: seq<Row>, row: Row, id: string, other: string)
    requires |line| == |names| && CheckIdentity(names, line, rows, id) == Ok(false)
    requires CleansTo(Get(row, "external_id"), Some(other)) && Matches(rows, other) == []
    ensures CheckIdentity(names, line, rows + [row], id) == Ok(false)
  {
    var i := Matches(rows, id)[0];
    var again := rows + [row];
    MatchesExact(rows, id, |rows|);
    assert i in Matches(rows, id);
    assert id != other;
    MatchesPrefix(rows, row, id, |rows|);
    assert again[|rows|] == row && again[i] == rows[i];
    assert Matches(again, id) == Matches(rows, id) == [i];
    StillReadable(rows, row);
    ComparedOnly(names, line, again, id, i);
  }

  lemma {:induction false} FoundForever(lib: Library, values: seq<seq<Cell>>, lead: Record, tries: seq<Attempt>)
    requires Lawful(lib) && Normalized(lib, lead) && AllNormalized(lib, tries)
    requires Plan(lib, values, lead) == Ok(None)
    ensures Plan(lib, Attempts(lib, values, tries), lead) == Ok(None)
  {
    if tries != [] {
      var n := |tries| - 1;
      FoundForever(lib, values, lead, tries[..n]);
      FoundStays(lib, Attempts(lib, values, tries[..n]), lead, tries[n].lead, tries[n].reply);
    }
  }

  /** Once a write has taken effect, confirmed or not, every later retry with the same data finds the
      row and reports that nothing was appended, whatever other attempts come in between. */
  lemma {:induction false} RetryAfterUncertainWrite(
    lib: Library, values: seq<seq<Cell>>, lead: Record, first: AppendReply, between: seq<Attempt>, retry: AppendReply)
    requires Lawful(lib) && Normalized(lib, lead) && AllNormalized(lib, between)
    requires Append(lib, values, lead, first).1 != values
    ensures var now := Attempts(lib, Append(lib, values, lead, first).1, between);
      Append(lib, now, lead, retry) == (Ok(false), now)
  {
    WrittenIsFound(lib, values, lead, first);
    FoundForever(lib, Append(lib, values, lead, first).1, lead, between);
  }

  lemma FoundAgain(lib: Library, headers: seq<string>, rows: seq<Row>, lead: Record)
    requires Lawful(lib) && Normalized(lib, lead) && HeadersAccepted(headers)
    requires !Unreadable(rows) && Matches(rows, lead.externalId) == []
    ensures var line := Line(lib, headers, lead);
      CheckIdentity(headers, line, rows + [RowMap(headers, CellsOf(line))], lead.externalId) == Ok(false)
  {
    var line := Line(lib, headers, lead);
    var row := RowMap(headers, CellsOf(line));
    CarriesWritten(lib, headers, lead);
    OneMatch(rows, row, lead.externalId);
    WrittenLineMatches(lib, headers, lead, 0);
    ComparedOnly(headers, line, rows + [row], lead.externalId, |rows|);
  }

  lemma OneMatch(rows: seq<Row>, row: Row, id: string)
    requires !Unreadable(rows) && Matches(rows, id) == [] && CleansTo(Get(row, "external_id"), Some(id))
    ensures Matches(rows + [row], id) == [|rows|] && !Unreadable(rows + [row])
  {
    var again := rows + [row];
    assert again[|rows|] == row;
    MatchesPrefix(rows, row, id, |rows|);
    assert forall i | 0 <= i < |again| :: !Bad(again[i], "external_id");
  }

  lemma ComparedOnly(names: seq<string>, line: seq<string>, rows: seq<Row>, id: string, i: nat)
    requires |line| == |names| && i < |rows| && !Unreadable(rows) && Matches(rows, id) == [i]
    requires CompareFrom(names, line, rows[i], 0).Ok?
    ensures CheckIdentity(names, line, rows, id) == Ok(false)
  {
  }

  lemma {:induction false} MatchesPrefix(rows: seq<Row>, row: Row, id: string, n: nat)
    requires n <= |rows|
    ensures MatchesBelow(rows + [row], id, n) == MatchesBelow(rows, id, n)
  {
    if n > 0 {
      MatchesPrefix(rows, row, id, n - 1);
    }
  }
}
