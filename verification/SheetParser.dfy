/** Turning the Sheet's cells into leads and rejections
    (app/integrations/google_sheets/parser.py). */
module SheetParser {
  import opened Basics
  import opened Tables
  import opened Text

  type Row = map<string, Cell>

  const REQUIRED := {"external_id", "lead_date", "first_name", "phone"}

  /** Every known column, in a fixed order. */
  const FIELDS := ["external_id", "lead_date", "first_name", "phone", "last_name", "email",
    "municipality", "insurance_type", "source", "campaign", "language", "notes"]

  /** The two library validators the parser calls. */
  datatype Library = Library(
    parseDate: string -> Option<Date>,
    isoDate: Date -> string,
    parseEmail: string -> Option<string>)

  // --- values_to_rows --------------------------------------------------------

  function Headers(cells: seq<Cell>): seq<string> {
    seq(|cells|, i requires 0 <= i < |cells| => Lower(Strip(Str(cells[i]))))
  }

  predicate HeadersAccepted(headers: seq<string>) {
    && (forall a, b | 0 <= a < b < |headers| && headers[a] != "" :: headers[a] != headers[b])
    && (forall name | name in REQUIRED :: name in headers)
  }

  /** Cells beyond the last header must be blank; a null there counts as text. */
  predicate Overflows(row: seq<Cell>, width: nat) {
    exists i | width <= i < |row| :: Strip(Str(row[i])) != ""
  }

  function IndexOf(headers: seq<string>, name: string): nat
    requires name in headers
    ensures IndexOf(headers, name) < |headers| && headers[IndexOf(headers, name)] == name
  {
    if headers[0] == name then 0 else 1 + IndexOf(headers[1..], name)
  }

  function CellAt(row: seq<Cell>, i: nat): Cell {
    if i < |row| then row[i] else Empty
  }

  function RowMap(headers: seq<string>, row: seq<Cell>): Row {
    map name | name in headers && name != "" :: CellAt(row, IndexOf(headers, name))
  }

  function RowMaps(headers: seq<string>, lines: seq<seq<Cell>>): Result<seq<Row>, Error> {
    if lines == [] then Ok([])
    else
      var n := |lines| - 1;
      match RowMaps(headers, lines[..n])
      case Err(e) => Err(e)
      case Ok(rows) =>
        if Overflows(lines[n], |headers|) then Err(SheetSyncError) else Ok(rows + [RowMap(headers, lines[n])])
  }

  function ValuesToRows(values: seq<seq<Cell>>): Result<seq<Row>, Error> {
    if values == [] then Err(SheetSyncError)
    else if !HeadersAccepted(Headers(values[0])) then Err(SheetSyncError)
    else RowMaps(Headers(values[0]), values[1..])
  }

  method ReadValues(values: seq<seq<Cell>>) returns (result: Result<seq<Row>, Error>)
    ensures result == ValuesToRows(values)
  {
    if values == [] {
      return Err(SheetSyncError);
    }
    var headers := Headers(values[0]);
    if !HeadersAccepted(headers) {
      return Err(SheetSyncError);
    }
    result := ReadLines(headers, values[1..]);
  }

  /** The loop of `values_to_rows` over the lines below the header. */
  method ReadLines(headers: seq<string>, lines: seq<seq<Cell>>) returns (result: Result<seq<Row>, Error>)
    ensures result == RowMaps(headers, lines)
  {
    var rows: seq<Row> := [];
    var n := 0;
    while n < |lines|
      invariant n <= |lines|
      invariant RowMaps(headers, lines[..n]) == Ok(rows)
    {
      assert lines[..n + 1][..n] == lines[..n];
      if Overflows(lines[n], |headers|) {
        RowMapsStop(headers, lines, n + 1);
        return Err(SheetSyncError);
      }
      rows := rows + [RowMap(headers, lines[n])];
      n := n + 1;
    }
    assert lines[..n] == lines;
    return Ok(rows);
  }

  lemma {:induction false} RowMapsStop(headers: seq<string>, lines: seq<seq<Cell>>, n: nat)
    requires n <= |lines| && RowMaps(headers, lines[..n]).Err?
    ensures RowMaps(headers, lines) == RowMaps(headers, lines[..n])
    decreases |lines|
  {
    if n == |lines| {
      assert lines[..n] == lines;
    } else {
      assert lines[..|lines| - 1][..n] == lines[..n];
      RowMapsStop(headers, lines[..|lines| - 1], n);
    }
  }

  lemma {:induction false} RowMapsAt(headers: seq<string>, lines: seq<seq<Cell>>, i: nat)
    requires RowMaps(headers, lines).Ok? && i < |lines|
    ensures |RowMaps(headers, lines).value| == |lines|
    ensures RowMaps(headers, lines).value[i] == RowMap(headers, lines[i])
  {
    var n := |lines| - 1;
    if i < n {
      RowMapsAt(headers, lines[..n], i);
    } else if n > 0 {
      RowMapsAt(headers, lines[..n], 0);
    }
  }

  /** Header texts are stripped and lower-cased; a missing header cell counts as the text "None". */
  lemma HeadersExactly(cells: seq<Cell>)
    ensures |Headers(cells)| == |cells|
    ensures forall i | 0 <= i < |cells| ::
      Headers(cells)[i] == if cells[i].Empty? then Lower(Strip("None")) else Lower(Strip(cells[i].text))
  {
  }

  /** Cells beyond the header are refused unless they hold blanks; a missing cell there is not blank. */
  lemma OverflowsExactly(row: seq<Cell>, width: nat)
    ensures Overflows(row, width) <==> exists i | width <= i < |row| :: row[i].Empty? || !Blank(row[i].text)
  {
    assert Strip("None") == "None";
    forall i | width <= i < |row| && !row[i].Empty? ensures Strip(Str(row[i])) == "" <==> Blank(row[i].text) {
      StripNothing(row[i].text);
    }
  }

  lemma {:induction false} RowMapsFail(headers: seq<string>, lines: seq<seq<Cell>>)
    ensures RowMaps(headers, lines).Ok? <==> forall n | 0 <= n < |lines| :: !Overflows(lines[n], |headers|)
    ensures RowMaps(headers, lines).Err? ==> RowMaps(headers, lines).error == SheetSyncError
  {
    if lines != [] {
      var n := |lines| - 1;
      RowMapsFail(headers, lines[..n]);
      assert forall k | 0 <= k < n :: lines[..n][k] == lines[k];
    }
  }

  /** A Sheet is read exactly when it has a header line, whose nonblank names are distinct and include the four
      required ones, and no line goes beyond it; each line then becomes one row, blank ones too. */
  lemma ReadExactly(values: seq<seq<Cell>>)
    ensures ValuesToRows(values).Ok? <==>
      && values != []
      && var headers := Headers(values[0]);
      && (forall a, b | 0 <= a < b < |headers| && headers[a] != "" :: headers[a] != headers[b])
      && "external_id" in headers && "lead_date" in headers && "first_name" in headers && "phone" in headers
      && forall n | 1 <= n < |values| :: !Overflows(values[n], |headers|)
    ensures ValuesToRows(values).Err? ==> ValuesToRows(values).error == SheetSyncError
    ensures ValuesToRows(values).Ok? ==>
      && |ValuesToRows(values).value| == |values| - 1
      && forall n | 1 <= n < |values| :: ValuesToRows(values).value[n - 1] == RowMap(Headers(values[0]), values[n])
  {
    if values != [] {
      RequiredExactly(Headers(values[0]));
      RowMapsFail(Headers(values[0]), values[1..]);
      assert forall n | 1 <= n < |values| :: values[n] == values[1..][n - 1];
      if ValuesToRows(values).Ok? {
        ReadRows(Headers(values[0]), values);
      }
    }
  }

  lemma ReadRows(headers: seq<string>, values: seq<seq<Cell>>)
    requires values != [] && RowMaps(headers, values[1..]).Ok?
    ensures var rows := RowMaps(headers, values[1..]).value;
      && |rows| == |values| - 1
      && forall n | 1 <= n < |values| :: rows[n - 1] == RowMap(headers, values[n])
  {
    RowMapsLength(headers, values[1..]);
    var rows := RowMaps(headers, values[1..]).value;
    forall n | 1 <= n < |values| ensures rows[n - 1] == RowMap(headers, values[n]) {
      RowMapsAt(headers, values[1..], n - 1);
    }
  }

  lemma RequiredExactly(headers: seq<string>)
    ensures (forall name | name in REQUIRED :: name in headers) <==>
      "external_id" in headers && "lead_date" in headers && "first_name" in headers && "phone" in headers
  {
    assert "external_id" in REQUIRED && "lead_date" in REQUIRED && "first_name" in REQUIRED && "phone" in REQUIRED;
  }

  lemma {:induction false} RowMapsLength(headers: seq<string>, lines: seq<seq<Cell>>)
    ensures RowMaps(headers, lines).Ok? ==> |RowMaps(headers, lines).value| == |lines|
  {
    if lines != [] {
      RowMapsLength(headers, lines[..|lines| - 1]);
    }
  }

  /** A row has the cell below each nonblank header, or none where the line is too short, and nothing else. */
  lemma RowMapExactly(headers: seq<string>, line: seq<Cell>)
    requires forall a, b | 0 <= a < b < |headers| && headers[a] != "" :: headers[a] != headers[b]
    ensures forall i | 0 <= i < |headers| && headers[i] != "" ::
      headers[i] in RowMap(headers, line)
      && RowMap(headers, line)[headers[i]] == if i < |line| then line[i] else Empty
    ensures forall name | name in RowMap(headers, line) :: name in headers && name != ""
  {
    forall i | 0 <= i < |headers| && headers[i] != "" ensures IndexOf(headers, headers[i]) == i {
      assert headers[IndexOf(headers, headers[i])] == headers[i];
    }
  }

  // --- One row ---------------------------------------------------------------

  function Get(row: Row, name: string): Cell {
    if name in row then row[name] else Empty
  }

  predicate BlankRow(row: Row) {
    forall name | name in row :: BlankCell(row[name])
  }

  predicate Bad(row: Row, name: string) {
    CleanCell(Get(row, name)).Err?
  }

  function Cleaned(row: Row, name: string): Option<string> {
    match CleanCell(Get(row, name))
    case Ok(text) => text
    case Err(_) => None
  }

  function Or(text: Option<string>, default: string): string {
    if Truthy(text) then text.value else default
  }

  function EmailOf(lib: Library, row: Row): Option<string> {
    var email := Cleaned(row, "email");
    if !Truthy(email) then email
    else
      match lib.parseEmail(email.value)
      case None => None
      case Some(valid) => Some(Strip(valid))
  }

  function DateOf(lib: Library, row: Row): Option<Date> {
    lib.parseDate(Or(Cleaned(row, "lead_date"), ""))
  }

  /** The required fields of a row that cannot be used. */
  function Invalid(lib: Library, row: Row): set<string> {
    (set name | name in REQUIRED && Bad(row, name))
    + (if DateOf(lib, row).None? then {"lead_date"} else {})
    + (set name | name in REQUIRED && name != "lead_date" && Cleaned(row, name).None?)
  }

  function RecordOf(lib: Library, row: Row): (record: Record)
    requires Invalid(lib, row) == {}
    ensures Cleaned(row, "external_id") == Some(record.externalId)
  {
    assert DateOf(lib, row).None? ==> "lead_date" in Invalid(lib, row);
    assert forall name | name in REQUIRED && name != "lead_date" && Cleaned(row, name).None? ::
      name in Invalid(lib, row);
    Record(
      Cleaned(row, "external_id").value,
      DateOf(lib, row).value,
      Cleaned(row, "first_name").value,
      Cleaned(row, "phone").value,
      Cleaned(row, "last_name"),
      EmailOf(lib, row),
      Cleaned(row, "municipality"),
      Or(Cleaned(row, "insurance_type"), LIFE_INSURANCE),
      Cleaned(row, "source"),
      Cleaned(row, "campaign"),
      Cleaned(row, "language"),
      Cleaned(row, "notes"))
  }

  datatype ParseResult = ParseResult(leads: seq<Record>, rejected: seq<Rejection>, warnings: seq<Warning>)

  function CellWarnings(row: Row, number: nat, names: seq<string>): seq<Warning> {
    if names == [] then []
    else
      var last := names[|names| - 1];
      CellWarnings(row, number, names[..|names| - 1])
      + if last !in REQUIRED && Bad(row, last) then [Warning(number, last)] else []
  }

  function RowWarnings(lib: Library, row: Row, number: nat): seq<Warning> {
    CellWarnings(row, number, FIELDS)
    + if Truthy(Cleaned(row, "email")) && lib.parseEmail(Cleaned(row, "email").value).None?
      then [Warning(number, "email")] else []
  }

  /** A row is skipped exactly when every cell of it is missing or blank. */
  lemma BlankRowExactly(row: Row)
    ensures BlankRow(row) <==> forall name | name in row :: row[name].Empty? || Blank(row[name].text)
  {
    forall name | name in row ensures BlankCell(row[name]) <==> row[name].Empty? || Blank(row[name].text) {
      BlankCellExactly(row[name]);
    }
  }

  lemma CleanedIsTruthy(row: Row, name: string)
    ensures Cleaned(row, name).Some? ==> Truthy(Cleaned(row, name))
  {
  }

  /** The text of a column: what is left of its stripped cell, or nothing for a missing, blank or unusable one. */
  lemma CleanedExactly(row: Row, name: string)
    ensures Cleaned(row, name)
      == if name !in row || row[name].Empty? || row[name].Other? || Strip(row[name].text) == "" then None
         else Some(Strip(row[name].text))
  {
  }

  /** A row is rejected for a required text that is missing or unusable, and for a date that is unusable or that the
      library does not read. */
  lemma InvalidExactly(lib: Library, row: Row)
    ensures forall name :: name in Invalid(lib, row) <==>
      || (name == "external_id" && Cleaned(row, "external_id").None?)
      || (name == "first_name" && Cleaned(row, "first_name").None?)
      || (name == "phone" && Cleaned(row, "phone").None?)
      || (name == "lead_date"
          && (("lead_date" in row && row["lead_date"].Other?)
              || lib.parseDate(if Cleaned(row, "lead_date").Some? then Cleaned(row, "lead_date").value else "").None?))
  {
    CleanedIsTruthy(row, "lead_date");
    var listed := Invalid(lib, row);
    forall name ensures name in REQUIRED <==>
      name == "external_id" || name == "lead_date" || name == "first_name" || name == "phone"
    {
    }
    forall name ensures Bad(row, name) <==> name in row && row[name].Other? {
    }
  }

  /** Each field of an accepted row comes from its own column. A missing type is life insurance; an email is the
      library's answer, stripped, and none when the library refuses it. */
  lemma FieldsByColumn(lib: Library, row: Row)
    requires Invalid(lib, row) == {}
    ensures var lead, date := RecordOf(lib, row), Cleaned(row, "lead_date");
      && Some(lead.externalId) == Cleaned(row, "external_id")
      && Some(lead.leadDate) == lib.parseDate(if date.Some? then date.value else "")
      && Some(lead.firstName) == Cleaned(row, "first_name")
      && Some(lead.phone) == Cleaned(row, "phone")
      && lead.lastName == Cleaned(row, "last_name")
      && lead.municipality == Cleaned(row, "municipality")
      && lead.insuranceType == (if Cleaned(row, "insurance_type").Some? then Cleaned(row, "insurance_type").value
                                else "Life Insurance")
      && lead.source == Cleaned(row, "source")
      && lead.campaign == Cleaned(row, "campaign")
      && lead.language == Cleaned(row, "language")
      && lead.notes == Cleaned(row, "notes")
    ensures var given, email := Cleaned(row, "email"), RecordOf(lib, row).email;
      if given.None? || lib.parseEmail(given.value).None? then email.None?
      else email == Some(Strip(lib.parseEmail(given.value).value))
  {
    InvalidExactly(lib, row);
    CleanedIsTruthy(row, "lead_date");
    CleanedIsTruthy(row, "insurance_type");
    CleanedIsTruthy(row, "email");
    assert "external_id" !in Invalid(lib, row) && "first_name" !in Invalid(lib, row);
    assert "phone" !in Invalid(lib, row) && "lead_date" !in Invalid(lib, row);
  }

  /** The columns that may be left out. */
  predicate OptionalColumn(name: string) {
    || name == "last_name" || name == "email" || name == "municipality" || name == "insurance_type"
    || name == "source" || name == "campaign" || name == "language" || name == "notes"
  }

  lemma {:induction false} CellWarningsExact(row: Row, number: nat, names: seq<string>)
    ensures forall w :: w in CellWarnings(row, number, names) <==>
      w.row == number && w.field in names && w.field !in REQUIRED && Bad(row, w.field)
    ensures NoDup(names) ==> NoDup(CellWarnings(row, number, names))
  {
    if names != [] {
      var n := |names| - 1;
      CellWarningsExact(row, number, names[..n]);
      assert names == names[..n] + [names[n]];
      assert NoDup(names) ==> names[n] !in names[..n];
    }
  }

  lemma OptionalFields()
    ensures forall name :: name in FIELDS && name !in REQUIRED <==> OptionalColumn(name)
    ensures NoDup(FIELDS)
  {
    assert FIELDS[0] == "external_id" && FIELDS[1] == "lead_date" && FIELDS[2] == "first_name" && FIELDS[3] == "phone";
    assert FIELDS[4] == "last_name" && FIELDS[5] == "email" && FIELDS[6] == "municipality";
    assert FIELDS[7] == "insurance_type" && FIELDS[8] == "source" && FIELDS[9] == "campaign";
    assert FIELDS[10] == "language" && FIELDS[11] == "notes";
  }

  /** A row is warned about, once each, for an optional cell that is unusable and for an email that the library
      refuses. */
  lemma RowWarningsExactly(lib: Library, row: Row, number: nat)
    ensures NoDup(RowWarnings(lib, row, number))
    ensures forall w :: w in RowWarnings(lib, row, number) <==>
      && w.row == number
      && ((OptionalColumn(w.field) && w.field in row && row[w.field].Other?)
          || (w.field == "email" && Cleaned(row, "email").Some? && lib.parseEmail(Cleaned(row, "email").value).None?))
  {
    OptionalFields();
    CellWarningsExact(row, number, FIELDS);
    CleanedIsTruthy(row, "email");
  }

  // --- parse_rows --------------------------------------------------------------

  datatype Progress = Progress(result: ParseResult, seen: set<string>)

  /** One round of the loop for the row at position `i`; its physical number is `i + 2`. */
  function ParseRow(lib: Library, p: Progress, row: Row, i: nat): Result<Progress, Error> {
    if BlankRow(row) then Ok(p)
    else
      var id := Cleaned(row, "external_id");
      if Truthy(id) && id.value in p.seen then Err(SheetSyncError)
      else
        var seen := if Truthy(id) then p.seen + {id.value} else p.seen;
        var warnings := p.result.warnings + RowWarnings(lib, row, i + 2);
        var invalid := Invalid(lib, row);
        if invalid != {} then
          Ok(Progress(ParseResult(p.result.leads, p.result.rejected + [Rejection(i + 2, invalid)], warnings), seen))
        else
          Ok(Progress(ParseResult(p.result.leads + [RecordOf(lib, row)], p.result.rejected, warnings), seen))
  }

  function ParsePrefix(lib: Library, rows: seq<Row>, n: nat): Result<Progress, Error>
    requires n <= |rows|
  {
    if n == 0 then Ok(Progress(ParseResult([], [], []), {}))
    else
      match ParsePrefix(lib, rows, n - 1)
      case Err(e) => Err(e)
      case Ok(p) => ParseRow(lib, p, rows[n - 1], n - 1)
  }

  function ParseRows(lib: Library, rows: seq<Row>): Result<ParseResult, Error> {
    match ParsePrefix(lib, rows, |rows|)
    case Err(e) => Err(e)
    case Ok(p) => Ok(p.result)
  }

  lemma NextPrefix(lib: Library, rows: seq<Row>, i: nat, p: Progress)
    requires i < |rows| && ParsePrefix(lib, rows, i) == Ok(p)
    ensures ParsePrefix(lib, rows, i + 1) == ParseRow(lib, p, rows[i], i)
  {
  }

  /** The loop of `parse_rows`, with its accumulators. */
  method Parse(lib: Library, rows: seq<Row>) returns (result: Result<ParseResult, Error>)
    ensures result == ParseRows(lib, rows)
  {
    var leads: seq<Record>, rejected: seq<Rejection>, warnings: seq<Warning> := [], [], [];
    var seen: set<string> := {};
    var i := 0;
    while i < |rows|
      invariant i <= |rows|
      invariant ParsePrefix(lib, rows, i) == Ok(Progress(ParseResult(leads, rejected, warnings), seen))
    {
      var row, number := rows[i], i + 2;
      NextPrefix(lib, rows, i, Progress(ParseResult(leads, rejected, warnings), seen));
      if !BlankRow(row) {
        var unusable, cellWarnings := CleanRow(row, number);
        var id := Cleaned(row, "external_id");
        if Truthy(id) {
          if id.value in seen {
            ParseStops(lib, rows, i + 1);
            return Err(SheetSyncError);
          }
          seen := seen + {id.value};
        }
        var invalid, rowWarnings := CheckRow(lib, row, number, unusable, cellWarnings);
        warnings := warnings + rowWarnings;
        if invalid != {} {
          rejected := rejected + [Rejection(number, invalid)];
        } else {
          leads := leads + [RecordOf(lib, row)];
        }
      }
      i := i + 1;
    }
    return Ok(ParseResult(leads, rejected, warnings));
  }

  function UnusableAmong(row: Row, names: seq<string>): set<string> {
    set name | name in names && name in REQUIRED && Bad(row, name)
  }

  lemma UnusableNext(row: Row, names: seq<string>, k: nat)
    requires k < |names|
    ensures UnusableAmong(row, names[..k + 1])
      == UnusableAmong(row, names[..k]) + if names[k] in REQUIRED && Bad(row, names[k]) then {names[k]} else {}
  {
    assert names[..k + 1] == names[..k] + [names[k]];
  }

  lemma UnusableFields(row: Row)
    ensures UnusableAmong(row, FIELDS) == set name | name in REQUIRED && Bad(row, name)
  {
    assert FIELDS[0] == "external_id" && FIELDS[1] == "lead_date" && FIELDS[2] == "first_name" && FIELDS[3] == "phone";
  }

  /** The cell-by-cell pass over one row: unusable required fields and optional warnings. */
  method CleanRow(row: Row, number: nat) returns (invalid: set<string>, warnings: seq<Warning>)
    ensures invalid == set name | name in REQUIRED && Bad(row, name)
    ensures warnings == CellWarnings(row, number, FIELDS)
  {
    var names := FIELDS;
    invalid, warnings := {}, [];
    var k := 0;
    while k < |names|
      invariant k <= |names|
      invariant invalid == UnusableAmong(row, names[..k])
      invariant warnings == CellWarnings(row, number, names[..k])
    {
      var name := names[k];
      assert names[..k + 1][..k] == names[..k];
      UnusableNext(row, names, k);
      if CleanCell(Get(row, name)).Err? {
        if name in REQUIRED {
          invalid := invalid + {name};
        } else {
          warnings := warnings + [Warning(number, name)];
        }
      }
      k := k + 1;
    }
    assert names[..k] == names;
    UnusableFields(row);
  }

  /** The checks after the identity check: email, date and the other required fields. */
  method CheckRow(lib: Library, row: Row, number: nat, unusable: set<string>, cellWarnings: seq<Warning>)
    returns (invalid: set<string>, warnings: seq<Warning>)
    requires unusable == set name | name in REQUIRED && Bad(row, name)
    requires cellWarnings == CellWarnings(row, number, FIELDS)
    ensures invalid == Invalid(lib, row)
    ensures warnings == RowWarnings(lib, row, number)
  {
    invalid, warnings := unusable, cellWarnings;
    if Truthy(Cleaned(row, "email")) && lib.parseEmail(Cleaned(row, "email").value).None? {
      warnings := warnings + [Warning(number, "email")];
    }
    if DateOf(lib, row).None? {
      invalid := invalid + {"lead_date"};
    }
    invalid := invalid + (set name | name in REQUIRED && name != "lead_date" && Cleaned(row, name).None?);
  }

  lemma {:induction false} ParseStops(lib: Library, rows: seq<Row>, n: nat)
    requires n <= |rows| && ParsePrefix(lib, rows, n).Err?
    ensures ParseRows(lib, rows) == Err(ParsePrefix(lib, rows, n).error)
    decreases |rows| - n
  {
    if n < |rows| {
      ParseStops(lib, rows, n + 1);
    }
  }

  // --- What the parser guarantees ----------------------------------------------

  datatype Kind = Skipped | Accepted | Rejected

  function KindOf(lib: Library, row: Row): Kind {
    if BlankRow(row) then Skipped else if Invalid(lib, row) == {} then Accepted else Rejected
  }

  function Kinds(lib: Library, rows: seq<Row>): seq<Kind> {
    seq(|rows|, i requires 0 <= i < |rows| => KindOf(lib, rows[i]))
  }

  /** The positions among the first `n` rows that are of this kind, in order. */
  function PositionsOf(lib: Library, rows: seq<Row>, kind: Kind, n: nat): seq<nat>
    requires n <= |rows|
  {
    Positions(Kinds(lib, rows), kind, n)
  }

  /** The accumulated leads and rejections are read off the rows at those positions. */
  ghost predicate ReadsOff(lib: Library, rows: seq<Row>, n: nat, result: ParseResult)
    requires n <= |rows|
  {
    var accepted, rejected := PositionsOf(lib, rows, Accepted, n), PositionsOf(lib, rows, Rejected, n);
    && |result.leads| == |accepted|
    && (forall k | 0 <= k < |accepted| :: accepted[k] < n && Invalid(lib, rows[accepted[k]]) == {}
          && result.leads[k] == RecordOf(lib, rows[accepted[k]]))
    && |result.rejected| == |rejected|
    && (forall k | 0 <= k < |rejected| :: rejected[k] < n && Invalid(lib, rows[rejected[k]]) != {}
          && result.rejected[k] == Rejection(rejected[k] + 2, Invalid(lib, rows[rejected[k]])))
  }

  lemma {:induction false} ParsePrefixExact(lib: Library, rows: seq<Row>, n: nat)
    requires n <= |rows| && ParsePrefix(lib, rows, n).Ok?
    ensures ReadsOff(lib, rows, n, ParsePrefix(lib, rows, n).value.result)
  {
    if n > 0 {
      ParsePrefixExact(lib, rows, n - 1);
    }
  }

  ghost predicate HasId(rows: seq<Row>, i: nat, id: string) {
    i < |rows| && !BlankRow(rows[i]) && Cleaned(rows[i], "external_id") == Some(id)
  }

  /** No two nonblank rows among the first `n` have the same cleaned id. */
  ghost predicate IdsApart(rows: seq<Row>, n: nat) {
    forall i, j, id | 0 <= i < j < n && HasId(rows, i, id) :: !HasId(rows, j, id)
  }

  function RowId(row: Row): Option<string> {
    if BlankRow(row) then None else Cleaned(row, "external_id")
  }

  function RowIds(rows: seq<Row>): seq<Option<string>> {
    seq(|rows|, i requires 0 <= i < |rows| => RowId(rows[i]))
  }

  /** The values present in a list, or nothing once one comes up again. */
  function Collect(ids: seq<Option<string>>): Option<set<string>> {
    if ids == [] then Some({})
    else
      var n := |ids| - 1;
      match Collect(ids[..n])
      case None => None
      case Some(seen) =>
        if ids[n].None? then Some(seen)
        else if ids[n].value in seen then None
        else Some(seen + {ids[n].value})
  }

  ghost predicate Apart(ids: seq<Option<string>>) {
    forall i, j | 0 <= i < j < |ids| && ids[i].Some? :: ids[i] != ids[j]
  }

  lemma {:induction false} CollectExact(ids: seq<Option<string>>)
    ensures Collect(ids).Some? <==> Apart(ids)
    ensures Collect(ids).Some? ==> forall id :: id in Collect(ids).value <==> Some(id) in ids
  {
    if ids != [] {
      var n := |ids| - 1;
      CollectExact(ids[..n]);
      assert ids == ids[..n] + [ids[n]];
      if Apart(ids[..n]) && !Apart(ids) {
        var i :| 0 <= i < n && ids[i].Some? && ids[i] == ids[n];
        assert ids[..n][i] == ids[n];
      }
    }
  }

  /** The ids seen in the first `n` rows, or nothing once one comes up again. */
  function IdsSeen(rows: seq<Row>, n: nat): Option<set<string>>
    requires n <= |rows|
  {
    Collect(RowIds(rows)[..n])
  }

  lemma IdsSeenExact(rows: seq<Row>, n: nat)
    requires n <= |rows|
    ensures IdsSeen(rows, n).Some? <==> IdsApart(rows, n)
    ensures IdsSeen(rows, n).Some? ==>
      forall id :: id in IdsSeen(rows, n).value <==> exists i | 0 <= i < n :: HasId(rows, i, id)
  {
    var ids := RowIds(rows)[..n];
    CollectExact(ids);
    forall i, id | 0 <= i < n ensures HasId(rows, i, id) <==> ids[i] == Some(id) {
    }
    ApartRows(rows, n, ids);
    forall id ensures Some(id) in ids <==> exists i | 0 <= i < n :: HasId(rows, i, id) {
      IdInRows(rows, n, ids, id);
    }
  }

  /** The same question asked of the rows and of the list of their ids. */
  lemma ApartRows(rows: seq<Row>, n: nat, ids: seq<Option<string>>)
    requires n <= |rows| && |ids| == n
    requires forall i, id | 0 <= i < n :: HasId(rows, i, id) <==> ids[i] == Some(id)
    ensures IdsApart(rows, n) <==> Apart(ids)
  {
    if IdsApart(rows, n) {
      forall i, j | 0 <= i < j < |ids| && ids[i].Some? ensures ids[i] != ids[j] {
        assert HasId(rows, i, ids[i].value);
      }
    } else {
      var i, j, id :| 0 <= i < j < n && HasId(rows, i, id) && HasId(rows, j, id);
      assert ids[i] == Some(id) == ids[j];
    }
  }

  lemma IdInRows(rows: seq<Row>, n: nat, ids: seq<Option<string>>, id: string)
    requires n <= |rows| && |ids| == n
    requires forall i | 0 <= i < n :: HasId(rows, i, id) <==> ids[i] == Some(id)
    ensures Some(id) in ids <==> exists i | 0 <= i < n :: HasId(rows, i, id)
  {
  }

  lemma {:induction false} ParsePrefixSeen(lib: Library, rows: seq<Row>, n: nat)
    requires n <= |rows|
    ensures match ParsePrefix(lib, rows, n)
      case Err(e) => e == SheetSyncError && IdsSeen(rows, n).None?
      case Ok(p) => IdsSeen(rows, n) == Some(p.seen)
  {
    if n > 0 {
      ParsePrefixSeen(lib, rows, n - 1);
      CleanedIsTruthy(rows[n - 1], "external_id");
      assert RowIds(rows)[..n][..n - 1] == RowIds(rows)[..n - 1];
    }
  }

  /** Parsing aborts exactly when two nonblank rows share a cleaned id. */
  lemma ParseAbortsOnSharedId(lib: Library, rows: seq<Row>)
    ensures ParseRows(lib, rows).Err? <==>
      exists i, j, id | 0 <= i < j < |rows| :: HasId(rows, i, id) && HasId(rows, j, id)
  {
    ParsePrefixSeen(lib, rows, |rows|);
    IdsSeenExact(rows, |rows|);
  }

  ghost predicate DistinctIds(records: seq<Record>) {
    forall a, b | 0 <= a < b < |records| :: records[a].externalId != records[b].externalId
  }

  /** A finished parse splits the nonblank rows, in order and with their physical numbers, into leads
      built from their own row and rejections; no two leads share an id. */
  lemma ParseSplitsRows(lib: Library, rows: seq<Row>)
    requires ParseRows(lib, rows).Ok?
    ensures var accepted := PositionsOf(lib, rows, Accepted, |rows|);
      var rejected := PositionsOf(lib, rows, Rejected, |rows|);
      && Increasing(accepted) && Increasing(rejected)
      && (forall i: nat | i < |rows| :: if BlankRow(rows[i]) then i !in accepted && i !in rejected
            else (i in accepted) != (i in rejected))
    ensures ReadsOff(lib, rows, |rows|, ParseRows(lib, rows).value)
    ensures DistinctIds(ParseRows(lib, rows).value.leads)
  {
    PositionsExact(Kinds(lib, rows), Accepted, |rows|);
    PositionsExact(Kinds(lib, rows), Rejected, |rows|);
    ParsePrefixExact(lib, rows, |rows|);
    ParsedIdsApart(lib, rows);
  }

  lemma ParsedIdsApart(lib: Library, rows: seq<Row>)
    requires ParseRows(lib, rows).Ok?
    ensures DistinctIds(ParseRows(lib, rows).value.leads)
  {
    ParsePrefixSeen(lib, rows, |rows|);
    IdsSeenExact(rows, |rows|);
    ParsePrefixExact(lib, rows, |rows|);
    PositionsExact(Kinds(lib, rows), Accepted, |rows|);
    var leads := ParseRows(lib, rows).value.leads;
    var at := PositionsOf(lib, rows, Accepted, |rows|);
    forall a, b | 0 <= a < b < |leads| ensures leads[a].externalId != leads[b].externalId {
      assert at[a] in at && at[b] in at;
      assert HasId(rows, at[a], leads[a].externalId);
      assert !HasId(rows, at[b], leads[a].externalId);
    }
  }

  /** The warnings of a finished parse are those of its nonblank rows, once each, under their physical numbers. */
  lemma {:induction false} ParseWarnings(lib: Library, rows: seq<Row>, n: nat)
    requires n <= |rows| && ParsePrefix(lib, rows, n).Ok?
    ensures var warnings := ParsePrefix(lib, rows, n).value.result.warnings;
      && NoDup(warnings)
      && forall w :: w in warnings <==>
           w.row >= 2 && w.row - 2 < n && !BlankRow(rows[w.row - 2]) && w in RowWarnings(lib, rows[w.row - 2], w.row)
  {
    if n > 0 {
      ParseWarnings(lib, rows, n - 1);
      NextPrefix(lib, rows, n - 1, ParsePrefix(lib, rows, n - 1).value);
      RowAddsWarnings(lib, ParsePrefix(lib, rows, n - 1).value, rows[n - 1], n - 1);
      RowWarningsExactly(lib, rows[n - 1], n + 1);
      if !BlankRow(rows[n - 1]) {
        NoDupConcat(ParsePrefix(lib, rows, n - 1).value.result.warnings, RowWarnings(lib, rows[n - 1], n + 1));
      }
    }
  }

  lemma RowAddsWarnings(lib: Library, p: Progress, row: Row, i: nat)
    requires ParseRow(lib, p, row, i).Ok?
    ensures ParseRow(lib, p, row, i).value.result.warnings
      == p.result.warnings + if BlankRow(row) then [] else RowWarnings(lib, row, i + 2)
  {
  }

  lemma NoDupConcat<T>(a: seq<T>, b: seq<T>)
    requires NoDup(a) && NoDup(b) && forall x | x in a :: x !in b
    ensures NoDup(a + b)
  {
    assert forall i | 0 <= i < |a| :: a[i] in a;
    assert forall i | 0 <= i < |b| :: b[i] in b;
  }
}
