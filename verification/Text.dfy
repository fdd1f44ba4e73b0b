/** The string operations the Sheet code relies on: `strip`, `lower`, and the
    reading of one cell (`clean_cell` in app/integrations/google_sheets/parser.py). */
module Text {
  import opened Basics

  /** The characters Python's `str.strip` removes. */
  predicate IsSpace(c: char) {
    || '\t' <= c <= '\r' || '\U{1C}' <= c <= ' ' || c == '\U{85}' || c == '\U{A0}' || c == '\U{1680}'
    || '\U{2000}' <= c <= '\U{200A}' || c == '\U{2028}' || c == '\U{2029}' || c == '\U{202F}'
    || c == '\U{205F}' || c == '\U{3000}'
  }

  function LeftStrip(s: string): string {
    if s != "" && IsSpace(s[0]) then LeftStrip(s[1..]) else s
  }

  function RightStrip(s: string): string {
    if s != "" && IsSpace(s[|s| - 1]) then RightStrip(s[..|s| - 1]) else s
  }

  function Strip(s: string): string {
    RightStrip(LeftStrip(s))
  }

  predicate Stripped(s: string) {
    s == "" || (!IsSpace(s[0]) && !IsSpace(s[|s| - 1]))
  }

  lemma StripStripped(s: string)
    requires Stripped(s)
    ensures Strip(s) == s
  {
  }

  /** The same characters by their code points. */
  lemma IsSpaceExactly(c: char)
    ensures var code := c as int;
      IsSpace(c) <==>
        || 9 <= code <= 13 || 28 <= code <= 32 || code == 133 || code == 160 || code == 5760 || 8192 <= code <= 8202
        || code == 8232 || code == 8233 || code == 8239 || code == 8287 || code == 12288
  {
  }

  predicate Blank(s: string) {
    forall i | 0 <= i < |s| :: IsSpace(s[i])
  }

  lemma {:induction false} LeftStripExact(s: string) returns (left: string)
    ensures s == left + LeftStrip(s) && Blank(left)
    ensures LeftStrip(s) == "" || !IsSpace(LeftStrip(s)[0])
  {
    if s != "" && IsSpace(s[0]) {
      left := LeftStripExact(s[1..]);
      left := [s[0]] + left;
      assert s == [s[0]] + s[1..];
    } else {
      left := "";
    }
  }

  lemma {:induction false} RightStripExact(s: string)
    ensures RightStrip(s) <= s && Blank(s[|RightStrip(s)|..])
    ensures RightStrip(s) == "" || !IsSpace(RightStrip(s)[|RightStrip(s)| - 1])
  {
    if s != "" && IsSpace(s[|s| - 1]) {
      var n := |s| - 1;
      RightStripExact(s[..n]);
      assert s[|RightStrip(s)|..] == s[..n][|RightStrip(s)|..] + [s[n]];
    }
  }

  /** Stripping takes away blanks at both ends, and all of them. */
  lemma StripExact(s: string) returns (left: string, right: string)
    ensures s == left + Strip(s) + right && Blank(left) && Blank(right)
    ensures Strip(s) == "" || (!IsSpace(Strip(s)[0]) && !IsSpace(Strip(s)[|Strip(s)| - 1]))
  {
    left := LeftStripExact(s);
    var rest := LeftStrip(s);
    RightStripExact(rest);
    right := rest[|RightStrip(rest)|..];
    SplitAround(left, rest, RightStrip(rest));
  }

  lemma SplitAround(left: string, rest: string, core: string)
    requires core <= rest && (rest == "" || !IsSpace(rest[0]))
    ensures left + rest == left + core + rest[|core|..]
    ensures core == "" || !IsSpace(core[0])
  {
    assert rest == core + rest[|core|..];
  }

  /** Nothing is left exactly of a blank text. */
  lemma StripNothing(s: string)
    ensures Strip(s) == "" <==> Blank(s)
  {
    var left, right := StripExact(s);
    assert Strip(s) != "" ==> s[|left|] == Strip(s)[0];
    if Strip(s) == "" {
      assert s == left + right;
    }
  }

  /** Lower case of the letters A to Z; every other character is left alone. */
  function Lower(s: string): string {
    seq(|s|, i requires 0 <= i < |s| => if 'A' <= s[i] <= 'Z' then s[i] - 'A' + 'a' else s[i])
  }

  lemma LowerExact(s: string)
    ensures |Lower(s)| == |s|
    ensures forall i | 0 <= i < |s| ::
      Lower(s)[i] as int == if 65 <= s[i] as int <= 90 then s[i] as int + 32 else s[i] as int
  {
  }

  /** A cell as the Sheets API returns it. `Number` carries the number's text; `Other` is a
      boolean or a nested value, with the text `str` gives it. */
  datatype Cell = Empty | Words(text: string) | Number(text: string) | Other(text: string)

  function Str(cell: Cell): string {
    match cell
    case Empty => "None"
    case Words(text) => text
    case Number(text) => text
    case Other(text) => text
  }

  function NonEmpty(s: string): Option<string> {
    if s == "" then None else Some(s)
  }

  /** `clean_cell`: the stripped text, `None` when nothing is left, an error for a non-scalar. */
  function CleanCell(cell: Cell): Result<Option<string>, ()> {
    match cell
    case Empty => Ok(None)
    case Other(_) => Err(())
    case Words(text) => Ok(NonEmpty(Strip(text)))
    case Number(text) => Ok(NonEmpty(Strip(text)))
  }

  /** A text or a number is read as its stripped text, an empty one or no cell as nothing, and any other value is
      refused. */
  lemma CleanCellExactly(cell: Cell)
    ensures CleanCell(cell).Err? <==> cell.Other?
    ensures cell.Empty? ==> CleanCell(cell) == Ok(None)
    ensures cell.Words? || cell.Number? ==>
      CleanCell(cell) == Ok(if Strip(cell.text) == "" then None else Some(Strip(cell.text)))
  {
  }

  /** A cell is blank when it is missing or holds blanks, whatever its kind. */
  lemma BlankCellExactly(cell: Cell)
    ensures BlankCell(cell) <==> cell.Empty? || Blank(cell.text)
  {
    if !cell.Empty? {
      StripNothing(cell.text);
    }
  }

  predicate BlankCell(cell: Cell) {
    cell == Empty || Strip(Str(cell)) == ""
  }
}
