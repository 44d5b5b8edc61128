/** The CSV export of the customer list, and the format it is read by: section 2 of RFC 4180. */
module CsvExport {
  import opened Schema

  /** What the export selects of a customer; times are already in ISO form. */
  datatype CustomerRow = CustomerRow(
    id: string, firstName: Option<string>, lastName: Option<string>, phone: Option<string>, email: Option<string>,
    gender: Option<string>, status: string, phoneVerified: bool, emailVerified: bool, shopifyCustomerId: Option<string>,
    lastLoginAt: Option<string>, createdAt: string)

  // ---------------------------------------------------------------- writing

  const HEADER: seq<string> := [
    "id", "first_name", "last_name", "phone", "email", "gender", "status", "phone_verified", "email_verified",
    "shopify_customer_id", "last_login_at", "created_at"]

  const CSV_NEWLINE := "\r\n"

  function BoolText(b: bool): string { if b then "true" else "false" }

  function Cells(r: CustomerRow): seq<Option<string>> {
    [Some(r.id), r.firstName, r.lastName, r.phone, r.email, r.gender, Some(r.status), Some(BoolText(r.phoneVerified)),
     Some(BoolText(r.emailVerified)), r.shopifyCustomerId,
       Some(if r.lastLoginAt.Some? then r.lastLoginAt.value else ""), Some(r.createdAt)]
  }

  function Doubled(text: string): string {
    if text == "" then "" else (if text[0] == '"' then "\"\"" else [text[0]]) + Doubled(text[1..])
  }

  /** Absent values are empty, all others quoted with their quotes doubled. */
  function CsvCell(value: Option<string>): string {
    match value case None => "" case Some(text) => "\"" + Doubled(text) + "\""
  }

  function Line(cells: seq<Option<string>>): string {
    Join(seq(|cells|, i requires 0 <= i < |cells| => CsvCell(cells[i])), ",")
  }

  function ExportCsv(rows: seq<CustomerRow>): string {
    Join([Join(HEADER, ",")] + seq(|rows|, i requires 0 <= i < |rows| => Line(Cells(rows[i]))), CSV_NEWLINE)
  }

  // ---------------------------------------------------------------- reading

  /** Where a reader stands: before a field, inside a bare or a quoted one, or behind a quote in a quoted one. */
  datatype Mode = Start | Bare | Quoted | Closed

  /**
   * A reader of section 2 of RFC 4180: records separated by CRLF, which may also end the last one; fields separated by
   * commas; a field in quotes may hold anything, with its quotes doubled; a bare field holds no quote, CR or LF.
   */
  function Read(s: string, mode: Mode, field: string, record: seq<string>,
    records: seq<seq<string>>): Option<seq<seq<string>>>
    decreases |s|
  {
    if s == "" then
      if mode == Quoted then None
      else if mode == Start && record == [] then Some(records)
      else Some(records + [record + [field]])
    else if mode == Quoted then
      if s[0] == '"' then Read(s[1..], Closed, field, record, records)
      else Read(s[1..], Quoted, field + [s[0]], record, records)
    else if s[0] == '"' then
      if mode == Start then Read(s[1..], Quoted, "", record, records)
      else if mode == Closed then Read(s[1..], Quoted, field + ['"'], record, records)
      else None
    else if s[0] == ',' then Read(s[1..], Start, "", record + [field], records)
    else if s[0] == '\r' && |s| > 1 && s[1] == '\n' then Read(s[2..], Start, "", [], records + [record + [field]])
    else if s[0] == '\r' || s[0] == '\n' || mode == Closed then None
    else Read(s[1..], Bare, field + [s[0]], record, records)
  }

  function Parse(file: string): Option<seq<seq<string>>> {
    Read(file, Start, "", [], [])
  }

  // ---------------------------------------------------------------- what is read is what was written

  function Text(value: Option<string>): string {
    if value.Some? then value.value else ""
  }

  function Texts(cells: seq<Option<string>>): seq<string> {
    seq(|cells|, i requires 0 <= i < |cells| => Text(cells[i]))
  }

  lemma CommaIsRead(rest: string, mode: Mode, field: string, record: seq<string>, records: seq<seq<string>>)
    requires mode != Quoted
    ensures Read("," + rest, mode, field, record, records) == Read(rest, Start, "", record + [field], records)
  {
    assert ("," + rest)[1..] == rest;
  }

  lemma NewlineIsRead(rest: string, mode: Mode, field: string, record: seq<string>, records: seq<seq<string>>)
    requires mode != Quoted
    ensures Read(CSV_NEWLINE + rest, mode, field, record, records) ==
      Read(rest, Start, "", [], records + [record + [field]])
  {
    var s := CSV_NEWLINE + rest;
    assert s[0] == '\r' && s[1] == '\n' && s[2..] == rest;
  }

  lemma OneQuoted(c: char, rest: string, field: string, record: seq<string>, records: seq<seq<string>>)
    ensures Read((if c == '"' then "\"\"" else [c]) + rest, Quoted, field, record, records) ==
      Read(rest, Quoted, field + [c], record, records)
  {
    if c == '"' {
      var s := "\"\"" + rest;
      assert s[0] == '"' && s[1..][0] == '"' && s[1..][1..] == rest;
      assert Read(s, Quoted, field, record, records) == Read(s[1..], Closed, field, record, records);
    } else {
      assert ([c] + rest)[1..] == rest;
    }
  }

  lemma QuoteCloses(rest: string, field: string, record: seq<string>, records: seq<seq<string>>)
    ensures Read("\"" + rest, Quoted, field, record, records) == Read(rest, Closed, field, record, records)
  {
    assert ("\"" + rest)[1..] == rest;
  }

  lemma DoubledUnfolds(text: string, tail: string)
    requires text != ""
    ensures Doubled(text) + tail == (if text[0] == '"' then "\"\"" else [text[0]]) + (Doubled(text[1..]) + tail)
  {}

  lemma NextQuoted(text: string, tail: string, field: string, record: seq<string>, records: seq<seq<string>>)
    requires text != ""
    ensures Read(Doubled(text) + tail, Quoted, field, record, records) ==
      Read(Doubled(text[1..]) + tail, Quoted, field + [text[0]], record, records)
  {
    DoubledUnfolds(text, tail);
    OneQuoted(text[0], Doubled(text[1..]) + tail, field, record, records);
  }

  lemma {:induction false} QuotedIsRead(text: string, rest: string, field: string, record: seq<string>,
    records: seq<seq<string>>)
    ensures Read(Doubled(text) + ("\"" + rest), Quoted, field, record, records) ==
      Read(rest, Closed, field + text, record, records)
    decreases |text|
  {
    var tail := "\"" + rest;
    if text == "" {
      QuoteCloses(rest, field, record, records);
      assert Doubled(text) + tail == tail && field + text == field;
    } else {
      NextQuoted(text, tail, field, record, records);
      QuotedIsRead(text[1..], rest, field + [text[0]], record, records);
      assert field + [text[0]] + text[1..] == field + text;
    }
  }

  /** After a cell the reader holds its text, whatever the text contains. */
  lemma CellIsRead(value: Option<string>, rest: string, record: seq<string>, records: seq<seq<string>>)
    ensures Read(CsvCell(value) + rest, Start, "", record, records) ==
      Read(rest, if value.Some? then Closed else Start, Text(value), record, records)
  {
    match value {
      case None => assert "" + rest == rest;
      case Some(text) =>
        QuotedIsRead(text, rest, "", record, records);
        var s := CsvCell(value) + rest;
        assert s[1..] == Doubled(text) + ("\"" + rest);
        assert "" + text == text;
    }
  }

  /** The rest of a file behind a line: nothing, or a line break and more. */
  function Following(lines: seq<string>): string {
    if lines == [] then "" else CSV_NEWLINE + Join(lines, CSV_NEWLINE)
  }

  /** What a reader makes of that rest, having read `records` before it. */
  function Onward(lines: seq<string>, records: seq<seq<string>>): Option<seq<seq<string>>> {
    if lines == [] then Some(records) else Read(Join(lines, CSV_NEWLINE), Start, "", [], records)
  }

  lemma LineEnds(lines: seq<string>, mode: Mode, field: string, record: seq<string>, records: seq<seq<string>>)
    requires mode != Quoted && (mode == Start ==> record != [])
    ensures Read(Following(lines), mode, field, record, records) == Onward(lines, records + [record + [field]])
  {
    if lines != [] { NewlineIsRead(Join(lines, CSV_NEWLINE), mode, field, record, records); }
  }

  lemma JoinUnfolds(parts: seq<string>, separator: string, end: string)
    requires |parts| > 1
    ensures Join(parts, separator) + end == parts[0] + (separator + (Join(parts[1..], separator) + end))
  {}

  lemma LineUnfolds(cells: seq<Option<string>>, end: string)
    requires |cells| > 1
    ensures Line(cells) + end == CsvCell(cells[0]) + ("," + (Line(cells[1..]) + end))
  {
    var parts := seq(|cells|, i requires 0 <= i < |cells| => CsvCell(cells[i]));
    assert parts[1..] == seq(|cells[1..]|, i requires 0 <= i < |cells[1..]| => CsvCell(cells[1..][i]));
    JoinUnfolds(parts, ",", end);
  }

  /** A line of several cells is read as the record of their texts, up to what follows it. */
  lemma {:induction false} LineIsRead(cells: seq<Option<string>>, lines: seq<string>, record: seq<string>,
    records: seq<seq<string>>)
    requires cells != [] && |record| + |cells| > 1
    ensures Read(Line(cells) + Following(lines), Start, "", record, records) ==
      Onward(lines, records + [record + Texts(cells)])
    decreases |cells|
  {
    var end, first := Following(lines), cells[0];
    var mode := if first.Some? then Closed else Start;
    if |cells| == 1 {
      CellIsRead(first, end, record, records);
      LineEnds(lines, mode, Text(first), record, records);
      assert Texts(cells) == [Text(first)];
    } else {
      var rest := Line(cells[1..]) + end;
      LineUnfolds(cells, end);
      CellIsRead(first, "," + rest, record, records);
      CommaIsRead(rest, mode, Text(first), record, records);
      LineIsRead(cells[1..], lines, record + [Text(first)], records);
      assert record + [Text(first)] + Texts(cells[1..]) == record + Texts(cells);
    }
  }

  predicate Ordinary(c: char) {
    c != '"' && c != ',' && c != '\r' && c != '\n'
  }

  predicate Nameable(name: string) {
    name != "" && forall i :: 0 <= i < |name| ==> Ordinary(name[i])
  }

  lemma {:induction false} BareIsRead(name: string, rest: string, field: string, record: seq<string>,
    records: seq<seq<string>>)
    requires forall i :: 0 <= i < |name| ==> Ordinary(name[i])
    ensures Read(name + rest, Bare, field, record, records) == Read(rest, Bare, field + name, record, records)
    decreases |name|
  {
    if name == "" {
      assert name + rest == rest && field + name == field;
    } else {
      assert Ordinary(name[0]) && (name + rest)[0] == name[0] && (name + rest)[1..] == name[1..] + rest;
      BareIsRead(name[1..], rest, field + [name[0]], record, records);
      assert field + [name[0]] + name[1..] == field + name;
    }
  }

  lemma NameIsRead(name: string, rest: string, record: seq<string>, records: seq<seq<string>>)
    requires Nameable(name)
    ensures Read(name + rest, Start, "", record, records) == Read(rest, Bare, name, record, records)
  {
    assert Ordinary(name[0]) && (name + rest)[0] == name[0] && (name + rest)[1..] == name[1..] + rest;
    BareIsRead(name[1..], rest, "" + [name[0]], record, records);
    assert "" + [name[0]] + name[1..] == name;
  }

  lemma {:induction false} HeaderIsRead(names: seq<string>, lines: seq<string>, record: seq<string>)
    requires names != [] && forall i :: 0 <= i < |names| ==> Nameable(names[i])
    ensures Read(Join(names, ",") + Following(lines), Start, "", record, []) == Onward(lines, [record + names])
    decreases |names|
  {
    var end := Following(lines);
    if |names| == 1 {
      NameIsRead(names[0], end, record, []);
      LineEnds(lines, Bare, names[0], record, []);
      assert names == [names[0]];
      var before: seq<seq<string>> := [];
      assert before + [record + names] == [record + names];
    } else {
      var rest := Join(names[1..], ",") + end;
      JoinUnfolds(names, ",", end);
      NameIsRead(names[0], "," + rest, record, []);
      CommaIsRead(rest, Bare, names[0], record, []);
      HeaderIsRead(names[1..], lines, record + [names[0]]);
      assert record + [names[0]] + names[1..] == record + names;
    }
  }

  function BodyLines(rows: seq<CustomerRow>): seq<string> {
    seq(|rows|, i requires 0 <= i < |rows| => Line(Cells(rows[i])))
  }

  function Records(rows: seq<CustomerRow>): seq<seq<string>> {
    seq(|rows|, i requires 0 <= i < |rows| => Texts(Cells(rows[i])))
  }

  lemma JoinedLines(lines: seq<string>)
    requires lines != []
    ensures Join(lines, CSV_NEWLINE) == lines[0] + Following(lines[1..])
  {}

  lemma {:induction false} RowsAreRead(rows: seq<CustomerRow>, records: seq<seq<string>>)
    ensures Onward(BodyLines(rows), records) == Some(records + Records(rows))
    decreases |rows|
  {
    if rows == [] {
      assert records + Records(rows) == records;
    } else {
      var lines, first := BodyLines(rows), Texts(Cells(rows[0]));
      assert lines[1..] == BodyLines(rows[1..]);
      JoinedLines(lines);
      LineIsRead(Cells(rows[0]), lines[1..], [], records);
      assert [] + first == first;
      RowsAreRead(rows[1..], records + [first]);
      assert records + [first] + Records(rows[1..]) == records + Records(rows);
    }
  }

  /** The value a column is named after; an absent one is shown empty. */
  function Column(name: string, r: CustomerRow): string {
    match name
    case "id" => r.id
    case "first_name" => Text(r.firstName)
    case "last_name" => Text(r.lastName)
    case "phone" => Text(r.phone)
    case "email" => Text(r.email)
    case "gender" => Text(r.gender)
    case "status" => r.status
    case "phone_verified" => if r.phoneVerified then "true" else "false"
    case "email_verified" => if r.emailVerified then "true" else "false"
    case "shopify_customer_id" => Text(r.shopifyCustomerId)
    case "last_login_at" => Text(r.lastLoginAt)
    case "created_at" => r.createdAt
    case _ => ""
  }

  /** Every value stands under the name of its column. */
  lemma ColumnsMatchHeader(rows: seq<CustomerRow>, i: nat, k: nat)
    requires i < |rows| && k < |HEADER|
    ensures |Records(rows)[i]| == |HEADER| && Records(rows)[i][k] == Column(HEADER[k], rows[i])
  {
    assert k == 0 || k == 1 || k == 2 || k == 3 || k == 4 || k == 5 || k == 6 || k == 7 || k == 8 || k == 9 || k == 10
      || k == 11;
  }

  lemma HeaderNames()
    ensures forall i :: 0 <= i < |HEADER| ==> Nameable(HEADER[i])
  {
    forall i | 0 <= i < |HEADER| ensures Nameable(HEADER[i]) {}
  }

  /**
   * Reading an export back gives the header and then one record per row with exactly the row's texts, for any
   * contents: quotes, commas and line breaks included. An absent value reads as an empty field.
   */
  lemma ExportRoundTrip(rows: seq<CustomerRow>)
    ensures Parse(ExportCsv(rows)) == Some([HEADER] + Records(rows))
  {
    var lines := BodyLines(rows);
    var all := [Join(HEADER, ",")] + lines;
    assert all[1..] == lines;
    JoinedLines(all);
    HeaderNames();
    HeaderIsRead(HEADER, lines, []);
    assert [] + HEADER == HEADER;
    RowsAreRead(rows, [HEADER]);
  }
}
