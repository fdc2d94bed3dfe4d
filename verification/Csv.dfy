/** The CSV printer of the list pages and a reader for RFC 4180, section 2, with `;` as the
    separator. The reader is independent of the printer: it also takes unquoted fields, an
    optional final line break, and refuses malformed input. */
module Csv {
  import opened Common

  const BOM: char := '\U{FEFF}'
  const CRLF: string := "\r\n"

  // ---------- The printer ----------

  /** A value met in a row or returned by a formatter or a renderer. `Number` carries the
      text `String` gives for it; `Other` is everything that is neither text, number nor flag. */
  datatype Value = Text(text: string) | Number(text: string) | Flag(on: bool) | Other | Nullish

  type Row = map<string, Value>

  datatype Column = Column(key: string, header: string, render: Option<Row -> Value>)

  type Formatter = (Row, Column) -> Value

  function ToText(v: Value): string {
    match v
    case Text(t) => t
    case Number(t) => t
    case Flag(on) => if on then "true" else "false"
    case Other => ""
    case Nullish => ""
  }

  function ToCellValue(row: Row, col: Column): string {
    if col.key in row then ToText(row[col.key]) else ""
  }

  function ResolveCell(row: Row, col: Column, formatter: Option<Formatter>): string {
    if formatter.Some? && !formatter.value(row, col).Nullish? then ToText(formatter.value(row, col))
    else if col.render.Some? && (col.render.value(row).Text? || col.render.value(row).Number?) then
      ToText(col.render.value(row))
    else ToCellValue(row, col)
  }

  function DoubleQuotes(value: string): string {
    if value == "" then ""
    else (if value[0] == '"' then "\"\"" else value[..1]) + DoubleQuotes(value[1..])
  }

  function EscapeCell(value: string): string {
    "\"" + DoubleQuotes(value) + "\""
  }

  function Join(parts: seq<string>, sep: string): string {
    if |parts| == 0 then ""
    else if |parts| == 1 then parts[0]
    else parts[0] + sep + Join(parts[1..], sep)
  }

  function PrintRecord(cells: seq<string>): string {
    Join(seq(|cells|, i requires 0 <= i < |cells| => EscapeCell(cells[i])), ";")
  }

  function PrintRecords(records: seq<seq<string>>): string {
    Join(seq(|records|, i requires 0 <= i < |records| => PrintRecord(records[i])), CRLF)
  }

  /** The cells of the exported file: the headers, then each row cell by cell. */
  function Cells(columns: seq<Column>, rows: seq<Row>, formatter: Option<Formatter>): seq<seq<string>> {
    [seq(|columns|, i requires 0 <= i < |columns| => columns[i].header)] +
    seq(|rows|, r requires 0 <= r < |rows| =>
      seq(|columns|, i requires 0 <= i < |columns| => ResolveCell(rows[r], columns[i], formatter)))
  }

  function ExportRows(columns: seq<Column>, rows: seq<Row>, formatter: Option<Formatter>): string {
    [BOM] + PrintRecords(Cells(columns, rows, formatter))
  }

  // ---------- The reader ----------

  datatype Mode =
    | FieldStart   // nothing of the field read
    | Plain        // inside a non-escaped field
    | Escaped      // between the quotes of an escaped field
    | Quote        // after a quote inside an escaped field
    | Return       // after a CR outside quotes
    | LineStart    // after a CRLF: a further record or the end of the file

  predicate EndsField(c: char) {
    c == ';' || c == '\r'
  }

  /** Reads `text` from `mode`, with the current field, the fields before it in the record and
      the records before that; None when the text is not well formed. */
  function Read(text: string, mode: Mode, field: string, record: seq<string>, records: seq<seq<string>>)
    : (r: Option<seq<seq<string>>>)
    requires mode.LineStart? ==> field == "" && record == []
    ensures r.Some? ==> records <= r.value && forall k :: |records| <= k < |r.value| ==> r.value[k] != []
    decreases |text|
  {
    if text == "" then
      if mode.LineStart? then Some(records)
      else if mode.Escaped? || mode.Return? then None
      else Some(records + [record + [field]])
    else
      var c, rest := text[0], text[1..];
      if mode.Escaped? then
        if c == '"' then Read(rest, Quote, field, record, records)
        else Read(rest, Escaped, field + [c], record, records)
      else if mode.Return? then
        if c == '\n' then Read(rest, LineStart, "", [], records + [record + [field]])
        else None
      else if c == ';' then Read(rest, FieldStart, "", record + [field], records)
      else if c == '\r' then Read(rest, Return, field, record, records)
      else if c == '"' then
        if mode.Plain? then None
        else if mode.Quote? then Read(rest, Escaped, field + ['"'], record, records)
        else Read(rest, Escaped, field, record, records)
      else if c == '\n' || mode.Quote? then None
      else Read(rest, Plain, field + [c], record, records)
  }

  /** The records of a CSV file after its byte-order mark. */
  function ReadCsv(text: string): Option<seq<seq<string>>> {
    Read(text, FieldStart, "", [], [])
  }

  // ---------- Round trip ----------

  lemma {:induction false} ReadDoubled(value: string, rest: string, field: string, record: seq<string>, records: seq<seq<string>>)
    requires rest == "" || EndsField(rest[0])
    ensures Read(DoubleQuotes(value) + "\"" + rest, Escaped, field, record, records)
         == Read(rest, Quote, field + value, record, records)
    decreases |value|
  {
    var text := DoubleQuotes(value) + "\"" + rest;
    if value == "" {
      assert text[1..] == rest && field + value == field;
    } else {
      var tail := DoubleQuotes(value[1..]) + "\"" + rest;
      var c := value[0];
      assert field + value == field + [c] + value[1..];
      ReadDoubled(value[1..], rest, field + [c], record, records);
      if c == '"' {
        assert text[1..] == "\"" + tail && text[1..][1..] == tail;
      } else {
        assert text[1..] == tail;
      }
    }
  }

  lemma ReadCell(value: string, rest: string, mode: Mode, record: seq<string>, records: seq<seq<string>>)
    requires rest == "" || EndsField(rest[0])
    requires mode.FieldStart? || (mode.LineStart? && record == [])
    ensures Read(EscapeCell(value) + rest, mode, "", record, records) == Read(rest, Quote, value, record, records)
  {
    var text := EscapeCell(value) + rest;
    assert text[1..] == DoubleQuotes(value) + "\"" + rest;
    ReadDoubled(value, rest, "", record, records);
    assert "" + value == value;
  }

  /** Reading a printed record reaches the end of its last field. */
  lemma {:induction false} ReadPrintedRecord(
    cells: seq<string>, rest: string, mode: Mode, record: seq<string>, records: seq<seq<string>>)
    requires cells != [] && (rest == "" || rest[0] == '\r')
    requires mode.FieldStart? || (mode.LineStart? && record == [])
    ensures var last := |cells| - 1;
      Read(PrintRecord(cells) + rest, mode, "", record, records)
      == Read(rest, Quote, cells[last], record + cells[..last], records)
    decreases |cells|
  {
    if |cells| == 1 {
      ReadCell(cells[0], rest, mode, record, records);
      assert record + cells[..0] == record;
    } else {
      var tail := PrintRecord(cells[1..]) + rest;
      PrintRecordSplits(cells);
      assert PrintRecord(cells) + rest == EscapeCell(cells[0]) + (";" + tail);
      ReadCell(cells[0], ";" + tail, mode, record, records);
      assert (";" + tail)[1..] == tail;
      ReadPrintedRecord(cells[1..], rest, FieldStart, record + [cells[0]], records);
      assert record + [cells[0]] + cells[1..][..|cells| - 2] == record + cells[..|cells| - 1];
    }
  }

  lemma PrintRecordSplits(cells: seq<string>)
    requires |cells| > 1
    ensures PrintRecord(cells) == EscapeCell(cells[0]) + ";" + PrintRecord(cells[1..])
  {
    var all := seq(|cells|, i requires 0 <= i < |cells| => EscapeCell(cells[i]));
    assert all[1..] == seq(|cells[1..]|, i requires 0 <= i < |cells[1..]| => EscapeCell(cells[1..][i]));
  }

  lemma PrintRecordsSplits(table: seq<seq<string>>)
    requires |table| > 1
    ensures PrintRecords(table) == PrintRecord(table[0]) + CRLF + PrintRecords(table[1..])
  {
    var all := seq(|table|, i requires 0 <= i < |table| => PrintRecord(table[i]));
    assert all[1..] == seq(|table[1..]|, i requires 0 <= i < |table[1..]| => PrintRecord(table[1..][i]));
  }

  lemma {:induction false} ReadPrintedRecords(table: seq<seq<string>>, mode: Mode, records: seq<seq<string>>)
    requires table != [] && forall r :: 0 <= r < |table| ==> table[r] != []
    requires mode.FieldStart? || mode.LineStart?
    ensures Read(PrintRecords(table), mode, "", [], records) == Some(records + table)
    decreases |table|
  {
    var cells := table[0];
    var last := |cells| - 1;
    assert [] + cells[..last] + [cells[last]] == cells;
    if |table| == 1 {
      assert PrintRecords(table) == PrintRecord(cells) + "";
      ReadPrintedRecord(cells, "", mode, [], records);
      assert records + [cells] == records + table;
    } else {
      var tail := PrintRecords(table[1..]);
      PrintRecordsSplits(table);
      assert PrintRecords(table) == PrintRecord(cells) + (CRLF + tail);
      ReadPrintedRecord(cells, CRLF + tail, mode, [], records);
      assert (CRLF + tail)[1..] == "\n" + tail && ("\n" + tail)[1..] == tail;
      ReadPrintedRecords(table[1..], LineStart, records + [cells]);
      assert records + [cells] + table[1..] == records + table;
    }
  }

  /** The exported text, read back after its byte-order mark, is the headers and the cells of
      every row, whatever they contain, exactly when the table has a column. */
  lemma ExportRoundTripIff(columns: seq<Column>, rows: seq<Row>, formatter: Option<Formatter>)
    ensures ExportRows(columns, rows, formatter)[0] == BOM
    ensures |columns| > 0 <==>
            ReadCsv(ExportRows(columns, rows, formatter)[1..]) == Some(Cells(columns, rows, formatter))
  {
    var table := Cells(columns, rows, formatter);
    assert ExportRows(columns, rows, formatter)[1..] == PrintRecords(table);
    if |columns| > 0 {
      forall r | 0 <= r < |table| ensures table[r] != [] {
        assert |table[r]| == |columns|;
      }
      ReadPrintedRecords(table, FieldStart, []);
      assert [] + table == table;
    } else {
      assert table[0] == [];
    }
  }

  /** The value a cell shows: the formatter's when it gives one, else the renderer's when it is text
      or a number, else the row's own. */
  predicate Shows(row: Row, col: Column, formatter: Option<Formatter>, value: Value) {
    if formatter.Some? && formatter.value(row, col) != Nullish then value == formatter.value(row, col)
    else if col.render.Some? && (col.render.value(row).Text? || col.render.value(row).Number?) then value == col.render.value(row)
    else value == if col.key in row then row[col.key] else Nullish
  }

  /** Reading the export back gives one record of headers and one for each row, and in the record
      of row `r` at column `i` the text of the value that cell shows; a value that is no text,
      number or flag reads as empty. */
  lemma ReadBackCell(columns: seq<Column>, rows: seq<Row>, formatter: Option<Formatter>, r: nat, i: nat, value: Value)
    requires r < |rows| && i < |columns| && Shows(rows[r], columns[i], formatter, value)
    ensures var read := ReadCsv(ExportRows(columns, rows, formatter)[1..]);
      && read.Some? && |read.value| == |rows| + 1 && |read.value[0]| == |read.value[r + 1]| == |columns|
      && read.value[0][i] == columns[i].header
      && read.value[r + 1][i] == match value
                                 case Text(text) => text
                                 case Number(text) => text
                                 case Flag(on) => (if on then "true" else "false")
                                 case Other => ""
                                 case Nullish => ""
  {
    ExportRoundTripIff(columns, rows, formatter);
    var table := Cells(columns, rows, formatter);
    assert table[0] == seq(|columns|, i requires 0 <= i < |columns| => columns[i].header);
    assert table[r + 1] == seq(|columns|, i requires 0 <= i < |columns| => ResolveCell(rows[r], columns[i], formatter));
  }

  /** Two exports with the same text have the same headers and the same cells. */
  lemma ExportInjective(
    columns: seq<Column>, rows: seq<Row>, formatter: Option<Formatter>,
    columns': seq<Column>, rows': seq<Row>, formatter': Option<Formatter>)
    requires |columns| > 0 && |columns'| > 0
    requires ExportRows(columns, rows, formatter) == ExportRows(columns', rows', formatter')
    ensures Cells(columns, rows, formatter) == Cells(columns', rows', formatter')
  {
    ExportRoundTripIff(columns, rows, formatter);
    ExportRoundTripIff(columns', rows', formatter');
  }
}
