/**
 * The employee list page: the CSV export (`escapeCsvValue` and the document
 * built by `handleExportCsv`), the name/city search filter, and the rule
 * that persists the search once typing has paused.
 */
module ListPage {
  import opened Wrappers
  import opened Text
  import opened JsNumber
  import opened Sequences
  import opened Browser
  import opened Rfc4180
  import opened EmployeeService

  // ---------------------------------------------------------------------
  // CSV export
  // ---------------------------------------------------------------------

  /** `value.replace(/"/g, '""')`. */
  function DoubleQuotes(v: string): (r: string)
    ensures |r| >= |v|
  {
    if v == [] then []
    else (if v[0] == '"' then "\"\"" else [v[0]]) + DoubleQuotes(v[1..])
  }

  /** The test of `escapeCsvValue`: the value holds a double quote, a comma or a line feed. */
  predicate NeedsQuoting(v: string) {
    Contains(v, "\"") || Contains(v, ",") || Contains(v, "\n")
  }

  /** `escapeCsvValue` as written: a carriage return alone does not trigger quoting. */
  function EscapeCsvValue(v: string): (r: string)
    ensures !NeedsQuoting(v) ==> r == v
    ensures NeedsQuoting(v) ==> ReadField(r) == Some((v, []))
  {
    if NeedsQuoting(v) then
      EscapedRoundTrip(v, []);
      assert ("\"" + DoubleQuotes(v) + "\"")[1..] == DoubleQuotes(v) + "\"" + [];
      "\"" + DoubleQuotes(v) + "\""
    else v
  }

  /** `escapeCsvValue` with a carriage return also forcing quotes, as RFC 4180 requires. */
  function EscapeCsvField(v: string): string {
    if NeedsQuoting(v) || Contains(v, "\r") then "\"" + DoubleQuotes(v) + "\"" else v
  }

  /** `escapeCsvValue` leaves a value alone exactly when it holds no double quote, comma or line feed. */
  lemma EscapeCsvValueIdentity(v: string)
    ensures EscapeCsvValue(v) == v <==> !NeedsQuoting(v)
  {
    if NeedsQuoting(v) {
      assert |EscapeCsvValue(v)| > |v|;
    }
  }

  /** The two escapes agree on every value without a carriage return. */
  lemma EscapeAgreesWithoutCarriageReturn(v: string)
    requires '\r' !in v
    ensures EscapeCsvField(v) == EscapeCsvValue(v)
  {
    ContainsChar(v, '\r');
  }

  /** A value the escapes leave unquoted is a valid non-escaped field. */
  lemma UnquotedIsPlain(v: string)
    requires !NeedsQuoting(v) && !Contains(v, "\r")
    ensures IsPlain(v)
  {
    ContainsChar(v, '"');
    ContainsChar(v, ',');
    ContainsChar(v, '\n');
    ContainsChar(v, '\r');
    forall i | 0 <= i < |v|
      ensures !IsDelimiter(v[i])
    {
      assert v[i] in v;
    }
  }

  lemma {:induction false} PlainRoundTrip(v: string, t: string)
    requires IsPlain(v)
    requires t == [] || IsDelimiter(t[0])
    ensures ReadPlain(v + t) == (v, t)
  {
    if v == [] {
      assert v + t == t;
    } else {
      assert (v + t)[1..] == v[1..] + t;
      PlainRoundTrip(v[1..], t);
      assert [v[0]] + v[1..] == v;
    }
  }

  lemma {:induction false} EscapedRoundTrip(v: string, t: string)
    requires t == [] || t[0] != '"'
    ensures ReadEscapedBody(DoubleQuotes(v) + "\"" + t) == Some((v, t))
  {
    var s := DoubleQuotes(v) + "\"" + t;
    if v == [] {
      assert s == "\"" + t;
      assert s[1..] == t;
    } else if v[0] == '"' {
      assert s == "\"\"" + (DoubleQuotes(v[1..]) + "\"" + t);
      assert s[2..] == DoubleQuotes(v[1..]) + "\"" + t;
      EscapedRoundTrip(v[1..], t);
      assert ['"'] + v[1..] == v;
    } else {
      assert s == [v[0]] + (DoubleQuotes(v[1..]) + "\"" + t);
      assert s[1..] == DoubleQuotes(v[1..]) + "\"" + t;
      EscapedRoundTrip(v[1..], t);
      assert [v[0]] + v[1..] == v;
    }
  }

  /**
   * Reading back an escaped field (RFC 4180 section 2, rules 5 to 7)
   * recovers the value, whatever follows it in a well-formed document.
   */
  lemma FieldRoundTrip(v: string, t: string)
    requires EndsField(t)
    ensures ReadField(EscapeCsvField(v) + t) == Some((v, t))
  {
    if NeedsQuoting(v) || Contains(v, "\r") {
      var s := EscapeCsvField(v) + t;
      assert s == "\"" + (DoubleQuotes(v) + "\"" + t);
      assert s[1..] == DoubleQuotes(v) + "\"" + t;
      EscapedRoundTrip(v, t);
    } else {
      UnquotedIsPlain(v);
      PlainRoundTrip(v, t);
      if v != [] {
        assert (v + t)[0] == v[0];
      } else {
        assert v + t == t;
      }
    }
  }

  /**
   * `escapeCsvValue` as written loses a value holding a carriage return:
   * it is emitted without quotes, and the reader stops at the CR.
   */
  lemma CarriageReturnNotRecovered()
    ensures EscapeCsvValue("\r") == "\r"
    ensures ReadField(EscapeCsvValue("\r")) == Some(([], "\r"))
  {
    ContainsChar("\r", '"');
    ContainsChar("\r", ',');
    ContainsChar("\r", '\n');
  }

  /** The escaped cells of a row joined with commas. */
  function EncodeRecord(cells: seq<string>): string {
    Join(seq(|cells|, i requires 0 <= i < |cells| => EscapeCsvField(cells[i])), ",")
  }

  /** The encoded rows joined with CRLF. */
  function EncodeDocument(rows: seq<seq<string>>): string {
    Join(seq(|rows|, i requires 0 <= i < |rows| => EncodeRecord(rows[i])), CRLF)
  }

  /** How a row with two or more cells is written: first cell, comma, the rest. */
  lemma EncodeRecordCons(cells: seq<string>)
    requires |cells| >= 2
    ensures EncodeRecord(cells) == EscapeCsvField(cells[0]) + "," + EncodeRecord(cells[1..])
  {
    var e := seq(|cells|, i requires 0 <= i < |cells| => EscapeCsvField(cells[i]));
    assert e[1..] == seq(|cells| - 1, i requires 0 <= i < |cells| - 1 => EscapeCsvField(cells[1..][i]));
  }

  lemma EncodeRecordSplit(cells: seq<string>, t: string)
    requires |cells| >= 2
    ensures EncodeRecord(cells) + t == EscapeCsvField(cells[0]) + ([','] + (EncodeRecord(cells[1..]) + t))
  {
    EncodeRecordCons(cells);
    Regroup(EscapeCsvField(cells[0]), ",", EncodeRecord(cells[1..]), t);
  }

  lemma EncodeDocumentCons(rows: seq<seq<string>>)
    requires |rows| >= 2
    ensures EncodeDocument(rows) == EncodeRecord(rows[0]) + CRLF + EncodeDocument(rows[1..])
  {
    var e := seq(|rows|, i requires 0 <= i < |rows| => EncodeRecord(rows[i]));
    assert e[1..] == seq(|rows| - 1, i requires 0 <= i < |rows| - 1 => EncodeRecord(rows[1..][i]));
  }

  lemma EncodeDocumentSplit(rows: seq<seq<string>>)
    requires |rows| >= 2
    ensures EncodeDocument(rows) == EncodeRecord(rows[0]) + (CRLF + EncodeDocument(rows[1..]))
  {
    EncodeDocumentCons(rows);
  }

  /** A record is written as nothing at all only when it is one empty cell. */
  lemma EncodeRecordEmpty(cells: seq<string>)
    requires cells != [] && cells != [""]
    ensures EncodeRecord(cells) != []
  {
    if |cells| >= 2 {
      EncodeRecordCons(cells);
    } else {
      assert cells[0] != "";
    }
  }

  /** A one-cell row reads back as that cell. */
  lemma RecordRoundTripOne(cells: seq<string>, t: string)
    requires |cells| == 1
    requires t == [] || StartsWith(t, CRLF)
    ensures ReadRecord(EncodeRecord(cells) + t) == Some((cells, t))
  {
    assert EncodeRecord(cells) + t == EscapeCsvField(cells[0]) + t;
    FieldRoundTrip(cells[0], t);
    ReadRecordLast(EncodeRecord(cells) + t, cells[0], t);
    assert [cells[0]] == cells;
  }

  /** A longer row reads back as its first cell followed by what the rest reads back as. */
  lemma RecordRoundTripCons(cells: seq<string>, t: string)
    requires |cells| >= 2
    requires ReadRecord(EncodeRecord(cells[1..]) + t) == Some((cells[1..], t))
    ensures ReadRecord(EncodeRecord(cells) + t) == Some((cells, t))
  {
    var first := EscapeCsvField(cells[0]);
    var others := EncodeRecord(cells[1..]);
    EncodeRecordSplit(cells, t);
    FieldRoundTrip(cells[0], [','] + (others + t));
    ReadRecordAfterComma(first, cells[0], others, cells[1..], t);
    assert [cells[0]] + cells[1..] == cells;
  }

  /** Reading back a written row gives its cells, whatever record separator follows. */
  lemma {:induction false} RecordRoundTrip(cells: seq<string>, t: string)
    requires cells != []
    requires t == [] || StartsWith(t, CRLF)
    ensures ReadRecord(EncodeRecord(cells) + t) == Some((cells, t))
    decreases |cells|
  {
    if |cells| == 1 {
      RecordRoundTripOne(cells, t);
    } else {
      RecordRoundTrip(cells[1..], t);
      RecordRoundTripCons(cells, t);
    }
  }

  /** A document of two or more rows reads back as its first row followed by what the rest reads back as. */
  lemma RecordBeforeBreak(cells: seq<string>, others: string)
    requires cells != []
    ensures ReadRecord(EncodeRecord(cells) + (CRLF + others)) == Some((cells, CRLF + others))
  {
    assert (CRLF + others)[..2] == CRLF;
    RecordRoundTrip(cells, CRLF + others);
  }

  lemma {:induction false} DocumentRoundTripCons(rows: seq<seq<string>>)
    requires |rows| >= 2 && rows[0] != []
    requires EncodeDocument(rows[1..]) != []
    requires ReadDocument(EncodeDocument(rows[1..])) == Some(rows[1..])
    ensures ReadDocument(EncodeDocument(rows)) == Some(rows)
  {
    var others := EncodeDocument(rows[1..]);
    EncodeDocumentSplit(rows);
    RecordBeforeBreak(rows[0], others);
    DocumentFromParts(rows, EncodeRecord(rows[0]), others, EncodeDocument(rows));
  }

  /** A first record, CRLF and the rest of a document read back as the whole document. */
  lemma DocumentFromParts(rows: seq<seq<string>>, first: string, others: string, doc: string)
    requires |rows| >= 2 && others != [] && doc == first + (CRLF + others)
    requires ReadRecord(first + (CRLF + others)) == Some((rows[0], CRLF + others))
    requires ReadDocument(others) == Some(rows[1..])
    ensures ReadDocument(doc) == Some(rows)
  {
    var tail := rows[1..];
    assert [rows[0]] + tail == rows;
    ReadDocumentAfterBreak(first, rows[0], others, tail);
  }

  /**
   * A document of non-empty rows read back with the RFC 4180 reader gives the
   * rows again, unless the last row is a single empty cell (which the
   * optional final CRLF would make ambiguous).
   */
  lemma {:induction false} DocumentRoundTrip(rows: seq<seq<string>>)
    requires rows != []
    requires forall i :: 0 <= i < |rows| ==> rows[i] != []
    requires rows[|rows| - 1] != [""]
    ensures ReadDocument(EncodeDocument(rows)) == Some(rows)
    decreases |rows|
  {
    if |rows| == 1 {
      RecordRoundTrip(rows[0], []);
      assert EncodeDocument(rows) == EncodeRecord(rows[0]) + [];
      ReadDocumentLast(EncodeDocument(rows), rows[0]);
      assert [rows[0]] == rows;
    } else {
      if |rows| == 2 {
        EncodeRecordEmpty(rows[1]);
        assert EncodeDocument(rows[1..]) == EncodeRecord(rows[1]);
      } else {
        EncodeDocumentCons(rows[1..]);
      }
      DocumentRoundTrip(rows[1..]);
      DocumentRoundTripCons(rows);
    }
  }

  const CsvHeader := ["ID", "Name", "Salary", "City", "Age"]

  /** The salary cell: `String(salary)` when finite, otherwise empty. */
  function SalaryCell(salary: Number): string {
    if salary.Finite? then NumberToString(salary) else ""
  }

  /** The age cell: `String(age)` for any number but NaN, otherwise empty. */
  function AgeCell(age: Option<Number>): string {
    match age
    case Some(n) => if n.NaN? then "" else NumberToString(n)
    case None => ""
  }

  /** The five cells written for one employee. */
  function CsvCells(e: Employee): (r: seq<string>)
    ensures |r| == |CsvHeader|
    ensures r[0] == e.id && r[1] == e.name && r[3] == e.city
    ensures r[2] == "" <==> !e.salary.Finite?
    ensures r[4] == "" <==> e.age.None? || e.age.value.NaN?
    ensures e.salary.Finite? ==> r[2] == NumberToString(e.salary)
    ensures e.age.Some? && !e.age.value.NaN? ==> r[4] == NumberToString(e.age.value)
  {
    [e.id, e.name, SalaryCell(e.salary), e.city, AgeCell(e.age)]
  }

  /** The header row followed by one row per employee, in collection order. */
  function CsvTable(employees: seq<Employee>): (r: seq<seq<string>>)
    ensures |r| == |employees| + 1 && r[0] == CsvHeader
    ensures forall i :: 0 <= i < |employees| ==> r[i + 1] == CsvCells(employees[i])
  {
    [CsvHeader] + seq(|employees|, i requires 0 <= i < |employees| => CsvCells(employees[i]))
  }

  /** The text `handleExportCsv` downloads; nothing for an empty collection. */
  function ExportCsv(employees: seq<Employee>): (r: Option<string>)
    ensures r.None? <==> employees == []
  {
    if employees == [] then None else Some(EncodeDocument(CsvTable(employees)))
  }

  /** The exported text reads back, record by record, as the header and the employees' cells. */
  lemma ExportCsvRoundTrip(employees: seq<Employee>)
    requires employees != []
    ensures ReadDocument(ExportCsv(employees).value) == Some(CsvTable(employees))
  {
    var rows := CsvTable(employees);
    assert rows[|rows| - 1] != [""] by {
      assert |rows[|rows| - 1]| == 5;
    }
    DocumentRoundTrip(rows);
  }

  /** `String(n)` never holds a carriage return. */
  lemma NumberTextHasNoCarriageReturn(n: Number)
    ensures '\r' !in NumberToString(n)
  {
    var r := NumberToString(n);
    if n.Finite? {
      forall i | 0 <= i < |r|
        ensures r[i] != '\r'
      {
        if i > 0 && !AllDigits(r) {
          assert r[1..][i - 1] == r[i];
        }
      }
    }
  }

  /** The cells of an employee whose id, name and city hold no carriage return. */
  predicate HasNoCarriageReturn(e: Employee) {
    '\r' !in e.id && '\r' !in e.name && '\r' !in e.city
  }

  /** `handleExportCsv` as written: every cell goes through `escapeCsvValue`. */
  function EncodeRecordAsWritten(cells: seq<string>): string {
    Join(seq(|cells|, i requires 0 <= i < |cells| => EscapeCsvValue(cells[i])), ",")
  }

  function EncodeDocumentAsWritten(rows: seq<seq<string>>): string {
    Join(seq(|rows|, i requires 0 <= i < |rows| => EncodeRecordAsWritten(rows[i])), CRLF)
  }

  /** The text the export as written downloads; nothing for an empty collection. */
  function ExportCsvAsWritten(employees: seq<Employee>): (r: Option<string>)
    ensures r.None? <==> employees == []
  {
    if employees == [] then None else Some(EncodeDocumentAsWritten(CsvTable(employees)))
  }

  lemma EncodeRecordAsWrittenSplit(cells: seq<string>, t: string)
    requires |cells| >= 2
    ensures EncodeRecordAsWritten(cells) + t
            == EscapeCsvValue(cells[0]) + ([','] + (EncodeRecordAsWritten(cells[1..]) + t))
  {
    var e := seq(|cells|, i requires 0 <= i < |cells| => EscapeCsvValue(cells[i]));
    assert e[1..] == seq(|cells| - 1, i requires 0 <= i < |cells| - 1 => EscapeCsvValue(cells[1..][i]));
    Regroup(EscapeCsvValue(cells[0]), ",", EncodeRecordAsWritten(cells[1..]), t);
  }

  lemma EncodeDocumentAsWrittenCons(rows: seq<seq<string>>)
    requires |rows| >= 2
    ensures EncodeDocumentAsWritten(rows)
            == EncodeRecordAsWritten(rows[0]) + CRLF + EncodeDocumentAsWritten(rows[1..])
  {
    var e := seq(|rows|, i requires 0 <= i < |rows| => EncodeRecordAsWritten(rows[i]));
    assert e[1..] == seq(|rows| - 1, i requires 0 <= i < |rows| - 1 => EncodeRecordAsWritten(rows[1..][i]));
  }

  lemma EncodeDocumentAsWrittenSplit(rows: seq<seq<string>>)
    requires |rows| >= 2
    ensures EncodeDocumentAsWritten(rows)
            == EncodeRecordAsWritten(rows[0]) + (CRLF + EncodeDocumentAsWritten(rows[1..]))
  {
    EncodeDocumentAsWrittenCons(rows);
  }

  /** Without carriage returns, a row is written the same by both escapes. */
  lemma EncodeRecordAgrees(cells: seq<string>)
    requires forall i :: 0 <= i < |cells| ==> '\r' !in cells[i]
    ensures EncodeRecordAsWritten(cells) == EncodeRecord(cells)
  {
    forall i | 0 <= i < |cells|
      ensures EscapeCsvValue(cells[i]) == EscapeCsvField(cells[i])
    {
      EscapeAgreesWithoutCarriageReturn(cells[i]);
    }
    assert seq(|cells|, i requires 0 <= i < |cells| => EscapeCsvValue(cells[i]))
        == seq(|cells|, i requires 0 <= i < |cells| => EscapeCsvField(cells[i]));
  }

  /** The cells written for an employee without carriage returns hold none. */
  lemma CsvCellsHaveNoCarriageReturn(e: Employee)
    requires HasNoCarriageReturn(e)
    ensures forall j :: 0 <= j < |CsvCells(e)| ==> '\r' !in CsvCells(e)[j]
  {
    NumberTextHasNoCarriageReturn(e.salary);
    if e.age.Some? {
      NumberTextHasNoCarriageReturn(e.age.value);
    }
  }

  lemma HeaderHasNoCarriageReturn()
    ensures forall j :: 0 <= j < |CsvHeader| ==> '\r' !in CsvHeader[j]
  {
  }

  /**
   * When no id, name or city holds a carriage return, the export as written
   * downloads the same text as the corrected one.
   */
  lemma ExportCsvAsWrittenAgrees(employees: seq<Employee>)
    requires forall i :: 0 <= i < |employees| ==> HasNoCarriageReturn(employees[i])
    ensures ExportCsvAsWritten(employees) == ExportCsv(employees)
  {
    if employees != [] {
      var rows := CsvTable(employees);
      forall i | 0 <= i < |rows|
        ensures EncodeRecordAsWritten(rows[i]) == EncodeRecord(rows[i])
      {
        if i == 0 {
          HeaderHasNoCarriageReturn();
        } else {
          CsvCellsHaveNoCarriageReturn(employees[i - 1]);
        }
        EncodeRecordAgrees(rows[i]);
      }
      assert seq(|rows|, i requires 0 <= i < |rows| => EncodeRecordAsWritten(rows[i]))
          == seq(|rows|, i requires 0 <= i < |rows| => EncodeRecord(rows[i]));
    }
  }

  /** Without carriage returns, the text the export as written downloads reads back as the header and the employees' cells. */
  lemma ExportCsvAsWrittenRoundTrip(employees: seq<Employee>)
    requires employees != []
    requires forall i :: 0 <= i < |employees| ==> HasNoCarriageReturn(employees[i])
    ensures ReadDocument(ExportCsvAsWritten(employees).value) == Some(CsvTable(employees))
  {
    ExportCsvAsWrittenAgrees(employees);
    ExportCsvRoundTrip(employees);
  }

  /** A non-escaped field that runs into a carriage return not followed by a line feed ends the record unreadably. */
  lemma BareCarriageReturnUnreadable(a: string, rest: string)
    requires IsPlain(a) && rest != [] && rest[0] != '\n'
    ensures ReadRecord(a + (['\r'] + rest)) == None
  {
    var t := ['\r'] + rest;
    PlainRoundTrip(a, t);
    assert (a + t)[0] != '"' by {
      if a == [] {
        assert a + t == t;
      } else {
        assert (a + t)[0] == a[0];
      }
    }
    assert t[1] == rest[0];
  }

  /** A plain field holds none of the delimiters. */
  lemma PlainHasNoDelimiter(v: string)
    requires IsPlain(v)
    ensures '"' !in v && ',' !in v && '\n' !in v
  {
    forall c | c in v
      ensures !IsDelimiter(c)
    {
      var k :| 0 <= k < |v| && v[k] == c;
    }
  }

  /** A name with a carriage return between two plain parts is written without quotes. */
  lemma CarriageReturnNameUnquoted(a: string, b: string)
    requires IsPlain(a) && IsPlain(b)
    ensures EscapeCsvValue(a + "\r" + b) == a + "\r" + b
  {
    var name := a + "\r" + b;
    PlainHasNoDelimiter(a);
    PlainHasNoDelimiter(b);
    ContainsChar(name, '"');
    ContainsChar(name, ',');
    ContainsChar(name, '\n');
  }

  /** Such a name, followed by a comma and any cells, ends its record unreadably. */
  lemma CarriageReturnNameUnreadable(a: string, b: string, tail: string)
    requires IsPlain(a) && IsPlain(b) && b != []
    ensures ReadRecord((a + "\r" + b) + ([','] + tail)) == None
  {
    var rest := b + ([','] + tail);
    assert (a + "\r" + b) + ([','] + tail) == a + (['\r'] + rest);
    assert rest[0] == b[0];
    BareCarriageReturnUnreadable(a, rest);
  }

  /** A field, a comma and an unreadable record make an unreadable record. */
  lemma UnreadableAfterComma(first: string, v: string, y: string)
    requires ReadField(first + ([','] + y)) == Some((v, [','] + y))
    requires ReadRecord(y) == None
    ensures ReadRecord(first + ([','] + y)) == None
  {
    ReadRecordComma(first + ([','] + y), v, [','] + y);
    assert ([','] + y)[1..] == y;
  }

  /** A row whose second cell holds a carriage return between two plain parts does not read back. */
  lemma RecordWithCarriageReturnUnreadable(cells: seq<string>, a: string, b: string)
    requires |cells| >= 3 && '\r' !in cells[0]
    requires IsPlain(a) && IsPlain(b) && b != [] && cells[1] == a + "\r" + b
    ensures ReadRecord(EncodeRecordAsWritten(cells)) == None
  {
    var row := EncodeRecordAsWritten(cells);
    var y := EncodeRecordAsWritten(cells[1..]);
    var tail := EncodeRecordAsWritten(cells[1..][1..]);
    EncodeRecordAsWrittenSplit(cells, []);
    EncodeRecordAsWrittenSplit(cells[1..], []);
    assert row + [] == row && y + [] == y && tail + [] == tail;
    CarriageReturnNameUnquoted(a, b);
    assert y == (a + "\r" + b) + ([','] + tail);
    CarriageReturnNameUnreadable(a, b, tail);
    EscapeAgreesWithoutCarriageReturn(cells[0]);
    FieldRoundTrip(cells[0], [','] + y);
    UnreadableAfterComma(EscapeCsvValue(cells[0]), cells[0], y);
  }

  /**
   * The export as written loses a collection holding a name with a carriage
   * return between two plain parts: the corrected export reads back, the
   * text as written is malformed and reads back as nothing.
   */
  lemma ExportCsvAsWrittenNotRecovered(e: Employee, a: string, b: string)
    requires '\r' !in e.id
    requires IsPlain(a) && IsPlain(b) && b != [] && e.name == a + "\r" + b
    ensures ReadDocument(ExportCsv([e]).value) == Some(CsvTable([e]))
    ensures ReadDocument(ExportCsvAsWritten([e]).value) == None
  {
    ExportCsvRoundTrip([e]);
    var rows := CsvTable([e]);
    var row := EncodeRecordAsWritten(rows[1]);
    EncodeDocumentAsWrittenSplit(rows);
    assert EncodeDocumentAsWritten(rows[1..]) == row;
    HeaderHasNoCarriageReturn();
    EncodeRecordAgrees(CsvHeader);
    RecordBeforeBreak(CsvHeader, row);
    RecordWithCarriageReturnUnreadable(rows[1], a, b);
    assert row != [];
    ReadDocumentNext(ExportCsvAsWritten([e]).value, CsvHeader, CRLF + row);
    assert (CRLF + row)[2..] == row;
  }

  /** A raw name cell "A\rB" survives normalisation unchanged. */
  lemma CarriageReturnNameIsKept(row: RawRow)
    requires row.ArrayRow? && |row.cells| >= 6
    requires CellText(row.cells[0]) == "A\rB" && Trim(CellText(row.cells[3])) != ""
    ensures NormalizeRow(row).Some? && NormalizeRow(row).value.name == "A\rB"
  {
    CarriageReturnNameIsTrimmed();
  }

  lemma CarriageReturnNameIsTrimmed()
    ensures Trim("A\rB") == "A\rB"
  {
    assert IsTrimmed("A\rB");
    TrimOfTrimmed("A\rB");
  }

  /**
   * A finite salary cell reads back as the same salary, and an empty cell as
   * 0; a value at or beyond the overflow threshold, which no double holds,
   * reads back as the infinity of its sign.
   */
  lemma SalaryCellRoundTrip(salary: Number)
    ensures !salary.Finite? ==> ParseNumber(SalaryCell(salary)) == Finite(0)
    ensures salary.Finite? && -Overflow < salary.value < Overflow ==> ParseNumber(SalaryCell(salary)) == salary
    ensures salary.Finite? && !(-Overflow < salary.value < Overflow) ==> ParseNumber(SalaryCell(salary)) == Infinity(salary.value < 0)
  {
    NumberRoundTrip(salary);
  }

  // ---------------------------------------------------------------------
  // Search
  // ---------------------------------------------------------------------

  /** The row test: the lowercased name or city contains the lowercased query. */
  predicate Matches(e: Employee, q: string) {
    Contains(ToLower(e.name), q) || Contains(ToLower(e.city), q)
  }

  /** `filteredEmployees` for a search query. */
  function FilterEmployees(employees: seq<Employee>, query: string): (r: seq<Employee>)
    ensures AllSpace(query) ==> r == employees
    ensures |r| <= |employees|
    ensures !AllSpace(query) ==> forall e :: e in r ==> e in employees && Matches(e, ToLower(Trim(query)))
  {
    if Trim(query) == [] then employees
    else
      var q := ToLower(Trim(query));
      FilterMembers(e => Matches(e, q), employees);
      Filter(e => Matches(e, q), employees)
  }

  /** An employee whose name or city contains the query text, in any letter case, matches it. */
  lemma MatchesContained(e: Employee, a: string, x: string, b: string)
    requires e.name == a + x + b || e.city == a + x + b
    ensures Matches(e, ToLower(x))
  {
    var hay := if e.name == a + x + b then e.name else e.city;
    var low := ToLower(hay);
    assert low[|a|..|a| + |x|] == ToLower(x);
    assert OccursAt(low, ToLower(x), |a|);
  }

  /** A blank or whitespace-only query shows the whole collection. */
  lemma BlankQueryKeepsAll(employees: seq<Employee>, query: string)
    requires AllSpace(query)
    ensures FilterEmployees(employees, query) == employees
  {
  }

  /** Any other query keeps exactly the employees whose name or city contains it, ignoring case. */
  lemma FilterKeepsMatches(employees: seq<Employee>, query: string, e: Employee)
    requires !AllSpace(query)
    ensures e in FilterEmployees(employees, query) <==> e in employees && Matches(e, ToLower(Trim(query)))
  {
    var q := ToLower(Trim(query));
    FilterMembers(e => Matches(e, q), employees);
  }

  /** The filter works row by row: the result keeps the collection's order. */
  lemma FilterPreservesOrder(a: seq<Employee>, b: seq<Employee>, query: string)
    ensures FilterEmployees(a + b, query) == FilterEmployees(a, query) + FilterEmployees(b, query)
  {
    if Trim(query) != [] {
      var q := ToLower(Trim(query));
      FilterAppend(e => Matches(e, q), a, b);
    }
  }

  lemma FilterIdempotentLemma(employees: seq<Employee>, query: string)
    ensures FilterEmployees(FilterEmployees(employees, query), query) == FilterEmployees(employees, query)
  {
    if Trim(query) != [] {
      var q := ToLower(Trim(query));
      FilterIdempotent(e => Matches(e, q), employees);
    }
  }

  const SearchStorageKey := "employee_search_query"

  /** The search input a fresh list page starts with. */
  function InitialSearchInput(storage: map<string, string>): (r: string)
    ensures SearchStorageKey in storage ==> r == storage[SearchStorageKey]
    ensures SearchStorageKey !in storage ==> r == ""
  {
    Get(storage, SearchStorageKey).GetOr("")
  }

  /** The storage once the search input has been applied: the trimmed query, or no key when it is blank. */
  function PersistedSearch(storage: map<string, string>, input: string): (r: map<string, string>)
    ensures forall k :: k != SearchStorageKey ==> Get(r, k) == Get(storage, k)
    ensures Get(r, SearchStorageKey) == (if AllSpace(input) then None else Some(Trim(input)))
  {
    var trimmed := Trim(input);
    if trimmed != [] then storage[SearchStorageKey := trimmed] else storage - {SearchStorageKey}
  }

  /** A page opened after the search was persisted shows the same rows as the page that persisted it. */
  lemma PersistedSearchReplays(storage: map<string, string>, input: string, employees: seq<Employee>)
    ensures FilterEmployees(employees, InitialSearchInput(PersistedSearch(storage, input)))
            == FilterEmployees(employees, input)
  {
    TrimIdempotent(input);
  }

  /** The search state of a mounted list page. */
  class SearchBox {
    var searchInput: string
    var searchQuery: string
    const window: Window

    constructor (window: Window)
      ensures this.window == window
      ensures searchInput == InitialSearchInput(window.storage) && searchQuery == searchInput
    {
      this.window := window;
      var stored := window.GetItem(SearchStorageKey);
      searchInput := stored.GetOr("");
      searchQuery := searchInput;
    }

    /** A keystroke: the input changes, the applied query does not yet. */
    method Type(value: string)
      modifies this`searchInput
      ensures searchInput == value
    {
      searchInput := value;
    }

    /** The debounce timer firing after typing paused: apply and persist the input. */
    method ApplySearch()
      modifies this`searchQuery, window`storage
      ensures searchQuery == searchInput
      ensures window.storage == PersistedSearch(old(window.storage), searchInput)
    {
      searchQuery := searchInput;
      var trimmed := Trim(searchInput);
      if trimmed != [] {
        window.SetItem(SearchStorageKey, trimmed);
      } else {
        window.RemoveItem(SearchStorageKey);
      }
    }

    /** The rows the page shows for the applied query. */
    function Visible(employees: seq<Employee>): seq<Employee>
      reads this
    {
      FilterEmployees(employees, searchQuery)
    }
  }
}
