/**
 * The employee data source: turns the rows of the remote table into
 * employee records. The POST request itself is not modelled; its outcome
 * is an `ApiResponse` given as input.
 */
module EmployeeService {
  import opened Wrappers
  import opened Text
  import opened JsNumber
  import opened Sequences

  /** An employee record; `age` is optional because consumers guard against its absence. */
  datatype Employee = Employee(id: string, name: string, city: string, salary: Number, age: Option<Number>)

  /** One cell of a raw row: a string, `null`/`undefined`, or any other value together with its `String(value)` text. */
  datatype Cell = Str(text: string) | Nullish | OtherValue(shown: string)

  /** A raw row is an array of cells, or some value that is not an array. */
  datatype RawRow = ArrayRow(cells: seq<Cell>) | NotArray

  /**
   * The outcome of the POST: a response whose `TABLE_DATA.data` is a table
   * of rows (`None` when it is missing or not an array), or a transport error.
   */
  datatype ApiResponse = Response(table: Option<seq<RawRow>>) | TransportError

  const FetchFailedMessage := "Failed to fetch employees"

  /** `String(cell ?? "")`. */
  function CellText(c: Cell): string {
    match c
    case Str(t) => t
    case Nullish => ""
    case OtherValue(shown) => shown
  }

  /** The salary text with every '$' and ',' removed and surrounding whitespace trimmed. */
  function CleanSalaryText(s: string): string {
    Trim(StripCurrency(s))
  }

  /**
   * `parseSalary`: non-strings give 0; a string is read as a number once
   * '$' and ',' are gone, and anything that is not a finite number gives 0.
   */
  function ParseSalary(c: Cell): (r: Number)
    ensures r.Finite?
    ensures !c.Str? ==> r == Finite(0)
    ensures c.Str? && AllDigits(CleanSalaryText(c.text)) && DecimalValue(CleanSalaryText(c.text)) < Overflow
            ==> r == Finite(DecimalValue(CleanSalaryText(c.text)))
    ensures c.Str? && !ParseNumber(CleanSalaryText(c.text)).Finite? ==> r == Finite(0)
    ensures c.Str? && ParseNumber(CleanSalaryText(c.text)).Finite? ==> r == ParseNumber(CleanSalaryText(c.text))
  {
    if !c.Str? then Finite(0)
    else
      var n := ParseNumber(CleanSalaryText(c.text));
      if n.Finite? then n else Finite(0)
  }

  /** Currency symbols and thousands separators anywhere in the text do not change the salary. */
  lemma ParseSalaryIgnoresSeparator(a: string, b: string, sep: char)
    requires sep == '$' || sep == ','
    ensures ParseSalary(Str(a + [sep] + b)) == ParseSalary(Str(a + b))
  {
    StripCurrencyDropsSeparator(a, b, sep);
  }

  /**
   * `deriveAgeFromId`: the digits of the id read as a number `n` give
   * `22 + n % 35`; a number too large to be finite gives 30.
   */
  function DeriveAgeFromId(id: string): (r: int)
    ensures 22 <= r <= 56
    ensures DecimalValue(Digits(id)) < Overflow ==> r == 22 + DecimalValue(Digits(id)) % 35
    ensures DecimalValue(Digits(id)) >= Overflow ==> r == 30
  {
    var num := ParseNumber(Digits(id));
    // num.value is non-negative, so JavaScript's `%` and Dafny's `%` agree here.
    if !num.Finite? then 30 else 22 + num.value % 35
  }

  /** The age depends only on the digits of the id: any other character can be dropped. */
  lemma AgeIgnoresNonDigit(a: string, b: string, c: char)
    requires !IsDigit(c)
    ensures DeriveAgeFromId(a + [c] + b) == DeriveAgeFromId(a + b)
  {
    DigitsDropNonDigit(a, b, c);
  }

  /** The checks of one loop iteration: the record a row yields, or `None` when it is skipped. */
  function NormalizeRow(row: RawRow): (r: Option<Employee>)
    ensures r.Some? <==> row.ArrayRow? && |row.cells| >= 6
                         && Trim(CellText(row.cells[0])) != "" && Trim(CellText(row.cells[3])) != ""
    ensures r.Some? ==>
              r.value.name == Trim(CellText(row.cells[0]))
                     && r.value.city == Trim(CellText(row.cells[2]))
                     && r.value.id == Trim(CellText(row.cells[3]))
                     && r.value.salary == ParseSalary(row.cells[5])
                     && r.value.age == Some(Finite(DeriveAgeFromId(r.value.id)))
  {
    if !row.ArrayRow? || |row.cells| < 6 then None
    else
      var name := Trim(CellText(row.cells[0]));
      var city := Trim(CellText(row.cells[2]));
      var id := Trim(CellText(row.cells[3]));
      if name == "" || id == "" then None
      else
        Some(Employee(id, name, city, ParseSalary(row.cells[5]), Some(Finite(DeriveAgeFromId(id)))))
  }

  /** What every normalised record satisfies. */
  ghost predicate WellFormed(e: Employee) {
    && e.name != "" && IsTrimmed(e.name)
    && e.id != "" && IsTrimmed(e.id)
    && IsTrimmed(e.city)
    && e.salary.Finite?
    && e.age == Some(Finite(DeriveAgeFromId(e.id)))
  }

  lemma NormalizeRowWellFormed(row: RawRow)
    ensures NormalizeRow(row).Some? ==> WellFormed(NormalizeRow(row).value)
  {
  }

  /** The records the loop has pushed after visiting `rows`, in push order. */
  function Normalized(rows: seq<RawRow>): seq<Employee> {
    FilterMap(NormalizeRow, rows)
  }

  /** Normalisation never adds records, and every record it emits is well formed. */
  lemma NormalizedWellFormed(rows: seq<RawRow>)
    ensures |Normalized(rows)| <= |rows|
    ensures forall e :: e in Normalized(rows) ==> WellFormed(e)
  {
    forall e | e in Normalized(rows)
      ensures WellFormed(e)
    {
      FilterMapMembers(NormalizeRow, rows, e);
      var i :| 0 <= i < |rows| && NormalizeRow(rows[i]) == Some(e);
      NormalizeRowWellFormed(rows[i]);
    }
  }

  /** A record is in the output exactly when some input row yields it. */
  lemma NormalizedMembers(rows: seq<RawRow>, e: Employee)
    ensures e in Normalized(rows) <==> exists i :: 0 <= i < |rows| && NormalizeRow(rows[i]) == Some(e)
  {
    FilterMapMembers(NormalizeRow, rows, e);
  }

  /**
   * Inserting a row between two tables adds exactly its record at that
   * position, or nothing when the row is dropped: the output keeps the
   * input order and nothing is merged or deduplicated.
   */
  lemma NormalizedInsert(a: seq<RawRow>, row: RawRow, b: seq<RawRow>)
    ensures NormalizeRow(row).Some? ==>
              Normalized(a + [row] + b) == Normalized(a) + [NormalizeRow(row).value] + Normalized(b)
    ensures NormalizeRow(row).None? ==> Normalized(a + [row] + b) == Normalized(a + b)
  {
    FilterMapInsert(NormalizeRow, a, row, b);
  }

  /** The row-normalisation loop of `fetchEmployees`. */
  method NormalizeRows(rows: seq<RawRow>) returns (employees: seq<Employee>)
    ensures employees == Normalized(rows)
  {
    employees := [];
    for i := 0 to |rows|
      invariant employees == Normalized(rows[..i])
    {
      var row := rows[i];
      assert rows[..i + 1][..i] == rows[..i];
      if !row.ArrayRow? || |row.cells| < 6 {
        continue;
      }
      var name := Trim(CellText(row.cells[0]));
      var city := Trim(CellText(row.cells[2]));
      var id := Trim(CellText(row.cells[3]));
      var salary := ParseSalary(row.cells[5]);
      if name == "" || id == "" {
        continue;
      }
      employees := employees + [Employee(id, name, city, salary, Some(Finite(DeriveAgeFromId(id))))];
    }
    assert rows[..|rows|] == rows;
  }

  /**
   * `fetchEmployees`: a transport error or a missing or malformed table
   * gives the single error "Failed to fetch employees" and no records;
   * otherwise the normalised rows.
   */
  method FetchEmployees(response: ApiResponse) returns (r: Result<seq<Employee>, string>)
    ensures r.Failure? <==> response.TransportError? || response.table.None?
    ensures r.Failure? ==> r.error == FetchFailedMessage
    ensures r.Success? ==> r.value == Normalized(response.table.value)
  {
    if response.TransportError? || response.table.None? {
      return Failure(FetchFailedMessage);
    }
    var employees := NormalizeRows(response.table.value);
    return Success(employees);
  }
}
