/**
 * The salary bar chart: the first employees of the collection, those with
 * a finite salary, each as a short label and its salary.
 */
module BarChart {
  import opened Wrappers
  import opened Text
  import opened JsNumber
  import opened Sequences
  import opened EmployeeService

  datatype ChartDatum = ChartDatum(name: string, salary: int)

  /** How many employees the chart page considers. */
  const ChartLimit: nat := 10

  const Ellipsis: char := '\U{2026}'

  /**
   * The bar label: a name longer than 12 characters is cut to its first 11,
   * loses its trailing whitespace and gains an ellipsis; an empty label
   * becomes "Unknown".
   */
  function ChartLabel(name: string): (r: string)
    ensures |r| <= 12 && r != []
    ensures 0 < |name| <= 12 ==> r == name
    ensures name == [] ==> r == "Unknown"
    ensures |name| > 12 ==>
              && r[|r| - 1] == Ellipsis && |r| - 1 <= 11 && StartsWith(name, r[..|r| - 1])
              && (forall i :: |r| - 1 <= i < 11 ==> IsSpace(name[i]))
              && (|r| >= 2 ==> !IsSpace(r[|r| - 2]))
  {
    var trimmedName := if |name| > 12 then TrimEnd(name[..11]) + [Ellipsis] else name;
    if trimmedName == [] then "Unknown" else trimmedName
  }

  /**
   * A long name whose first 11 characters are all blank is labelled by the
   * ellipsis alone, never "Unknown".
   */
  lemma BlankLongLabel(name: string)
    requires |name| > 12 && forall i :: 0 <= i < 11 ==> IsSpace(name[i])
    ensures ChartLabel(name) == [Ellipsis]
  {
  }

  /** One bar, or `None` for an employee whose salary is not finite. */
  function ChartRow(e: Employee): (r: Option<ChartDatum>)
    ensures r.Some? <==> e.salary.Finite?
    ensures r.Some? ==> r.value.name == ChartLabel(e.name) && r.value.salary == e.salary.value
  {
    if e.salary.Finite? then Some(ChartDatum(ChartLabel(e.name), e.salary.value)) else None
  }

  /** `employees.slice(0, limit)`. */
  function Take<T>(s: seq<T>, limit: nat): (r: seq<T>)
    ensures |r| == if limit < |s| then limit else |s|
    ensures r == s[..|r|]
  {
    if limit < |s| then s[..limit] else s
  }

  /** `buildChartData`. */
  function BuildChartData(employees: seq<Employee>, limit: nat): (r: seq<ChartDatum>)
    ensures |r| <= limit && |r| <= |employees|
  {
    FilterMap(ChartRow, Take(employees, limit))
  }

  /** The data the chart page draws. */
  function ChartData(employees: seq<Employee>): (r: seq<ChartDatum>)
    ensures |r| <= ChartLimit
  {
    BuildChartData(employees, ChartLimit)
  }

  /** A bar comes from one of the first `limit` employees, one with a finite salary. */
  lemma ChartMembers(employees: seq<Employee>, limit: nat, d: ChartDatum)
    ensures d in BuildChartData(employees, limit) <==>
              exists i :: 0 <= i < limit && i < |employees| && employees[i].salary.Finite?
                          && d == ChartDatum(ChartLabel(employees[i].name), employees[i].salary.value)
  {
    var base := Take(employees, limit);
    FilterMapMembers(ChartRow, base, d);
    if exists i :: 0 <= i < limit && i < |employees| && employees[i].salary.Finite?
                   && d == ChartDatum(ChartLabel(employees[i].name), employees[i].salary.value) {
      var i :| 0 <= i < limit && i < |employees| && employees[i].salary.Finite?
               && d == ChartDatum(ChartLabel(employees[i].name), employees[i].salary.value);
      assert base[i] == employees[i];
    }
  }

  /** Employees after the first `limit` never influence the chart. */
  lemma ChartIgnoresTail(employees: seq<Employee>, more: seq<Employee>, limit: nat)
    requires |employees| >= limit
    ensures BuildChartData(employees + more, limit) == BuildChartData(employees, limit)
  {
    assert Take(employees + more, limit) == Take(employees, limit);
  }

  /**
   * Within the limit, the bars of a collection are the bars of its first
   * part followed by those of the rest: collection order, no sorting.
   */
  lemma ChartKeepsOrder(a: seq<Employee>, b: seq<Employee>, limit: nat)
    requires |a| + |b| <= limit
    ensures BuildChartData(a + b, limit) == BuildChartData(a, limit) + BuildChartData(b, limit)
  {
    FilterMapAppend(ChartRow, a, b);
  }
}
