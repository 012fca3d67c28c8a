/**
 * The employee details page: which id it shows (the route's, else the last
 * one viewed), the first employee with that id, remembering it as the last
 * viewed, and the navigation to the photo page.
 */
module DetailsPage {
  import opened Wrappers
  import opened Browser
  import opened EmployeeService

  const LastViewedKey := "last_viewed_employee_id"

  /** The id the page resolves: the route id when present, else the stored last-viewed id, else none. */
  function EffectiveId(routeId: Option<string>, storage: map<string, string>): (r: Option<string>)
    ensures routeId.Some? ==> r == routeId
    ensures routeId.None? ==> r == Get(storage, LastViewedKey)
  {
    match routeId
    case Some(id) => Some(id)
    case None => Get(storage, LastViewedKey)
  }

  /** The position of the first employee whose id is `key`. */
  function FindIndex(employees: seq<Employee>, key: string): (r: Option<nat>)
    ensures r.Some? ==> r.value < |employees| && employees[r.value].id == key
    ensures r.Some? ==> forall j :: 0 <= j < r.value ==> employees[j].id != key
    ensures r.None? ==> forall j :: 0 <= j < |employees| ==> employees[j].id != key
  {
    if employees == [] then None
    else if employees[0].id == key then Some(0)
    else
      match FindIndex(employees[1..], key)
      case None => None
      case Some(i) => Some(i + 1)
  }

  /** `employees.find(...)` against the effective id, or against "" when there is none. */
  function FindEmployee(employees: seq<Employee>, effectiveId: Option<string>): (r: Option<Employee>)
    ensures r.Some? <==> FindIndex(employees, effectiveId.GetOr("")).Some?
    ensures r.Some? ==> r.value == employees[FindIndex(employees, effectiveId.GetOr("")).value]
  {
    match FindIndex(employees, effectiveId.GetOr(""))
    case None => None
    case Some(i) => Some(employees[i])
  }

  /** With no effective id nothing is found among employees that all have an id, as normalised ones do. */
  lemma NoIdFindsNothing(rows: seq<RawRow>)
    ensures FindEmployee(Normalized(rows), None) == None
  {
    NormalizedWellFormed(rows);
    var employees := Normalized(rows);
    forall j | 0 <= j < |employees|
      ensures employees[j].id != ""
    {
      assert WellFormed(employees[j]);
    }
  }

  /** The storage after the effect that remembers the employee shown. */
  function RememberViewed(storage: map<string, string>, employee: Option<Employee>): map<string, string> {
    match employee
    case Some(e) => storage[LastViewedKey := e.id]
    case None => storage
  }

  /**
   * Opening the details page later without a route id shows the employee
   * that was remembered: the stored id leads to the same first match.
   */
  lemma RememberedEmployeeFoundAgain(employees: seq<Employee>, effectiveId: Option<string>, storage: map<string, string>)
    requires FindEmployee(employees, effectiveId).Some?
    ensures FindEmployee(employees, EffectiveId(None, RememberViewed(storage, FindEmployee(employees, effectiveId))))
            == FindEmployee(employees, effectiveId)
  {
  }

  /** The capture-photo navigation: state carries the route id only when there is a non-empty one. */
  function CapturePhotoNavigation(routeId: Option<string>): (r: Navigation)
    ensures r.path == "/photo" && !r.replace
    ensures r.employeeId.Some? <==> routeId.Some? && routeId.value != ""
    ensures r.employeeId.Some? ==> r.employeeId == routeId
  {
    if routeId.None? || routeId.value == "" then Navigation("/photo", false, None)
    else Navigation("/photo", false, routeId)
  }

  /** A mounted details page for a route with or without an `:id`. */
  class DetailsView {
    const routeId: Option<string>
    const window: Window

    constructor (routeId: Option<string>, window: Window)
      ensures this.routeId == routeId && this.window == window
    {
      this.routeId := routeId;
      this.window := window;
    }

    /**
     * A render with the given employees, followed by the last-viewed effect:
     * resolves the id, finds the employee, and remembers it when found.
     */
    method Show(employees: seq<Employee>) returns (employee: Option<Employee>)
      modifies window`storage
      ensures employee == FindEmployee(employees, EffectiveId(routeId, old(window.storage)))
      ensures window.storage == RememberViewed(old(window.storage), employee)
    {
      var storedId := window.GetItem(LastViewedKey);
      var effectiveId := if routeId.Some? then routeId else storedId;
      employee := FindEmployee(employees, effectiveId);
      if employee.Some? {
        window.SetItem(LastViewedKey, employee.value.id);
      }
    }

    /** `handleCapturePhoto`. */
    method CapturePhoto()
      modifies window`navigations
      ensures window.navigations == old(window.navigations) + [CapturePhotoNavigation(routeId)]
    {
      if routeId.None? || routeId.value == "" {
        window.Navigate("/photo", false, None);
        return;
      }
      window.Navigate("/photo", false, routeId);
    }
  }
}
