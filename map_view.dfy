/**
 * The employee map: employees are counted per city, for the cities of a
 * fixed coordinate table, and each counted city becomes one marker, in the
 * order the cities first appear.
 */
module MapView {
  import opened Wrappers
  import opened Text
  import opened Sequences
  import opened EmployeeService

  /** A position in degrees; the values are only carried to the map widget. */
  datatype Coord = Coord(lat: real, lng: real)

  datatype CityMarker = CityMarker(city: string, count: nat, position: Coord)

  /** `CITY_COORDINATES`: the seven cities the map knows, keyed by their exact names. */
  const CityCoordinates: map<string, Coord> := map[
    "London" := Coord(51.5074, -0.1278),
    "Tokyo" := Coord(35.6762, 139.6503),
    "Edinburgh" := Coord(55.9533, -3.1883),
    "New York" := Coord(40.7128, -74.006),
    "San Francisco" := Coord(37.7749, -122.4194),
    "Singapore" := Coord(1.3521, 103.8198),
    "Sidney" := Coord(-33.8688, 151.2093)
  ]

  lemma CityTableSize()
    ensures |CityCoordinates.Keys| <= 7
  {
  }

  /** The city an employee is counted under: the trimmed city when the table has it. */
  function CountedCity(e: Employee): (r: Option<string>)
    ensures r.Some? <==> Trim(e.city) != [] && Trim(e.city) in CityCoordinates
    ensures r.Some? ==> r.value == Trim(e.city)
  {
    var rawCity := Trim(e.city);
    if rawCity == [] || rawCity !in CityCoordinates then None else Some(rawCity)
  }

  /** The counted cities of the employees, one entry per counted employee, in collection order. */
  function CountedCities(employees: seq<Employee>): seq<string> {
    FilterMap(CountedCity, employees)
  }

  lemma CountedCitiesKnown(employees: seq<Employee>)
    ensures forall c :: c in CountedCities(employees) ==> c in CityCoordinates
  {
    forall c | c in CountedCities(employees)
      ensures c in CityCoordinates
    {
      FilterMapMembers(CountedCity, employees, c);
    }
  }

  /** The cities that get a marker, in order of first appearance. */
  function MarkerCities(employees: seq<Employee>): (r: seq<string>)
    ensures forall c :: c in r ==> c in CityCoordinates
  {
    var cities := CountedCities(employees);
    CountedCitiesKnown(employees);
    forall c | c in FirstAppearance(cities) ensures c in cities {
      FirstAppearanceOccurrences(cities, c);
    }
    FirstAppearance(cities)
  }

  /**
   * The markers: one per counted city in order of first appearance, with the
   * number of employees counted under it and its table position.
   */
  function Markers(employees: seq<Employee>): seq<CityMarker> {
    var cities := CountedCities(employees);
    var order := MarkerCities(employees);
    seq(|order|, i requires 0 <= i < |order| =>
      CityMarker(order[i], multiset(cities)[order[i]], CityCoordinates[order[i]]))
  }

  /** Visiting one more employee adds its counted city, if any, at the end. */
  lemma CountedCitiesStep(employees: seq<Employee>, i: nat)
    requires i < |employees|
    ensures CountedCity(employees[i]).None? ==>
              CountedCities(employees[..i + 1]) == CountedCities(employees[..i])
    ensures CountedCity(employees[i]).Some? ==>
              CountedCities(employees[..i + 1]) == CountedCities(employees[..i]) + [CountedCity(employees[i]).value]
  {
    assert employees[..i + 1][..i] == employees[..i];
  }

  /** `counts` holds, for each city of `cities`, how often it occurs there, and nothing else. */
  ghost predicate CountsOf(counts: map<string, nat>, cities: seq<string>) {
    forall c :: (c in counts <==> c in cities) && (c in counts ==> counts[c] == multiset(cities)[c])
  }

  /** `counts.set(city, (counts.get(city) ?? 0) + 1)` counts one more occurrence. */
  lemma CountsStep(counts: map<string, nat>, cities: seq<string>, city: string)
    requires CountsOf(counts, cities)
    ensures CountsOf(counts[city := (if city in counts then counts[city] else 0) + 1], cities + [city])
  {
    assert multiset(cities + [city]) == multiset(cities) + multiset{city};
  }

  /**
   * The counting loop of the `markers` memo. A JavaScript `Map` keeps its
   * keys in insertion order: `counts` holds the entries and `order` that order.
   */
  method CountCities(employees: seq<Employee>) returns (counts: map<string, nat>, order: seq<string>)
    ensures order == FirstAppearance(CountedCities(employees))
    ensures CountsOf(counts, CountedCities(employees))
  {
    counts := map[];
    order := [];
    ghost var cities: seq<string> := [];
    for i := 0 to |employees|
      invariant cities == CountedCities(employees[..i])
      invariant order == FirstAppearance(cities)
      invariant CountsOf(counts, cities)
    {
      CountedCitiesStep(employees, i);
      var rawCity := Trim(employees[i].city);
      if rawCity == [] {
        continue;
      }
      var coords := Get(CityCoordinates, rawCity);
      if coords.None? {
        continue;
      }
      assert CountedCity(employees[i]) == Some(rawCity);
      FirstAppearanceStep(cities, rawCity);
      CountsStep(counts, cities, rawCity);
      if rawCity !in counts {
        order := order + [rawCity];
      }
      counts := counts[rawCity := (if rawCity in counts then counts[rawCity] else 0) + 1];
      cities := cities + [rawCity];
    }
    assert employees[..|employees|] == employees;
  }

  /** The `markers` memo: the counts, then one marker per entry in key order. */
  method BuildMarkers(employees: seq<Employee>) returns (markers: seq<CityMarker>)
    ensures markers == Markers(employees)
  {
    var counts, order := CountCities(employees);
    assert order == MarkerCities(employees);
    forall c | c in order
      ensures c in counts
    {
      FirstAppearanceOccurrences(CountedCities(employees), c);
    }
    markers := seq(|order|, i requires 0 <= i < |order| =>
      CityMarker(order[i], counts[order[i]], CityCoordinates[order[i]]));
  }

  /** Each city has one marker. */
  lemma MarkersDistinct(employees: seq<Employee>)
    ensures Distinct(MarkerCities(employees))
  {
    var cities := CountedCities(employees);
    forall c ensures multiset(FirstAppearance(cities))[c] <= 1 {
      FirstAppearanceOccurrences(cities, c);
    }
    DistinctFromOccurrences(FirstAppearance(cities));
  }

  /**
   * A city has a marker exactly when some employee is counted under it, and
   * the marker's count is the number of such employees, at least one.
   */
  lemma MarkerCounts(employees: seq<Employee>, c: string)
    ensures c in MarkerCities(employees) <==> c in CountedCities(employees)
    ensures c in MarkerCities(employees) ==> multiset(CountedCities(employees))[c] >= 1
  {
    FirstAppearanceOccurrences(CountedCities(employees), c);
  }

  /** There are never more markers than table cities. */
  lemma AtMostSevenMarkers(employees: seq<Employee>)
    ensures |Markers(employees)| <= 7
  {
    var order := MarkerCities(employees);
    MarkersDistinct(employees);
    DistinctCardinality(order);
    SubsetCardinality((set x | x in order), CityCoordinates.Keys);
    CityTableSize();
  }

  /** The sum of the markers' counts. */
  function TotalCount(markers: seq<CityMarker>): nat {
    if markers == [] then 0 else TotalCount(markers[..|markers| - 1]) + markers[|markers| - 1].count
  }

  lemma {:induction false} TotalCountPrefix(employees: seq<Employee>, k: nat)
    requires k <= |MarkerCities(employees)|
    ensures TotalCount(Markers(employees)[..k])
            == SumOccurrences(MarkerCities(employees)[..k], multiset(CountedCities(employees)))
  {
    if k > 0 {
      var order := MarkerCities(employees);
      assert Markers(employees)[..k][..k - 1] == Markers(employees)[..k - 1];
      assert order[..k][..k - 1] == order[..k - 1];
      TotalCountPrefix(employees, k - 1);
    }
  }

  /** The counts add up to the number of employees placed on the map. */
  lemma MarkerCountsSum(employees: seq<Employee>)
    ensures TotalCount(Markers(employees)) == |CountedCities(employees)|
  {
    var markers := Markers(employees);
    TotalCountPrefix(employees, |markers|);
    assert markers[..|markers|] == markers;
    assert MarkerCities(employees)[..|markers|] == MarkerCities(employees);
    FirstAppearanceCountsAll(CountedCities(employees));
  }

  /** The names every plain JavaScript object inherits from `Object.prototype`. */
  const ObjectPrototypeMembers: set<string> := {
    "constructor", "__defineGetter__", "__defineSetter__", "hasOwnProperty",
    "__lookupGetter__", "__lookupSetter__", "isPrototypeOf", "propertyIsEnumerable",
    "toString", "valueOf", "__proto__", "toLocaleString"
  }

  /**
   * The guard as written: `CITY_COORDINATES[rawCity]` on a plain object is
   * truthy for the table's own keys and for every inherited member.
   */
  function CountedCityAsWritten(e: Employee): (r: Option<string>)
    ensures r.Some? <==> Trim(e.city) != [] && (Trim(e.city) in CityCoordinates || Trim(e.city) in ObjectPrototypeMembers)
  {
    var rawCity := Trim(e.city);
    if rawCity == [] || (rawCity !in CityCoordinates && rawCity !in ObjectPrototypeMembers) then None
    else Some(rawCity)
  }

  /** The cities counted by the loop as written, one per counted employee, in collection order. */
  function CountedCitiesAsWritten(employees: seq<Employee>): seq<string> {
    FilterMap(CountedCityAsWritten, employees)
  }

  /** As written, a counted city is a table key or an inherited member name. */
  lemma CountedCitiesAsWrittenKnown(employees: seq<Employee>)
    ensures forall c :: c in CountedCitiesAsWritten(employees) ==> c in CityCoordinates || c in ObjectPrototypeMembers
  {
    forall c | c in CountedCitiesAsWritten(employees)
      ensures c in CityCoordinates || c in ObjectPrototypeMembers
    {
      FilterMapMembers(CountedCityAsWritten, employees, c);
    }
  }

  /**
   * When no trimmed city is an inherited member name, the loop as written
   * counts exactly what the corrected guard counts, so every marker result
   * proved for the corrected guard holds for it.
   */
  lemma CountedCitiesAsWrittenAgree(employees: seq<Employee>)
    requires forall i :: 0 <= i < |employees| ==> Trim(employees[i].city) !in ObjectPrototypeMembers
    ensures CountedCitiesAsWritten(employees) == CountedCities(employees)
  {
    FilterMapAgree(CountedCityAsWritten, CountedCity, employees);
  }

  /**
   * An employee whose city is "toString" (after trimming) passes the guard as
   * written, so a marker is built for a city the table has no coordinates for.
   */
  lemma PrototypeNamePassesGuard(e: Employee)
    requires Trim(e.city) == "toString"
    ensures CountedCityAsWritten(e) == Some("toString")
    ensures "toString" !in CityCoordinates
    ensures CountedCity(e) == None
  {
  }

  /** A city field spelled exactly "toString" meets the condition above. */
  lemma ToStringIsTrimmed()
    ensures Trim("toString") == "toString"
  {
    assert IsTrimmed("toString");
    TrimOfTrimmed("toString");
  }

  /** An employee whose city field is exactly "toString" is counted as written and not by the corrected guard. */
  lemma ToStringCityPassesGuard(e: Employee)
    requires e.city == "toString"
    ensures CountedCityAsWritten(e) == Some("toString") && CountedCity(e) == None
  {
    ToStringIsTrimmed();
    PrototypeNamePassesGuard(e);
  }
}
