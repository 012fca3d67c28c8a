/**
 * The employee cache held by `EmployeeProvider`: the fetched records and
 * the loading/error/hasFetched flags, the transitions of `loadEmployees`,
 * and the effect that loads automatically until a load has succeeded.
 */
module EmployeeContext {
  import opened Wrappers
  import opened EmployeeService

  /** A value thrown by the fetch: an `Error` with its message, or any other value. */
  datatype Thrown = ErrorObject(message: string) | NonErrorValue

  const DefaultLoadError := "Failed to load employees."

  /** The message the cache shows for a thrown value. */
  function ErrorMessage(t: Thrown): (m: string)
    ensures t.ErrorObject? ==> m == t.message
    ensures t.NonErrorValue? ==> m == DefaultLoadError
  {
    match t
    case ErrorObject(message) => message
    case NonErrorValue => DefaultLoadError
  }

  /** What the awaited `fetchEmployees()` produced, as seen by `loadEmployees`. */
  function Outcome(r: Result<seq<Employee>, string>): Result<seq<Employee>, Thrown> {
    match r
    case Success(employees) => Success(employees)
    case Failure(message) => Failure(ErrorObject(message))
  }

  class EmployeeProvider {
    var employees: seq<Employee>
    var loading: bool
    var error: Option<string>
    var hasFetched: bool
    /** React's record of the `hasFetched` value the load effect last ran with; `None` before the first commit. */
    var effectDeps: Option<bool>
    /** How many loads the effect (as opposed to `refresh`) has started. */
    ghost var autoLoads: nat

    ghost predicate Valid()
      reads this
    {
      && !(loading && error.Some?)
      && autoLoads <= 1
      && (effectDeps == None ==> autoLoads == 0)
      && (effectDeps.Some? && effectDeps.value ==> hasFetched)
    }

    constructor ()
      ensures Valid()
      ensures employees == [] && !loading && error == None && !hasFetched
      ensures effectDeps == None && autoLoads == 0
    {
      employees := [];
      loading := false;
      error := None;
      hasFetched := false;
      effectDeps := None;
      autoLoads := 0;
    }

    /** The synchronous start of `loadEmployees`. */
    method BeginLoad()
      requires Valid()
      modifies this`loading, this`error
      ensures Valid()
      ensures loading && error == None
    {
      loading := true;
      error := None;
    }

    /** The end of `loadEmployees`, once the fetch has settled. */
    method CompleteLoad(outcome: Result<seq<Employee>, Thrown>)
      requires Valid()
      modifies this`employees, this`loading, this`error, this`hasFetched
      ensures Valid()
      ensures !loading
      ensures outcome.Success? ==> employees == outcome.value && hasFetched && error == old(error)
      ensures outcome.Failure? ==>
                employees == old(employees) && hasFetched == old(hasFetched)
                && error == Some(ErrorMessage(outcome.error))
    {
      match outcome {
        case Success(data) =>
          employees := data;
          hasFetched := true;
        case Failure(thrown) =>
          error := Some(ErrorMessage(thrown));
      }
      loading := false;
    }

    /**
     * A whole `loadEmployees` call (also exposed as `refresh`) against the
     * given server response, with no other load overlapping it.
     */
    method LoadEmployees(response: ApiResponse)
      requires Valid()
      modifies this`employees, this`loading, this`error, this`hasFetched
      ensures Valid()
      ensures !loading
      ensures old(hasFetched) ==> hasFetched
      ensures response.Response? && response.table.Some? ==>
                employees == Normalized(response.table.value) && hasFetched && error == None
      ensures response.TransportError? || response.table.None? ==>
                employees == old(employees) && hasFetched == old(hasFetched)
                && error == Some(FetchFailedMessage)
    {
      BeginLoad();
      var fetched := FetchEmployees(response);
      CompleteLoad(Outcome(fetched));
    }

    /**
     * A commit of the provider: the effect runs when `hasFetched` differs from
     * the value it last ran with, and then loads only if `hasFetched` is false.
     */
    method Commit(response: ApiResponse) returns (started: bool)
      requires Valid()
      modifies this
      ensures Valid()
      ensures started <==> old(effectDeps) != Some(old(hasFetched)) && !old(hasFetched)
      ensures effectDeps == Some(old(hasFetched))
      ensures started ==> autoLoads == old(autoLoads) + 1 == 1
      ensures !started ==> employees == old(employees) && loading == old(loading)
                           && error == old(error) && hasFetched == old(hasFetched) && autoLoads == old(autoLoads)
      ensures old(hasFetched) ==> hasFetched
      ensures started ==> !loading
      ensures started && response.Response? && response.table.Some? ==>
                employees == Normalized(response.table.value) && hasFetched && error == None
      ensures started && (response.TransportError? || response.table.None?) ==>
                employees == old(employees) && !hasFetched && error == Some(FetchFailedMessage)
    {
      started := false;
      if effectDeps != Some(hasFetched) {
        assert !hasFetched ==> effectDeps == None;
        effectDeps := Some(hasFetched);
        if !hasFetched {
          assert autoLoads == 0;
          started := true;
          autoLoads := autoLoads + 1;
          LoadEmployees(response);
        }
      }
    }
  }

  /** `useEmployees`: the provider's value, or the error thrown outside a provider. */
  function UseEmployees<T>(context: Option<T>): (r: Result<T, string>)
    ensures context.Some? ==> r == Result.Success(context.value)
    ensures context.None? ==> r == Failure("useEmployees must be used within an EmployeeProvider")
  {
    UseContext(context, "useEmployees must be used within an EmployeeProvider")
  }
}
