/** Optional values and results with an error, as the source's `undefined` and thrown errors. */
module Wrappers {

  datatype Option<+T> = None | Some(value: T) {
    function GetOr(default: T): T {
      match this
      case Some(v) => v
      case None => default
    }
  }

  datatype Result<+R, +E> = Success(value: R) | Failure(error: E)

  /** Lookup in a storage map: absent keys read as `None`, like `getItem`. */
  function Get<K, V>(m: map<K, V>, k: K): (r: Option<V>)
    ensures r.Some? <==> k in m
    ensures r.Some? ==> r.value == m[k]
  {
    if k in m then Some(m[k]) else None
  }

  /**
   * The shape every context hook shares: the provider's value, or the hook's
   * error when it is used outside its provider.
   */
  function UseContext<T>(context: Option<T>, message: string): (r: Result<T, string>)
    ensures r.Success? <==> context.Some?
    ensures r.Success? ==> r.value == context.value
    ensures r.Failure? ==> r.error == message
  {
    match context
    case Some(value) => Success(value)
    case None => Failure(message)
  }
}
