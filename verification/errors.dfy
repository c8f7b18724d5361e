/** The Python exceptions the modelled helpers can raise, and a result type
    that carries either a value or the exception that replaced it. */
module Errors {

  datatype PyError =
    | KeyError(key: string)          // a dictionary lookup of a missing key
    | ValueError(message: string)    // raised explicitly, or by numpy on a bad argument
    | TypeError                      // arithmetic on a value that is not a number
    | ZeroDivisionError              // float division by zero
    | IndexError                     // an index past the end of an array

  datatype Result<T> = Success(value: T) | Failure(error: PyError)
  {
    predicate IsFailure()
    {
      Failure?
    }

    function PropagateFailure<U>(): (r: Result<U>)
      requires Failure?
      ensures r.Failure? && r.error == error
    {
      Failure(error)
    }

    function Extract(): T
      requires Success?
    {
      value
    }
  }

  /** Subscript of a dictionary with string keys: the stored value, or a
      KeyError naming the missing key. */
  function Subscript<V>(m: map<string, V>, key: string): (r: Result<V>)
    ensures r.Failure? <==> key !in m
    ensures r.Failure? ==> r.error == KeyError(key)
    ensures r.Success? ==> r.value == m[key]
  {
    if key in m then Success(m[key]) else Failure(KeyError(key))
  }
}
