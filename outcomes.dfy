/** Values shared by every part of the model: .NET's nullable references,
    an optional value, the exceptions the interceptor can raise, and the
    result of a call that either returns or throws. */
module Outcomes {

  /** A .NET reference that may be null. */
  datatype Nullable<+T> = Null | NonNull(get: T)

  datatype Option<+T> = None | Some(value: T)

  /** The exceptions that leave the interceptor. */
  datatype Exception =
    /** `GetType()` called on a null argument while the key is built; the
        exception does not say which argument. */
    | NullReferenceException
    /** `ToDictionary` met the same parameter name twice. */
    | ArgumentException(duplicateKey: string)
    /** The policy key has no entry in the configuration's items. */
    | KeyNotFoundException(policyKey: string)
    /** `SemaphoreSlim.Wait` was given a timeout below -1 ms or above `Int32.MaxValue` ms. */
    | ArgumentOutOfRangeException
    /** Whatever the wrapped operation itself threw, identified by its name. */
    | OperationException(name: string)

  /** The outcome of a call: a returned value or a thrown exception. */
  datatype Result<+T> = Ok(value: T) | Throw(exception: Exception)
}
