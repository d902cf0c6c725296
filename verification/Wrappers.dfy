/** Failure-compatible datatypes and the server's error kinds (message texts are not kept). */
module Wrappers {

  datatype Option<+T> = None | Some(value: T) {
    function ToResult<E>(error: E): Result<T, E> {
      if Some? then Success(value) else Failure(error)
    }

    function GetOr(default: T): T {
      if Some? then value else default
    }
  }

  datatype Result<+T, +E> = Success(value: T) | Failure(error: E) {
    predicate IsFailure() {
      Failure?
    }

    function PropagateFailure<U>(): Result<U, E>
      requires Failure?
    {
      Failure(error)
    }

    function Extract(): T
      requires Success?
    {
      value
    }
  }

  datatype DbError = RowNotFound | UniqueViolation | ForeignKeyViolation | SchemaMismatch

  datatype AppError =
    | IdentityNotFound
    | NotFound
    | Unauthorized
    | Conflict
    | PreconditionFailed
    | Database(cause: DbError)
    | Crypto
    | Internal
    | Validation

  function Need(condition: bool, error: AppError): Result<(), AppError> {
    if condition then Success(()) else Failure(error)
  }
}
