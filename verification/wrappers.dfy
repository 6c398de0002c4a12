/** Shared failure-carrying datatypes.

- Option<T> stands for a JavaScript value that may be `undefined`/`null`.
- Result<T> is what a request handler produces: a value, or the error it hands
  to Express's `next(error)`.
- ApiError separates the errors a handler raises itself (an `ErrorResponse`
  with an explicit HTTP status) from the errors raised by the libraries
  underneath (schema validation, unique index, multer limits), whose HTTP
  status is chosen by the application's error middleware, which is not part
  of this model.
 */
module Wrappers {

  datatype Option<+T> = None | Some(value: T) {
    function GetOr(default: T): T {
      match this
      case Some(v) => v
      case None => default
    }
  }

  datatype ApiError =
    | Http(status: nat, message: string)  // an ErrorResponse thrown by a handler
    | Invalid(paths: set<string>)         // a schema ValidationError on these paths
    | Duplicate(path: string)             // a unique-index violation on that path
    | MissingRecord                       // save() of a record that no longer exists
    | FileTooLarge                        // the upload exceeded the size limit
    | Thrown(message: string)             // a plain Error rejected by a library call

  /** A successful HTTP reply: its status code and the `data` it carries. */
  datatype Reply<+T> = Reply(status: nat, data: T)

  /** A handler's effect on the state it works on: the state afterwards and
      the outcome. */
  datatype Step<+S, +T> = Step(state: S, result: Result<T>)

  datatype Result<+T> = Ok(value: T) | Err(error: ApiError) {
    predicate IsFailure() {
      Err?
    }

    function PropagateFailure<U>(): Result<U>
      requires Err?
    {
      Err(error)
    }

    function Extract(): T
      requires Ok?
    {
      value
    }
  }
}
