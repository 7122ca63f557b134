/** Failure-carrying values shared by the services and controllers. */
module Wrappers {

  datatype Option<+T> = None | Some(value: T) {
    function GetOr(default: T): T {
      match this
      case Some(v) => v
      case None => default
    }
  }

  datatype Result<+R, +E> = Success(value: R) | Failure(error: E) {
    /** Forgets the value of a success. */
    function ToOutcome(): Outcome<E> {
      match this
      case Success(_) => Pass
      case Failure(e) => Fail(e)
    }
  }

  /** A call that returns nothing on success (a C# `Task` without a value). */
  datatype Outcome<+E> = Pass | Fail(error: E)

  /**
   * The kinds of exception the backend throws and catches, each with its
   * `Message`.  `Other` stands for `System.Exception` and every kind the
   * controllers do not catch separately.
   */
  datatype Fault =
    | InvalidOperation(message: string)
    | FileNotFound(message: string)
    | Argument(message: string)
    | Other(message: string)
  {
    function Message(): string {
      match this
      case InvalidOperation(m) => m
      case FileNotFound(m) => m
      case Argument(m) => m
      case Other(m) => m
    }
  }

  /** An HTTP response: its status code and the object serialised as its body. */
  datatype Reply<+B> = Reply(status: int, body: B)
}
