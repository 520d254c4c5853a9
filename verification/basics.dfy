/** Small value types shared by every module of the model. */
module Basics {

  /** A value that may be absent: `None` stands for a .NET `null`. */
  datatype Option<+T> = None | Some(value: T) {

    /** The carried value, or `default` when there is none. */
    function GetOr(default: T): T {
      match this
      case Some(v) => v
      case None => default
    }
  }

  /** The outcome of a computation that may raise an exception.
      The model does not distinguish exception types or messages: every
      throw is the single outcome `Threw`. */
  datatype Try<+T> = Done(value: T) | Threw
}
