/** An optional value (a nullable React state slot) and a result-or-fault
    datatype (the value a handler produces or the fault it would raise). */
module Wrappers {

  /** A value that may be absent; `None` stands for JavaScript `null`. */
  datatype Option<+T> = None | Some(value: T)

  /** Either the value a computation produced or the fault it stopped with. */
  datatype Result<+R, +E> = Success(value: R) | Failure(error: E)
}
