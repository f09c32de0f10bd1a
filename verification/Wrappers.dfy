/** Stock datatypes shared by the other modules. */
module Wrappers {
  datatype Option<+T> = None | Some(value: T)
  {
    /** The source's `a || b` on an optional value. */
    function Or(other: Option<T>): Option<T> {
      if Some? then this else other
    }
  }

  datatype Result<+T, +E> = Ok(value: T) | Err(error: E)
}
