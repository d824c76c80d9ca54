/** Types that several components share. */
module Times {
  /** A wall-clock instant. */
  type Time = int
}

module Wrappers {
  datatype Option<+T> = None | Some(value: T)

  datatype Result<+T, +E> = Ok(value: T) | Err(error: E)
}
