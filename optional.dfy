/** Python's `None`-or-value results, and calls that may raise. */
module Optional {

  datatype Option<T> = None | Some(value: T)

  /** The outcome of a call that may raise an exception: its value, or
      `Raised` when an exception propagates out of it. */
  datatype Outcome<T> = Done(value: T) | Raised
}
