/** The page's `null`/`undefined` and its rejected promises, as one datatype. */
module Outcome {

  /** `Some(v)` for a value that is present (or a promise that resolved with `v`),
      `None` for a missing value (or a promise that rejected). */
  datatype Option<+T> = None | Some(value: T)
}
