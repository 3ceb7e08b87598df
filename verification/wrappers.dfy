/** The nullable values of the skip catalogue (`number | null`, `Skip | null`). */
module Wrappers {

  /** `None` stands for JavaScript's `null`. */
  datatype Option<+T> = None | Some(value: T)
}
