/** The optional-value type used by the scanner and by configuration overrides. */
module Wrappers {

  /** `None` stands for a missing value: no match at a position, or an option left unset. */
  datatype Option<+T> = None | Some(value: T)
}
