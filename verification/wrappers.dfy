/** The optional-value datatype used for the fields that the ledger may leave unset. */
module Wrappers {

  /** `None` stands for a field that is absent (JavaScript `undefined`). */
  datatype Option<+T> = None | Some(value: T)
}
