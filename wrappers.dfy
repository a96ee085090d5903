/** The failure-compatible Option datatype used for calls into external code that may raise. */
module Wrappers {

  /** `None` stands for "the call raised"; `Some(v)` for a normal return of `v`. */
  datatype Option<+T> = None | Some(value: T)
}
