/** Failure-carrying results used by the data model: an optional value for
    lookups that may return Python's `None`, and a pass/fail outcome for calls
    that either return normally or raise. */
module Wrappers {

  datatype Option<+T> = None | Some(value: T)

  datatype Outcome<+E> = Pass | Fail(error: E)
}
