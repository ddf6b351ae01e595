/** Failure-carrying results shared by the validators and the aggregator. */
module Outcomes {

  /** An optional value, e.g. the index of the first entry that fails a check. */
  datatype Option<+T> = None | Some(value: T)

  /** The outcome of a Go function that returns only an `error`: `Pass` is `nil`. */
  datatype Outcome<+E> = Pass | Fail(error: E)
}
