/** Failure-carrying results shared by every module of the model. */
module Wrappers {

  /** A present value or its absence; the model's stand-in for a NULL pointer result. */
  datatype Option<+T> = None | Some(value: T)

  /** The two-valued status of the library's mutating calls (JSONSuccess / JSONFailure). */
  datatype Status = Success | Failure
}
