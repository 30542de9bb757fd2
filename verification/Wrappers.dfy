/** The two outcome types used by every module. */
module Wrappers {

  datatype Option<+T> = None | Some(value: T)

  datatype Result<+T> = Failure | Success(value: T)
}
