/** Stock result types. */
module Wrappers {
  datatype Option<+T> = None | Some(value: T)

  /** What a store answers: a value, nothing, or a failure of the database driver. */
  datatype Result<+T> = Ok(value: T) | NotFound | Failed
}
