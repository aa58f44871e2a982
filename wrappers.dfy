/** Failure-compatible wrappers shared by every module of the model.
    `Option` stands for a value that may be missing (pandas NaN, an unbound
    Python local); `Result` for a computation that may abort the script
    with a Python exception. */
module Wrappers {

  datatype Option<+T> = None | Some(value: T)

  /** `Failed` stands for any exception the script would raise; the model
      does not distinguish between exception classes. */
  datatype Result<+T> = Ok(value: T) | Failed
}
