/** Error values and the failure-carrying result types shared by every stage. */
module Wrappers {

  /** The errors the modelled code can return. */
  datatype Error =
    | NotExist           // the path does not exist (os.ErrNotExist)
    | NotDir             // a path component, or the listed path, is a regular file (ENOTDIR)
    | IsDir              // a directory where a regular file is needed (EISDIR)
    | Invalid            // an operation on a path that has no name at all (EINVAL)
    | Unsupported        // renaming a directory, which this model does not move
    | Malformed          // a manifest whose content does not decode as an artifact list
    | CannotRel          // filepath.Rel cannot make one path relative to the other
    | InvalidSkip        // a requested skip name is not one of the allowed ones
    | StageFailed(stage: string)   // the opaque error of some other pipeline stage

  datatype Option<+T> = None | Some(value: T)

  datatype Result<+T> = Ok(value: T) | Err(error: Error)

  /** The `error` result of a Go function that returns nothing else. */
  datatype Outcome = Pass | Fail(error: Error)
}
