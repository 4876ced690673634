/** How reading a header can fail (rust/src/error.rs). */
module Errors {
  import opened Wrappers

  datatype DissectError = Truncated | Malformed | Unsupported | DepthExceeded

  type DResult<+T> = Result<T, DissectError>
}
