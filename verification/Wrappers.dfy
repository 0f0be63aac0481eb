/** Result types shared by every component. */
module Wrappers {
  datatype Option<+T> = None | Some(value: T) {
    function GetOr(default: T): T {
      if Some? then value else default
    }
  }

  /** The exceptions the modelled code raises or lets through. */
  datatype Error = ValueError | RuntimeError | IoError | ConfigParserError

  /** A call that returns a value or raises. */
  datatype Outcome<+T> = Returned(value: T) | Raised(error: Error)
}
