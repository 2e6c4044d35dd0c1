// Optional values and results carrying either a value or an error.
module Wrappers {
  datatype Option<+T> = None | Some(value: T) {
    function GetOr(other: T): T {
      if Some? then value else other
    }
  }

  datatype Result<+T, +E> = Ok(value: T) | Err(error: E) {
    function GetOr(other: T): T {
      if Ok? then value else other
    }
  }
}
