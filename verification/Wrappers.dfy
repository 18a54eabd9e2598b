// The conventional Some/None type, standing for a value the source may hold as null or undefined.
module Wrappers {
  datatype Option<+T> = None | Some(value: T) {
    function GetOr(default: T): T {
      if Some? then value else default
    }
  }
}
