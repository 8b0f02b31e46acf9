/** The Some/None datatype used where the Python code uses None or a missing dictionary key. */
module Options {
  datatype Option<+T> = None | Some(value: T) {
    function GetOr(default: T): T {
      if Some? then value else default
    }
  }
}
