/** Shared vocabulary. */
module Common {

  datatype Option<+T> = None | Some(value: T)

  /** `set(names)` */
  function Elements(names: seq<string>): set<string> {
    set n | n in names
  }
}
