/** Values that may be missing. */
module Options {
  datatype Option<+T> = None | Some(value: T)

  function Opt<T>(r: Option<T>): seq<T> {
    if r.Some? then [r.value] else []
  }

  /** The values that are not missing, in order. */
  function Present<T>(rs: seq<Option<T>>): seq<T> {
    if rs == [] then [] else Opt(rs[0]) + Present(rs[1..])
  }
}
