/** The conventional optional value. */
module Wrappers {

  datatype Option<+T> = None | Some(value: T)

  function OptionToSeq<T>(o: Option<T>): seq<T> {
    if o.Some? then [o.value] else []
  }
}
