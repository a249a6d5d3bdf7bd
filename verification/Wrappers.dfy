/** A value or none. */
module Wrappers {

  datatype Option<+T> = None | Some(value: T)

  function ToSeq<T>(o: Option<T>): (s: seq<T>) { if o.None? then [] else [o.value] }
}
