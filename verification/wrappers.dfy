/** Failure-carrying values shared by every module: `Option` stands for a Java
    `Optional` (or a nullable reference), `Result` for a value-or-exception. */
module Wrappers {

  datatype Option<+T> = None | Some(value: T)

  datatype Result<+T, +E> = Ok(value: T) | Err(error: E)

  /** A Java list that may be `null`; `null` reads as the empty list. */
  function OrEmpty<T>(o: Option<seq<T>>): (r: seq<T>)
    ensures o.None? ==> r == []
    ensures o.Some? ==> r == o.value
  {
    match o
    case None => []
    case Some(s) => s
  }
}
