/** The optional value that several operations of the panel return: a
    callback that may or may not fire, a value that may or may not exist. */
module Options {

  datatype Option<+T> = None | Some(value: T)

  /** The option as a sequence of zero or one element. */
  function AsSeq<T>(o: Option<T>): (s: seq<T>)
    ensures |s| <= 1
    ensures o.Some? ==> s == [o.value]
    ensures o.None? <==> s == []
  {
    match o
    case None => []
    case Some(v) => [v]
  }
}
