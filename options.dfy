/** The optional-value datatype shared by the modules of this model. */
module Options {

  datatype Option<+T> = None | Some(value: T)

  /** The list holding the value of `o`, if any. */
  function ToSeq<T>(o: Option<T>): (r: seq<T>)
    ensures o.None? ==> r == []
    ensures o.Some? ==> r == [o.value]
  {
    match o
    case None => []
    case Some(v) => [v]
  }
}
