/** The optional value that stands in for a callback which may or may not fire. */
module Wrappers {

  datatype Option<+T> = None | Some(value: T) {

    /** The reported values as a sequence: empty when nothing fired, one element otherwise. */
    function ToSeq(): (s: seq<T>)
      ensures |s| <= 1
      ensures Some? <==> |s| == 1
      ensures Some? ==> s[0] == value
    {
      match this
      case None => []
      case Some(v) => [v]
    }
  }
}
