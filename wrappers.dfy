/** Optional values: an absent JSON key, a missing dictionary entry, a failed lookup. */
module Wrappers {

  datatype Option<T> = None | Some(value: T) {

    /** Python's `d.get(key, default)` once the lookup itself is done. */
    function GetOr(default: T): T {
      match this
      case Some(v) => v
      case None => default
    }

    /** The value as a list of zero or one elements: what `if x: result.append(x)` adds. */
    function ToSeq(): (s: seq<T>)
      ensures |s| <= 1 && (Some? ==> s == [value])
    {
      match this
      case Some(v) => [v]
      case None => []
    }
  }
}
