/** Optional values: a TypeScript `T | null | undefined` read as a value that
    may be absent.  Where the source distinguishes `null` from `undefined`
    the modules use their own datatypes instead. */
module Wrappers {

  datatype Option<+T> = None | Some(value: T) {

    /** `x ?? fallback` */
    function GetOr(fallback: T): T
    {
      match this
      case Some(v) => v
      case None => fallback
    }
  }
}
