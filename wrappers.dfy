/** Optional values, used for SQL NULL, JavaScript NaN/undefined and "no match". */
module Wrappers {
  datatype Option<+T> = None | Some(value: T)
  {
    function GetOr(default: T): T
    {
      match this
      case Some(v) => v
      case None => default
    }
  }
}
