/** Optional values, used wherever the modelled JavaScript would throw or yield nothing. */
module Wrappers {
  datatype Option<T> = None | Some(value: T)
  {
    function GetOr(default: T): T
    {
      match this
        case None => default
        case Some(v) => v
    }
  }
}
