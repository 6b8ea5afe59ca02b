/** Optional values, for PHP's `null` / "no match" results. */
module Wrappers {

  datatype Option<+T> = None | Some(value: T)

}
