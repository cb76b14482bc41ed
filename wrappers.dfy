/** Optional values, standing for the `T | null` / `T | undefined` of the source. */
module Wrappers {

  datatype Option<+T> = None | Some(value: T)
}
