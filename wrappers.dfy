/** Optional values: the `undefined`-or-value results of the host's lookups and fetches. */
module Wrappers {

  datatype Option<+T> = None | Some(value: T)
}
