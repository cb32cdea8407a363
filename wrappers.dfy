/** Optional values, standing for JavaScript's `undefined` and for a decoder's failure. */
module Wrappers {

  datatype Option<+T> = None | Some(value: T)
}
