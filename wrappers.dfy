/** Optional values: `None` stands for JavaScript's `undefined` wherever the
    dashboard reads past the end of an array or a missing property. */
module Wrappers {

  datatype Option<+T> = None | Some(value: T)
}
