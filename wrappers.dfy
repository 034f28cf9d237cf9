/** Optional values: `None` stands for JavaScript's `undefined` wherever the server reads
    a property or an array slot that may be absent. */
module Wrappers {

  datatype Option<+T> = None | Some(value: T)
}
