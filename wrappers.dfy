/** Optional values: `None` stands for JavaScript's `undefined` result, a thrown
    exception or a call that does not happen, as each use says. */
module Wrappers {

  datatype Option<+T> = None | Some(value: T)
}
