/** Optional values: Swift's `T?` and implicitly unwrapped `T!`. */
module Wrappers {

  datatype Option<+T> = None | Some(value: T)
}
