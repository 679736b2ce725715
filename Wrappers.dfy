/** Optional values: `None` stands for the Objective-C `nil` result and for
    the `NSNotFound` sentinel of the index lookups. */
module Wrappers {

  datatype Option<+T> = None | Some(value: T)
}
