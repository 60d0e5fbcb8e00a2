/** Optional values: the model of a nullable reference, of an optional argument, and of
    a conversion that throws instead of producing a value. */
module Wrappers {

  datatype Option<T> = None | Some(value: T)
}
