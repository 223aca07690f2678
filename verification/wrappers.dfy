/** Optional values: the model's stand-in for the source's nullable fields
    (`sentAt`, `error`) and for absent request fields. */
module Wrappers {
  datatype Option<T> = None | Some(value: T)
}
