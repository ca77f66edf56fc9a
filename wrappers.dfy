/** Optional values: a Go nil pointer, a missing map entry, a lookup that found nothing. */
module Wrappers {

  datatype Option<+T> = None | Some(value: T)
}
