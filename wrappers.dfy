/** Optional values: a JavaScript `undefined` field, or a lookup that found nothing. */
module Wrappers {
  datatype Option<+T> = None | Some(value: T)
}
