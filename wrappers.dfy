/** Optional values: a JSON field or header that may be absent, a query that may find no row. */
module Wrappers {
  datatype Option<+T> = None | Some(value: T)
}
