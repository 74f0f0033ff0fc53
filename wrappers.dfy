/** The nil-or-value shape the limiter uses for its optional Redis
    connection string and for Go's `error` return. */
module Wrappers {

  datatype Option<+T> = None | Some(value: T)
}
