/** Optional values: a JavaScript property that may be absent, a Rust `Option`. */
module Wrappers {

  datatype Option<+T> = None | Some(value: T)
}
