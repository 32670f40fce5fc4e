/** Optional values, for NULL results. */
module Options {
  datatype Option<T> = None | Some(value: T)
}
