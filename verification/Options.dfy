/** Optional values: the source's "undefined or null" checks `e` and `t`. */
module Options {
  datatype Option<+T> = None | Some(value: T)
}
