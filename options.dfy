/** Optional values. */
module Options {

  /** A value that may be absent: the source's `T | null` and `T | undefined`. */
  datatype Option<T> = None | Some(value: T)
}
