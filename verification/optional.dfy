/** Optional values: a Python `Optional[T]` field, or the outcome of a lookup. */
module Optional {

  datatype Option<+T> = None | Some(value: T)
}
