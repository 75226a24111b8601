/** Optional values: Python's `None` next to a present value. */
module Optional {

  datatype Option<T> = None | Some(value: T)
}
