/** Optional values: a present value, or Python's `None`. */
module Optional {

  datatype Option<+T> = None | Some(value: T)
}
