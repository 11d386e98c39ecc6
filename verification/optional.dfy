/** An optional value, as the source's `Option`. */
module Optional {
  datatype Option<T> = None | Some(value: T)
}
