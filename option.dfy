/** An optional value: Python's `X | None`. */
module Optional {

  datatype Option<T> = None | Some(value: T)
}
