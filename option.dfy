/** An optional value: Java's nullable lookup results. */
module Options {
  datatype Option<T> = None | Some(value: T)
}
