/** An optional value, for the readers that may fail to find what they expect. */
module Options {

  datatype Option<T> = None | Some(value: T)
}
