/** The "value or absent" type that stands for Python's Optional[float]. */
module Options {
  datatype Option<+T> = None | Some(value: T)
}
