/** A value or none: the kernel's null and -1 results. */
module Options {
  datatype Option<+T> = None | Some(value: T)
}
