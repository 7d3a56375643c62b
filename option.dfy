/** A table cell that may be empty (`null` in the script). */
module Optional {
  datatype Option<T> = None | Some(value: T)
}
